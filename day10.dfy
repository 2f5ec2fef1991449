/**
 * Day 10 (part 1): each machine has a row of indicator lights, all off at
 * the start, and buttons that each toggle a set of lights. The fewest
 * presses that switch on exactly the lights the diagram shows are found by
 * a breadth-first search over light states, a state being the number whose
 * bit i says whether light i is on, and a press XOR-ing the button's mask
 * into it. Part 1 is the sum of the fewest presses over all machines.
 *
 * Bit operations on Python's unbounded integers are written out on
 * naturals (`Xor`, `Or`, `Bit`). The search is written for any way `press`
 * of combining a state with a mask that keeps states below `1 << numBits`,
 * and is proved to find the least number of presses (at least one) that
 * reaches the target; `Solve` instantiates it with `Xor`.
 */
module Day10 {
  import opened Parsing
  import opened Sums

  // ---------------------------------------------------------------------
  // Bits of naturals

  /** `1 << n`. */
  function Pow2(n: nat): (p: nat)
    ensures p >= 1
  {
    if n == 0 then 1 else 2 * Pow2(n - 1)
  }

  /** Bit k of a is set: `a >> k & 1 == 1`. */
  predicate Bit(a: nat, k: nat)
  {
    if k == 0 then a % 2 == 1 else Bit(a / 2, k - 1)
  }

  /** `a ^ b` on naturals, one bit at a time from the lowest. */
  function Xor(a: nat, b: nat): nat
  {
    if a == 0 then b
    else if b == 0 then a
    else 2 * Xor(a / 2, b / 2) + (if a % 2 == b % 2 then 0 else 1)
  }

  /** `a | b` on naturals, one bit at a time from the lowest. */
  function Or(a: nat, b: nat): nat
  {
    if a == 0 then b
    else if b == 0 then a
    else 2 * Or(a / 2, b / 2) + (if a % 2 == 1 || b % 2 == 1 then 1 else 0)
  }

  lemma {:induction false} ZeroBits(k: nat)
    ensures !Bit(0, k)
  {
    if k > 0 {
      ZeroBits(k - 1);
    }
  }

  /** Bit k of `a ^ b` is set iff exactly one of a and b has it. */
  lemma {:induction false} XorBit(a: nat, b: nat, k: nat)
    ensures Bit(Xor(a, b), k) <==> Bit(a, k) != Bit(b, k)
  {
    if a == 0 || b == 0 {
      ZeroBits(k);
    } else if k > 0 {
      var x := Xor(a / 2, b / 2);
      assert Xor(a, b) / 2 == x;
      XorBit(a / 2, b / 2, k - 1);
    }
  }

  /** Bit k of `a | b` is set iff a or b has it. */
  lemma {:induction false} OrBit(a: nat, b: nat, k: nat)
    ensures Bit(Or(a, b), k) <==> Bit(a, k) || Bit(b, k)
  {
    if a == 0 || b == 0 {
      ZeroBits(k);
    } else if k > 0 {
      var x := Or(a / 2, b / 2);
      assert Or(a, b) / 2 == x;
      OrBit(a / 2, b / 2, k - 1);
    }
  }

  /** A natural is determined by its bits. */
  lemma {:induction false} BitsDetermine(a: nat, b: nat)
    requires forall k: nat :: Bit(a, k) == Bit(b, k)
    ensures a == b
    decreases a + b
  {
    if a != 0 || b != 0 {
      forall k: nat
        ensures Bit(a / 2, k) == Bit(b / 2, k)
      {
        assert Bit(a, k + 1) == Bit(b, k + 1);
      }
      assert Bit(a, 0) == Bit(b, 0);
      BitsDetermine(a / 2, b / 2);
    }
  }

  lemma XorComm(a: nat, b: nat)
    ensures Xor(a, b) == Xor(b, a)
  {
    forall k: nat
      ensures Bit(Xor(a, b), k) == Bit(Xor(b, a), k)
    {
      XorBit(a, b, k);
      XorBit(b, a, k);
    }
    BitsDetermine(Xor(a, b), Xor(b, a));
  }

  lemma XorAssoc(a: nat, b: nat, c: nat)
    ensures Xor(Xor(a, b), c) == Xor(a, Xor(b, c))
  {
    forall k: nat
      ensures Bit(Xor(Xor(a, b), c), k) == Bit(Xor(a, Xor(b, c)), k)
    {
      XorBit(Xor(a, b), c, k);
      XorBit(a, Xor(b, c), k);
      XorBit(a, b, k);
      XorBit(b, c, k);
    }
    BitsDetermine(Xor(Xor(a, b), c), Xor(a, Xor(b, c)));
  }

  /** Pressing the same button twice undoes it. */
  lemma XorSelf(a: nat)
    ensures Xor(a, a) == 0
  {
    forall k: nat
      ensures Bit(Xor(a, a), k) == Bit(0, k)
    {
      XorBit(a, a, k);
      ZeroBits(k);
    }
    BitsDetermine(Xor(a, a), 0);
  }

  /** `1 << i` has bit i and no other. */
  lemma {:induction false} Pow2Bit(i: nat, k: nat)
    ensures Bit(Pow2(i), k) <==> i == k
  {
    if i == 0 {
      if k > 0 {
        ZeroBits(k - 1);
      }
    } else if k > 0 {
      assert Pow2(i) / 2 == Pow2(i - 1);
      Pow2Bit(i - 1, k - 1);
    }
  }

  lemma {:induction false} Pow2Grows(i: nat, n: nat)
    requires i < n
    ensures Pow2(i) < Pow2(n)
  {
    if i < n - 1 {
      Pow2Grows(i, n - 1);
    }
  }

  /** XOR of two numbers below `1 << n` stays below it: no bit above n - 1 appears. */
  lemma {:induction false} XorBelow(a: nat, b: nat, n: nat)
    requires a < Pow2(n) && b < Pow2(n)
    ensures Xor(a, b) < Pow2(n)
  {
    if a != 0 && b != 0 {
      XorBelow(a / 2, b / 2, n - 1);
    }
  }

  lemma XorClosed(n: nat)
    ensures forall a: nat, b: nat :: a < Pow2(n) && b < Pow2(n) ==> Xor(a, b) < Pow2(n)
  {
    forall a: nat, b: nat | a < Pow2(n) && b < Pow2(n)
      ensures Xor(a, b) < Pow2(n)
    {
      XorBelow(a, b, n);
    }
  }

  // ---------------------------------------------------------------------
  // Parsing a machine

  /** Python's `s[1:-1]`: s without its first and last characters. */
  function Inner(s: string): (t: string)
    ensures |s| >= 2 ==> t == s[1..|s| - 1]
    ensures |s| < 2 ==> t == ""
  {
    if |s| < 2 then "" else s[1..|s| - 1]
  }

  /** The lights of a diagram such as `.##.` as a mask: bit i is set for each character that is not '.'. */
  function IndicatorMask(lights: string): nat
  {
    if lights == [] then 0
    else
      var mask := IndicatorMask(lights[..|lights| - 1]);
      if lights[|lights| - 1] == '.' then mask else Or(mask, Pow2(|lights| - 1))
  }

  /** Light i is wanted on exactly when the diagram's character i is not '.'. */
  lemma {:induction false} IndicatorBits(lights: string, k: nat)
    ensures Bit(IndicatorMask(lights), k) <==> k < |lights| && lights[k] != '.'
  {
    if lights == [] {
      ZeroBits(k);
    } else {
      var n := |lights| - 1;
      var init := lights[..n];
      IndicatorBits(init, k);
      assert k < n ==> init[k] == lights[k];
      if lights[n] != '.' {
        OrBit(IndicatorMask(init), Pow2(n), k);
        Pow2Bit(n, k);
      }
    }
  }

  /** The loop of `_parse_line` that ORs `1 << i` into the state for every lit character between the brackets. */
  method ParseIndicator(indicator: string) returns (state: nat)
    ensures state == IndicatorMask(Inner(indicator))
  {
    var lights := Inner(indicator);
    state := 0;
    for i := 0 to |lights|
      invariant state == IndicatorMask(lights[..i])
    {
      assert lights[..i + 1][..i] == lights[..i];
      if lights[i] == '.' {
        continue;
      }
      state := Or(state, Pow2(i));
    }
    assert lights[..|lights|] == lights;
  }

  /** The members of xs in order of first appearance: Python's `set` of them, as a sequence. */
  function Dedup(xs: seq<int>): (r: seq<int>)
    ensures Distinct(r)
    ensures forall x :: x in r <==> x in xs
  {
    if xs == [] then []
    else
      var init := Dedup(xs[..|xs| - 1]);
      var last := xs[|xs| - 1];
      assert forall x :: x in xs <==> x in xs[..|xs| - 1] || x == last;
      if last in init then init else init + [last]
  }

  /** A button such as `(1,3)`: `{int(x) for x in button[1:-1].split(",")}`. */
  function ParseButton(token: string): (r: Option<seq<int>>)
    ensures r.Some? ==> r.value != [] && Distinct(r.value)
  {
    var fields := Split(Inner(token), ",");
    var xs := ParseInts(fields);
    if xs.None? then None
    else
      assert xs.value[0] in Dedup(xs.value);
      Some(Dedup(xs.value))
  }

  /** Every button token parsed, or None as soon as one does not parse. */
  function ParseButtons(tokens: seq<string>): Option<seq<seq<int>>>
  {
    ParseAll(tokens, ParseButton)
  }

  /** A machine: the wanted light mask, the buttons' index sets, and the joltage counters (unused by part 1). */
  datatype Machine = Machine(target: nat, buttons: seq<seq<int>>, counter: seq<int>)

  /** `_parse_line`: the first word is the diagram, the last the counters, those between the buttons. */
  function MachineOf(line: string): (r: Option<Machine>)
    ensures r.Some? ==> forall k :: 0 <= k < |r.value.buttons| ==> r.value.buttons[k] != [] && Distinct(r.value.buttons[k])
  {
    var words := Words(line);
    if |words| < 2 then None
    else
      var buttons := ParseButtons(words[1..|words| - 1]);
      var counter := ParseInts(Split(Inner(words[|words| - 1]), ","));
      if buttons.None? || counter.None? then None
      else
        ParseAllAt(words[1..|words| - 1], ParseButton);
        Some(Machine(IndicatorMask(Inner(words[0])), buttons.value, counter.value))
  }

  method ParseLine(line: string) returns (r: Option<Machine>)
    ensures r == MachineOf(line)
  {
    var words := Words(line);
    if |words| < 2 {
      return None;
    }
    var target := ParseIndicator(words[0]);
    var buttons := ParseButtons(words[1..|words| - 1]);
    var counter := ParseInts(Split(Inner(words[|words| - 1]), ","));
    if buttons.None? || counter.None? {
      return None;
    }
    return Some(Machine(target, buttons.value, counter.value));
  }

  // ---------------------------------------------------------------------
  // Toggle masks

  /** The mask a button XORs into the state: `1 << i` for each of its indices. */
  function ToggleMask(button: seq<nat>): nat
  {
    if button == [] then 0 else Xor(ToggleMask(button[..|button| - 1]), Pow2(button[|button| - 1]))
  }

  /** A button with distinct indices toggles light k exactly when k is one of them. */
  lemma {:induction false} ToggleBits(button: seq<nat>, k: nat)
    requires Distinct(button)
    ensures Bit(ToggleMask(button), k) <==> k in button
  {
    if button == [] {
      ZeroBits(k);
    } else {
      var n := |button| - 1;
      var init := button[..n];
      assert Distinct(init);
      ToggleBits(init, k);
      XorBit(ToggleMask(init), Pow2(button[n]), k);
      Pow2Bit(button[n], k);
      assert k in button <==> k in init || k == button[n];
    }
  }

  /** A button whose indices are all below n toggles only lights below n. */
  lemma {:induction false} ToggleBelow(button: seq<nat>, n: nat)
    requires forall k :: 0 <= k < |button| ==> button[k] < n
    ensures ToggleMask(button) < Pow2(n)
  {
    if button != [] {
      var m := |button| - 1;
      ToggleBelow(button[..m], n);
      Pow2Grows(button[m], n);
      XorBelow(ToggleMask(button[..m]), Pow2(button[m]), n);
    }
  }

  /** A button with at least one index toggles something. */
  lemma ToggleNonZero(button: seq<nat>)
    requires Distinct(button) && button != []
    ensures ToggleMask(button) != 0
  {
    ToggleBits(button, button[0]);
    ZeroBits(button[0]);
  }

  /** Every index of every button is non-negative: `1 << i` raises on a negative one. */
  predicate Shiftable(buttons: seq<seq<int>>)
  {
    forall k, j :: 0 <= k < |buttons| && 0 <= j < |buttons[k]| ==> buttons[k][j] >= 0
  }

  /** The toggle masks of the buttons, in button order. */
  function Toggles(buttons: seq<seq<int>>): (r: seq<nat>)
    requires Shiftable(buttons)
    ensures |r| == |buttons|
  {
    if buttons == [] then []
    else
      var n := |buttons| - 1;
      var b: seq<nat> := buttons[n];
      Toggles(buttons[..n]) + [ToggleMask(b)]
  }

  /** One more index XORs one more bit into the mask. */
  lemma ToggleMaskStep(button: seq<int>, j: nat)
    requires j < |button| && forall i :: 0 <= i <= j ==> button[i] >= 0
    ensures var a: seq<nat> := button[..j]; var b: seq<nat> := button[..j + 1];
      ToggleMask(b) == Xor(ToggleMask(a), Pow2(button[j]))
  {
    var b: seq<nat> := button[..j + 1];
    assert b[..j] == button[..j];
  }

  /** The inner loop of `part_1`'s mask computation: XOR `1 << i` for each index, raising on a negative one. */
  method ToggleOf(button: seq<int>) returns (r: Option<nat>)
    ensures r.None? <==> exists j :: 0 <= j < |button| && button[j] < 0
    ensures r.Some? ==> var b: seq<nat> := button; r.value == ToggleMask(b)
  {
    var toggle: nat := 0;
    for j := 0 to |button|
      invariant forall i :: 0 <= i < j ==> button[i] >= 0
      invariant var b: seq<nat> := button[..j]; toggle == ToggleMask(b)
    {
      if button[j] < 0 {
        return None;
      }
      ToggleMaskStep(button, j);
      toggle := Xor(toggle, Pow2(button[j]));
    }
    assert button[..|button|] == button;
    return Some(toggle);
  }

  /** The largest member of a non-empty sequence: Python's `max`. */
  function Largest(s: seq<int>): (m: int)
    requires s != []
    ensures (forall k :: 0 <= k < |s| ==> s[k] <= m) && m in s
  {
    if |s| == 1 then s[0]
    else
      var init := Largest(s[..|s| - 1]);
      if s[|s| - 1] > init then s[|s| - 1] else init
  }

  /** `max(max(button) for button in buttons)`: the highest index of any button. */
  function HighestIndex(buttons: seq<seq<int>>): (m: int)
    requires buttons != [] && forall k :: 0 <= k < |buttons| ==> buttons[k] != []
    ensures forall k, j :: 0 <= k < |buttons| && 0 <= j < |buttons[k]| ==> buttons[k][j] <= m
  {
    var highs := seq(|buttons|, k requires 0 <= k < |buttons| => Largest(buttons[k]));
    var m := Largest(highs);
    assert forall k, j :: 0 <= k < |buttons| && 0 <= j < |buttons[k]| ==> buttons[k][j] <= highs[k] <= m;
    m
  }

  // ---------------------------------------------------------------------
  // States reachable by pressing buttons
  //
  // The search's theory holds for any way `press` of combining a state with a
  // button's mask; the program's is `Xor`. Keeping `press` a parameter keeps
  // the arithmetic of `Xor` out of these proofs.

  /** The states one press away from some state of S. */
  ghost function Step(press: (nat, nat) -> nat, S: set<nat>, toggles: seq<nat>): set<nat>
  {
    set s, k | s in S && 0 <= k < |toggles| :: press(s, toggles[k])
  }

  /** The states reached from s by pressing one of the first k buttons. */
  ghost function Part(press: (nat, nat) -> nat, s: nat, toggles: seq<nat>, k: nat): set<nat>
    requires k <= |toggles|
  {
    set j | 0 <= j < k :: press(s, toggles[j])
  }

  /** The states reachable from all lights off with exactly d presses. */
  ghost function Reach(press: (nat, nat) -> nat, toggles: seq<nat>, d: nat): set<nat>
  {
    if d == 0 then {0} else Step(press, Reach(press, toggles, d - 1), toggles)
  }

  /** The states reachable with at most d presses: the ones a breadth-first search has met after d levels. */
  ghost function Upto(press: (nat, nat) -> nat, toggles: seq<nat>, d: nat): set<nat>
  {
    if d == 0 then {0} else Upto(press, toggles, d - 1) + Step(press, Upto(press, toggles, d - 1), toggles)
  }

  /** The state left by pressing the buttons listed in `presses` one after another. */
  function Press(press: (nat, nat) -> nat, toggles: seq<nat>, presses: seq<nat>): nat
    requires forall k :: 0 <= k < |presses| ==> presses[k] < |toggles|
  {
    if presses == [] then 0
    else press(Press(press, toggles, presses[..|presses| - 1]), toggles[presses[|presses| - 1]])
  }

  /** Reach(d) holds the state every sequence of d presses leads to. */
  lemma {:induction false} PressesReach(press: (nat, nat) -> nat, toggles: seq<nat>, presses: seq<nat>)
    requires forall k :: 0 <= k < |presses| ==> presses[k] < |toggles|
    ensures Press(press, toggles, presses) in Reach(press, toggles, |presses|)
  {
    if presses != [] {
      var n := |presses| - 1;
      PressesReach(press, toggles, presses[..n]);
      ReachNext(press, toggles, n, Press(press, toggles, presses[..n]), presses[n]);
    }
  }

  /** Every state of Reach(d) is left by some sequence of d presses. */
  lemma {:induction false} ReachPresses(press: (nat, nat) -> nat, toggles: seq<nat>, d: nat, s: nat) returns (presses: seq<nat>)
    requires s in Reach(press, toggles, d)
    ensures |presses| == d && forall k :: 0 <= k < d ==> presses[k] < |toggles|
    ensures Press(press, toggles, presses) == s
  {
    if d == 0 {
      presses := [];
    } else {
      var t, k := StepFrom(press, Reach(press, toggles, d - 1), toggles, s);
      var init := ReachPresses(press, toggles, d - 1, t);
      presses := init + [k];
      assert presses[..d - 1] == init;
    }
  }

  /** The least number of presses, at least one, that reaches the target; None if no number does. */
  ghost function Fewest(press: (nat, nat) -> nat, target: nat, toggles: seq<nat>): (r: Option<nat>)
    ensures r.None? ==> forall d :: d >= 1 ==> target !in Reach(press, toggles, d)
    ensures r.Some? ==> r.value >= 1 && target in Reach(press, toggles, r.value)
    ensures r.Some? ==> forall d :: 1 <= d < r.value ==> target !in Reach(press, toggles, d)
  {
    if exists d :: d >= 1 && target in Reach(press, toggles, d) then
      var d :| d >= 1 && target in Reach(press, toggles, d);
      Some(FirstReach(press, target, toggles, 1, d))
    else None
  }

  /** The first number of presses from `from` on that reaches the target, given that `upto` presses do. */
  ghost function FirstReach(press: (nat, nat) -> nat, target: nat, toggles: seq<nat>, from: nat, upto: nat): (r: nat)
    requires from <= upto && target in Reach(press, toggles, upto)
    ensures from <= r <= upto && target in Reach(press, toggles, r)
    ensures forall e :: from <= e < r ==> target !in Reach(press, toggles, e)
    decreases upto - from
  {
    if target in Reach(press, toggles, from) then from else FirstReach(press, target, toggles, from + 1, upto)
  }

  /** Fewest is the only least number of presses. */
  lemma FewestIs(press: (nat, nat) -> nat, target: nat, toggles: seq<nat>, d: nat)
    requires d >= 1 && target in Reach(press, toggles, d)
    requires forall e :: 1 <= e < d ==> target !in Reach(press, toggles, e)
    ensures Fewest(press, target, toggles) == Some(d)
  {
    var r := Fewest(press, target, toggles);
    assert r.Some?;
    assert !(r.value < d);
    assert !(d < r.value);
  }

  /** The fewest presses are realised by a sequence of that many button presses. */
  lemma FewestRealised(press: (nat, nat) -> nat, target: nat, toggles: seq<nat>) returns (presses: seq<nat>)
    requires Fewest(press, target, toggles).Some?
    ensures |presses| == Fewest(press, target, toggles).value
    ensures forall k :: 0 <= k < |presses| ==> presses[k] < |toggles|
    ensures Press(press, toggles, presses) == target
  {
    presses := ReachPresses(press, toggles, Fewest(press, target, toggles).value, target);
  }

  /** No non-empty sequence of presses reaching the target is shorter than the fewest. */
  lemma FewestLeast(press: (nat, nat) -> nat, target: nat, toggles: seq<nat>, presses: seq<nat>)
    requires |presses| >= 1 && forall k :: 0 <= k < |presses| ==> presses[k] < |toggles|
    requires Press(press, toggles, presses) == target
    ensures Fewest(press, target, toggles).Some?
    ensures Fewest(press, target, toggles).value <= |presses|
  {
    PressesReach(press, toggles, presses);
  }

  /** One press beyond S depends only on which masks the buttons have, not on their order or repetition. */
  lemma StepByMasks(press: (nat, nat) -> nat, S: set<nat>, toggles: seq<nat>, others: seq<nat>)
    requires forall x :: x in toggles <==> x in others
    ensures Step(press, S, toggles) <= Step(press, S, others)
  {
    forall y | y in Step(press, S, toggles)
      ensures y in Step(press, S, others)
    {
      var s, k := StepFrom(press, S, toggles, y);
      assert toggles[k] in others;
      var j :| 0 <= j < |others| && others[j] == toggles[k];
      StepTo(press, S, others, s, j);
    }
  }

  lemma {:induction false} ReachByMasks(press: (nat, nat) -> nat, toggles: seq<nat>, others: seq<nat>, d: nat)
    requires forall x :: x in toggles <==> x in others
    ensures Reach(press, toggles, d) == Reach(press, others, d)
  {
    if d > 0 {
      ReachByMasks(press, toggles, others, d - 1);
      StepByMasks(press, Reach(press, toggles, d - 1), toggles, others);
      StepByMasks(press, Reach(press, toggles, d - 1), others, toggles);
    }
  }

  /**
   * The program keeps the masks in a set; the model keeps them in button
   * order. The fewest presses depend only on which masks there are.
   */
  lemma FewestByMasks(press: (nat, nat) -> nat, target: nat, toggles: seq<nat>, others: seq<nat>)
    requires forall x :: x in toggles <==> x in others
    ensures Fewest(press, target, toggles) == Fewest(press, target, others)
  {
    forall d | true
      ensures Reach(press, toggles, d) == Reach(press, others, d)
    {
      ReachByMasks(press, toggles, others, d);
    }
    var r := Fewest(press, target, toggles);
    if r.Some? {
      FewestIs(press, target, others, r.value);
    }
  }

  /** With all lights wanted off, a press and its undoing are the least: the search reports 2, not 0. */
  lemma AllOffTakesTwo(toggles: seq<nat>)
    requires toggles != [] && forall k :: 0 <= k < |toggles| ==> toggles[k] != 0
    ensures Fewest(Xor, 0, toggles) == Some(2)
  {
    XorSelf(toggles[0]);
    assert Reach(Xor, toggles, 0) == {0};
    ReachNext(Xor, toggles, 0, 0, 0);
    ReachNext(Xor, toggles, 1, toggles[0], 0);
    forall s | s in Reach(Xor, toggles, 1)
      ensures s != 0
    {
      var t, k := StepFrom(Xor, Reach(Xor, toggles, 0), toggles, s);
    }
    FewestIs(Xor, 0, toggles, 2);
  }

  lemma StepMono(press: (nat, nat) -> nat, A: set<nat>, B: set<nat>, toggles: seq<nat>)
    requires A <= B
    ensures Step(press, A, toggles) <= Step(press, B, toggles)
  {
  }

  lemma StepUnion(press: (nat, nat) -> nat, A: set<nat>, B: set<nat>, toggles: seq<nat>)
    ensures Step(press, A + B, toggles) == Step(press, A, toggles) + Step(press, B, toggles)
  {
  }

  /** Adding one state to S adds the states one press away from it. */
  lemma StepAddOne(press: (nat, nat) -> nat, S: set<nat>, s: nat, toggles: seq<nat>)
    ensures Step(press, S + {s}, toggles) == Step(press, S, toggles) + Part(press, s, toggles, |toggles|)
  {
    StepUnion(press, S, {s}, toggles);
  }

  /** A state one press beyond S comes from a state of S by some button. */
  lemma StepFrom(press: (nat, nat) -> nat, S: set<nat>, toggles: seq<nat>, s: nat) returns (t: nat, k: nat)
    requires s in Step(press, S, toggles)
    ensures t in S && k < |toggles| && s == press(t, toggles[k])
  {
    t, k :| t in S && 0 <= k < |toggles| && s == press(t, toggles[k]);
  }

  lemma StepTo(press: (nat, nat) -> nat, S: set<nat>, toggles: seq<nat>, t: nat, k: nat)
    requires t in S && k < |toggles|
    ensures press(t, toggles[k]) in Step(press, S, toggles)
  {
  }

  /** Pressing one more button after e presses gives a state of Reach(e + 1). */
  lemma ReachNext(press: (nat, nat) -> nat, toggles: seq<nat>, e: nat, t: nat, k: nat)
    requires t in Reach(press, toggles, e) && k < |toggles|
    ensures press(t, toggles[k]) in Reach(press, toggles, e + 1)
  {
    StepTo(press, Reach(press, toggles, e), toggles, t, k);
  }

  lemma {:induction false} UptoGrows(press: (nat, nat) -> nat, toggles: seq<nat>, j: nat, k: nat)
    requires j <= k
    ensures Upto(press, toggles, j) <= Upto(press, toggles, k)
  {
    if j < k {
      UptoGrows(press, toggles, j, k - 1);
    }
  }

  lemma {:induction false} ReachWithin(press: (nat, nat) -> nat, toggles: seq<nat>, d: nat)
    ensures Reach(press, toggles, d) <= Upto(press, toggles, d)
  {
    if d > 0 {
      ReachWithin(press, toggles, d - 1);
      StepMono(press, Reach(press, toggles, d - 1), Upto(press, toggles, d - 1), toggles);
    }
  }

  /** A state met within d levels is reached with some exact number of presses up to d. */
  lemma {:induction false} UptoReached(press: (nat, nat) -> nat, toggles: seq<nat>, d: nat, s: nat) returns (e: nat)
    requires s in Upto(press, toggles, d)
    ensures e <= d && s in Reach(press, toggles, e)
    decreases d, 1
  {
    if d == 0 {
      e := 0;
    } else if s in Upto(press, toggles, d - 1) {
      e := UptoReached(press, toggles, d - 1, s);
    } else {
      e := NewlyReached(press, toggles, d, s);
    }
  }

  /** A state first met at level d is one press beyond a state met earlier. */
  lemma {:induction false} NewlyReached(press: (nat, nat) -> nat, toggles: seq<nat>, d: nat, s: nat) returns (e: nat)
    requires d >= 1 && s in Upto(press, toggles, d) && s !in Upto(press, toggles, d - 1)
    ensures e <= d && s in Reach(press, toggles, e)
    decreases d, 0
  {
    var t, k := StepFrom(press, Upto(press, toggles, d - 1), toggles, s);
    var e' := UptoReached(press, toggles, d - 1, t);
    ReachNext(press, toggles, e', t, k);
    e := e' + 1;
  }

  /** With e >= 1 presses the states reached lie one press beyond the first e - 1 levels. */
  lemma ReachBeyond(press: (nat, nat) -> nat, toggles: seq<nat>, e: nat, m: nat)
    requires 1 <= e <= m + 1
    ensures Reach(press, toggles, e) <= Step(press, Upto(press, toggles, m), toggles)
  {
    ReachWithin(press, toggles, e - 1);
    UptoGrows(press, toggles, e - 1, m);
    StepMono(press, Reach(press, toggles, e - 1), Upto(press, toggles, m), toggles);
  }

  /** Meeting the target one press beyond level d - 1 and not beyond level d - 2 means d presses are the fewest. */
  lemma FirstMet(press: (nat, nat) -> nat, target: nat, toggles: seq<nat>, d: nat, s: nat, k: nat)
    requires d >= 1 && s in Upto(press, toggles, d - 1) && k < |toggles| && target == press(s, toggles[k])
    requires d >= 2 ==> target !in Step(press, Upto(press, toggles, d - 2), toggles)
    ensures target in Reach(press, toggles, d)
    ensures forall e :: 1 <= e < d ==> target !in Reach(press, toggles, e)
  {
    var e := UptoReached(press, toggles, d - 1, s);
    ReachNext(press, toggles, e, s, k);
    if e + 1 < d {
      ReachBeyond(press, toggles, e + 1, d - 2);
    }
    forall e' | 1 <= e' < d
      ensures target !in Reach(press, toggles, e')
    {
      ReachBeyond(press, toggles, e', d - 2);
    }
  }

  /** Once a level adds nothing new, the states reached with any number of presses stay within it. */
  lemma {:induction false} Closed(press: (nat, nat) -> nat, toggles: seq<nat>, m: nat, d: nat)
    requires Step(press, Upto(press, toggles, m), toggles) <= Upto(press, toggles, m)
    ensures Reach(press, toggles, d) <= Upto(press, toggles, m)
  {
    if d == 0 {
      UptoGrows(press, toggles, 0, m);
    } else {
      Closed(press, toggles, m, d - 1);
      StepMono(press, Reach(press, toggles, d - 1), Upto(press, toggles, m), toggles);
    }
  }

  /** Once a level adds nothing new, no number of presses reaches a target not yet met. */
  lemma Exhausted(press: (nat, nat) -> nat, target: nat, toggles: seq<nat>, m: nat)
    requires Step(press, Upto(press, toggles, m), toggles) <= Upto(press, toggles, m)
    requires target !in Step(press, Upto(press, toggles, m), toggles)
    ensures forall d :: d >= 1 ==> target !in Reach(press, toggles, d)
  {
    forall d | d >= 1
      ensures target !in Reach(press, toggles, d)
    {
      Closed(press, toggles, m, d - 1);
      StepMono(press, Reach(press, toggles, d - 1), Upto(press, toggles, m), toggles);
    }
  }

  /** Pressing button k adds one state to those reached through the first k buttons. */
  lemma PartNext(press: (nat, nat) -> nat, s: nat, toggles: seq<nat>, k: nat)
    requires k < |toggles|
    ensures Part(press, s, toggles, k + 1) == Part(press, s, toggles, k) + {press(s, toggles[k])}
  {
  }

  /** The states the search met before its current level: none at the first level, else those of level depth - 2. */
  ghost function Earlier(press: (nat, nat) -> nat, toggles: seq<nat>, depth: nat): set<nat>
  {
    if depth <= 1 then {} else Upto(press, toggles, depth - 2)
  }

  /** Level d holds level d - 1 and the states one press beyond it. */
  lemma UptoNext(press: (nat, nat) -> nat, toggles: seq<nat>, d: nat)
    requires d >= 1
    ensures Upto(press, toggles, d - 1) <= Upto(press, toggles, d)
    ensures Step(press, Upto(press, toggles, d - 1), toggles) <= Upto(press, toggles, d)
  {
  }

  lemma SearchStart(press: (nat, nat) -> nat, target: nat, toggles: seq<nat>)
    ensures Upto(press, toggles, 0) - Earlier(press, toggles, 1) == {0}
    ensures target !in Step(press, Earlier(press, toggles, 1), toggles)
  {
  }

  lemma EarlierNext(press: (nat, nat) -> nat, toggles: seq<nat>, depth: nat)
    requires depth >= 1
    ensures Earlier(press, toggles, depth + 1) == Upto(press, toggles, depth - 1)
  {
  }

  /** What the search met before the current level lies within the level before it, and so does one press beyond it. */
  lemma EarlierWithin(press: (nat, nat) -> nat, toggles: seq<nat>, depth: nat)
    requires depth >= 1
    ensures Earlier(press, toggles, depth) <= Upto(press, toggles, depth - 1)
    ensures Step(press, Earlier(press, toggles, depth), toggles) <= Upto(press, toggles, depth - 1)
  {
    if depth >= 2 {
      UptoNext(press, toggles, depth - 1);
    }
  }

  /**
   * A level expands the frontier only: the states one press beyond the ones
   * met earlier are met already, so expanding the frontier completes the
   * next level.
   */
  lemma LevelClosed(press: (nat, nat) -> nat, toggles: seq<nat>, target: nat, depth: nat, front: set<nat>, grown: set<nat>, added: set<nat>)
    requires depth >= 1 && front == Upto(press, toggles, depth - 1) - Earlier(press, toggles, depth)
    requires grown == Upto(press, toggles, depth - 1) + Step(press, front, toggles)
    requires added == Step(press, front, toggles) - Upto(press, toggles, depth - 1)
    requires target !in Step(press, Earlier(press, toggles, depth), toggles)
    requires target !in Step(press, front, toggles)
    ensures grown == Upto(press, toggles, depth)
    ensures added == Upto(press, toggles, depth) - Upto(press, toggles, depth - 1)
    ensures target !in Step(press, Upto(press, toggles, depth - 1), toggles)
  {
    var seen := Upto(press, toggles, depth - 1);
    var prev := Earlier(press, toggles, depth);
    EarlierWithin(press, toggles, depth);
    assert seen == prev + (seen - prev);
    StepUnion(press, prev, seen - prev, toggles);
  }

  /** When the frontier is empty, the levels have stopped growing and the target is out of reach. */
  lemma RunDry(press: (nat, nat) -> nat, target: nat, toggles: seq<nat>, depth: nat)
    requires depth >= 1 && Upto(press, toggles, depth - 1) - Earlier(press, toggles, depth) == {}
    requires target !in Step(press, Earlier(press, toggles, depth), toggles)
    ensures Fewest(press, target, toggles) == None
  {
    var seen := Upto(press, toggles, depth - 1);
    var prev := Earlier(press, toggles, depth);
    assert seen <= prev by {
      forall x | x in seen
        ensures x in prev
      {
        assert x !in seen - prev;
      }
    }
    UptoGrows(press, toggles, 0, depth - 1);
    assert 0 in seen;
    assert depth >= 2;
    UptoNext(press, toggles, depth - 1);
    Exhausted(press, target, toggles, depth - 2);
  }


  // ---------------------------------------------------------------------
  // The search

  /** Combining two states below `1 << numBits` stays below it. */
  ghost predicate Confined(press: (nat, nat) -> nat, numBits: nat)
  {
    forall a: nat, b: nat :: a < Pow2(numBits) && b < Pow2(numBits) ==> press(a, b) < Pow2(numBits)
  }

  /** Every toggle lies below `1 << numBits`. */
  ghost predicate Within(toggles: seq<nat>, numBits: nat)
  {
    forall k :: 0 <= k < |toggles| ==> toggles[k] < Pow2(numBits)
  }

  /** The states marked in a `visited` list. */
  ghost function Seen(visited: seq<bool>): set<nat>
  {
    set i | 0 <= i < |visited| && visited[i]
  }

  /** The states in a queue. */
  ghost function Elems(queue: seq<nat>): set<nat>
  {
    set x | x in queue
  }

  lemma ElemsConcat(a: seq<nat>, b: seq<nat>)
    ensures Elems(a + b) == Elems(a) + Elems(b)
  {
  }

  lemma SeenMark(visited: seq<bool>, j: nat)
    requires j < |visited| && !visited[j]
    ensures Seen(visited[j := true]) == Seen(visited) + {j}
    ensures multiset(visited[j := true])[false] == multiset(visited)[false] - 1
  {
  }

  lemma SeenStart(visited: seq<bool>)
    requires |visited| >= 1 && visited[0] && forall i :: 1 <= i < |visited| ==> !visited[i]
    ensures Seen(visited) == {0}
  {
  }

  /** The innermost loop of the search: press every button from one state, marking and queueing the states not seen before, or stop at the target. */
  method Expand(press: (nat, nat) -> nat, visited: array<bool>, state: nat, toggles: seq<nat>, target: nat, numBits: nat) returns (hit: bool, unmet: seq<nat>, ghost k: nat)
    modifies visited
    requires visited.Length == Pow2(numBits) && state < visited.Length
    requires Confined(press, numBits)
    requires Within(toggles, numBits)
    ensures hit ==> k < |toggles| && target == press(state, toggles[k])
    ensures !hit ==> target !in Part(press, state, toggles, |toggles|)
    ensures !hit ==> Seen(visited[..]) == old(Seen(visited[..])) + Part(press, state, toggles, |toggles|)
    ensures !hit ==> Elems(unmet) == Part(press, state, toggles, |toggles|) - old(Seen(visited[..]))
    ensures !hit ==> multiset(visited[..])[false] + |unmet| == old(multiset(visited[..])[false])
  {
    ghost var seen := Seen(visited[..]);
    ghost var unseen := multiset(visited[..])[false];
    unmet := [];
    k := 0;
    for j := 0 to |toggles|
      invariant Seen(visited[..]) == seen + Part(press, state, toggles, j)
      invariant Elems(unmet) == Part(press, state, toggles, j) - seen
      invariant multiset(visited[..])[false] + |unmet| == unseen
      invariant target !in Part(press, state, toggles, j)
    {
      var next := press(state, toggles[j]);
      PartNext(press, state, toggles, j);
      if next == target {
        return true, unmet, j;
      }
      if visited[next] {
        assert next in seen + Part(press, state, toggles, j);
        continue;
      }
      ghost var marked := visited[..];
      visited[next] := true;
      SeenMark(marked, next);
      assert visited[..] == marked[next := true];
      ElemsConcat(unmet, [next]);
      assert Elems([next]) == {next};
      unmet := unmet + [next];
    }
    hit := false;
  }

  /** Expanding the next state of the frontier extends what is seen and queued by the states one press beyond it. */
  lemma LevelStep(press: (nat, nat) -> nat, toggles: seq<nat>, target: nat, queue: seq<nat>, i: nat,
                  seen: set<nat>, met: set<nat>, met': set<nat>, added: seq<nat>, unmet: seq<nat>)
    requires i < |queue|
    requires met == seen + Step(press, Elems(queue[..i]), toggles)
    requires Elems(added) == Step(press, Elems(queue[..i]), toggles) - seen
    requires target !in Step(press, Elems(queue[..i]), toggles)
    requires met' == met + Part(press, queue[i], toggles, |toggles|)
    requires Elems(unmet) == Part(press, queue[i], toggles, |toggles|) - met
    requires target !in Part(press, queue[i], toggles, |toggles|)
    ensures met' == seen + Step(press, Elems(queue[..i + 1]), toggles)
    ensures Elems(added + unmet) == Step(press, Elems(queue[..i + 1]), toggles) - seen
    ensures target !in Step(press, Elems(queue[..i + 1]), toggles)
  {
    var before := Elems(queue[..i]);
    assert queue[..i + 1] == queue[..i] + [queue[i]];
    assert Elems(queue[..i + 1]) == before + {queue[i]};
    StepAddOne(press, before, queue[i], toggles);
    ElemsConcat(added, unmet);
  }

  /** One level of the search: expand every state of the frontier, in order, queueing the new ones behind them. */
  method Level(press: (nat, nat) -> nat, visited: array<bool>, queue: seq<nat>, toggles: seq<nat>, target: nat, numBits: nat, ghost depth: nat)
    returns (hit: bool, rest: seq<nat>)
    modifies visited
    requires visited.Length == Pow2(numBits)
    requires Within(toggles, numBits)
    requires Confined(press, numBits)
    requires depth >= 1 && Seen(visited[..]) == Upto(press, toggles, depth - 1)
    requires Elems(queue) == Upto(press, toggles, depth - 1) - Earlier(press, toggles, depth)
    requires target !in Step(press, Earlier(press, toggles, depth), toggles)
    ensures hit ==> Fewest(press, target, toggles) == Some(depth)
    ensures !hit ==> Seen(visited[..]) == Upto(press, toggles, depth)
    ensures !hit ==> Elems(rest) == Upto(press, toggles, depth) - Upto(press, toggles, depth - 1)
    ensures !hit ==> target !in Step(press, Upto(press, toggles, depth - 1), toggles)
    ensures !hit ==> multiset(visited[..])[false] + |rest| == old(multiset(visited[..])[false])
  {
    ghost var seen := Seen(visited[..]);
    ghost var unseen := multiset(visited[..])[false];
    ghost var added: seq<nat> := [];
    rest := queue;
    for i := 0 to |queue|
      invariant rest == queue[i..] + added
      invariant Seen(visited[..]) == seen + Step(press, Elems(queue[..i]), toggles)
      invariant Elems(added) == Step(press, Elems(queue[..i]), toggles) - seen
      invariant multiset(visited[..])[false] + |added| == unseen
      invariant target !in Step(press, Elems(queue[..i]), toggles)
    {
      var state := rest[0];
      rest := rest[1..];
      assert state == queue[i] && queue[i] in Elems(queue);
      assert state < visited.Length;
      ghost var met := Seen(visited[..]);
      var found, unmet, k := Expand(press, visited, state, toggles, target, numBits);
      if found {
        FirstMet(press, target, toggles, depth, state, k);
        FewestIs(press, target, toggles, depth);
        return true, rest;
      }
      LevelStep(press, toggles, target, queue, i, seen, met, Seen(visited[..]), added, unmet);
      rest := rest + unmet;
      added := added + unmet;
    }
    assert queue[..|queue|] == queue;
    LevelClosed(press, toggles, target, depth, Elems(queue), Seen(visited[..]), Elems(added));
    hit := false;
  }

  /**
   * The breadth-first search of `part_1`'s `solve`: from all lights off, one
   * level of the queue per press, over states below `1 << numBits`, stopping
   * at the first state equal to the target. None when the queue runs dry
   * (the program's ValueError).
   */
  method Search(press: (nat, nat) -> nat, target: nat, toggles: seq<nat>, numBits: nat) returns (r: Option<nat>)
    requires Confined(press, numBits)
    requires Within(toggles, numBits)
    ensures r == Fewest(press, target, toggles)
  {
    var visited := new bool[Pow2(numBits)](_ => false);
    visited[0] := true;
    var queue: seq<nat> := [0];
    var depth: nat := 1;
    SeenStart(visited[..]);
    SearchStart(press, target, toggles);
    assert Elems(queue) == {0};
    while queue != []
      invariant visited.Length == Pow2(numBits)
      invariant depth >= 1
      invariant Seen(visited[..]) == Upto(press, toggles, depth - 1)
      invariant Elems(queue) == Upto(press, toggles, depth - 1) - Earlier(press, toggles, depth)
      invariant target !in Step(press, Earlier(press, toggles, depth), toggles)
      decreases multiset(visited[..])[false], |queue|
    {
      var hit, rest := Level(press, visited, queue, toggles, target, numBits, depth);
      if hit {
        return Some(depth);
      }
      EarlierNext(press, toggles, depth);
      queue := rest;
      depth := depth + 1;
    }
    RunDry(press, target, toggles, depth);
    return None;
  }

  // ---------------------------------------------------------------------
  // Part 1 over the lines of the input

  /** Button k's mask among the toggles. */
  lemma {:induction false} TogglesAt(buttons: seq<seq<int>>, k: nat)
    requires Shiftable(buttons) && k < |buttons|
    ensures var b: seq<nat> := buttons[k]; Toggles(buttons)[k] == ToggleMask(b)
  {
    var n := |buttons| - 1;
    assert Shiftable(buttons[..n]);
    if k < n {
      TogglesAt(buttons[..n], k);
    }
  }

  /**
   * `part_1`'s `solve` on one line: the fewest presses of the machine's
   * buttons that light exactly its diagram; None where the program raises
   * (a malformed line, a negative index, no buttons for `max`, or a target
   * the search never meets).
   */
  ghost function Presses(line: string): Option<int>
  {
    var m := MachineOf(line);
    if m.None? || !Shiftable(m.value.buttons) || m.value.buttons == [] then None
    else Fewest(Xor, m.value.target, Toggles(m.value.buttons))
  }

  /** Appending a button with non-negative indices appends its mask. */
  lemma MasksStep(buttons: seq<seq<int>>, k: nat)
    requires k < |buttons| && Shiftable(buttons[..k])
    requires forall j :: 0 <= j < |buttons[k]| ==> buttons[k][j] >= 0
    ensures Shiftable(buttons[..k + 1])
    ensures var b: seq<nat> := buttons[k]; Toggles(buttons[..k + 1]) == Toggles(buttons[..k]) + [ToggleMask(b)]
  {
    assert buttons[..k + 1][..k] == buttons[..k];
  }

  /** The masks of all buttons: the outer loop of `part_1`'s mask computation. */
  method MasksOf(buttons: seq<seq<int>>) returns (r: Option<seq<nat>>)
    ensures r.None? <==> !Shiftable(buttons)
    ensures r.Some? ==> Shiftable(buttons) && r.value == Toggles(buttons)
  {
    var toggles: seq<nat> := [];
    for k := 0 to |buttons|
      invariant Shiftable(buttons[..k]) && toggles == Toggles(buttons[..k])
    {
      var t := ToggleOf(buttons[k]);
      if t.None? {
        var j :| 0 <= j < |buttons[k]| && buttons[k][j] < 0;
        return None;
      }
      MasksStep(buttons, k);
      toggles := toggles + [t.value];
    }
    assert buttons[..|buttons|] == buttons;
    return Some(toggles);
  }

  method Solve(line: string) returns (r: Option<nat>)
    ensures r == Presses(line)
  {
    var m := ParseLine(line);
    if m.None? {
      return None;
    }
    var buttons := m.value.buttons;
    var toggles := MasksOf(buttons);
    if toggles.None? || buttons == [] {
      return None;
    }
    var high := HighestIndex(buttons);
    assert buttons[0][0] <= high;
    var numBits: nat := high + 1;
    forall k | 0 <= k < |toggles.value|
      ensures toggles.value[k] < Pow2(numBits)
    {
      TogglesAt(buttons, k);
      var b: seq<nat> := buttons[k];
      ToggleBelow(b, numBits);
    }
    XorClosed(numBits);
    r := Search(Xor, m.value.target, toggles.value, numBits);
  }

  /** `sum(solve(line) for line in file)`. */
  ghost function Part1Spec(lines: seq<string>): Option<int>
  {
    Total(Presses, lines)
  }

  method Part1(lines: seq<string>) returns (r: Option<nat>)
    ensures r == Part1Spec(lines)
  {
    var sum: nat := 0;
    ghost var values: seq<nat> := [];
    for j := 0 to |lines|
      invariant Answered(Presses, lines, values, j) && sum == SeqSum(values)
    {
      var presses := Solve(lines[j]);
      if presses.None? {
        TotalFails(Presses, lines, j);
        return None;
      }
      AnsweredNext(Presses, lines, values, j, presses.value);
      values := values + [presses.value];
      sum := sum + presses.value;
    }
    TotalAll(Presses, lines, values);
    return Some(sum);
  }
}
