/**
 * Day 1: a dial numbered 0..99 that starts at 50 and is turned by a list of
 * rotations such as "L68" or "R48". Part 1 counts the rotations that leave
 * the dial at 0; part 2 counts every click that passes 0.
 */
module Day01 {
  import opened Parsing

  const Start: int := 50
  const Size: int := 100

  datatype Rotation = Rotation(left: bool, amount: int)

  /** `line[0] == "L"` selects a left turn, any other first character a right turn. */
  function ParseRotation(line: string): (r: Option<Rotation>)
    ensures r.Some? <==> |line| >= 1 && ParseInt(line[1..]).Some?
    ensures r.Some? ==> (r.value.left <==> line[0] == 'L') && r.value.amount == ParseInt(line[1..]).value
  {
    if |line| == 0 then None
    else match ParseInt(line[1..])
      case None => None
      case Some(n) => Some(Rotation(line[0] == 'L', n))
  }

  /** The text the puzzle uses for a rotation with a non-negative amount. */
  function Format(r: Rotation): string
    requires r.amount >= 0
  {
    [if r.left then 'L' else 'R'] + Decimal(r.amount)
  }

  lemma FormatParses(r: Rotation)
    requires r.amount >= 0
    ensures ParseRotation(Format(r)) == Some(r)
  {
    var s := Format(r);
    assert s[1..] == Decimal(r.amount);
    ParseIntDecimal(r.amount);
  }

  predicate AllParse(lines: seq<string>)
  {
    forall k :: 0 <= k < |lines| ==> ParseRotation(lines[k]).Some?
  }

  function Rotations(lines: seq<string>): (rs: seq<Rotation>)
    requires AllParse(lines)
    ensures |rs| == |lines|
    ensures forall k :: 0 <= k < |lines| ==> Some(rs[k]) == ParseRotation(lines[k])
  {
    seq(|lines|, k requires 0 <= k < |lines| => ParseRotation(lines[k]).value)
  }

  /** The input file that lists the given rotations, one per line. */
  function Lines(rs: seq<Rotation>): (lines: seq<string>)
    requires forall k :: 0 <= k < |rs| ==> rs[k].amount >= 0
    ensures |lines| == |rs|
  {
    seq(|rs|, k requires 0 <= k < |rs| => Format(rs[k]))
  }

  lemma LinesParse(rs: seq<Rotation>)
    requires forall k :: 0 <= k < |rs| ==> rs[k].amount >= 0
    ensures AllParse(Lines(rs)) && Rotations(Lines(rs)) == rs
  {
    forall k | 0 <= k < |rs|
      ensures ParseRotation(Lines(rs)[k]) == Some(rs[k])
    {
      FormatParses(rs[k]);
    }
  }

  /** Signed movement: a left turn subtracts the amount, a right turn adds it. */
  function Delta(r: Rotation): int
  {
    if r.left then -r.amount else r.amount
  }

  /** The position after one rotation, as part 1 computes it. */
  function Turn(current: int, r: Rotation): (next: int)
    ensures 0 <= next < Size
  {
    (current + Delta(r)) % Size
  }

  /** The position after a sequence of rotations, starting from 50. */
  function Dial(rs: seq<Rotation>): (p: int)
    ensures 0 <= p < Size
  {
    if rs == [] then Start else Turn(Dial(rs[..|rs| - 1]), rs[|rs| - 1])
  }

  /** Number of rotations after which the dial shows 0. */
  function Zeros(rs: seq<Rotation>): (n: nat)
    ensures n <= |rs|
  {
    if rs == [] then 0
    else Zeros(rs[..|rs| - 1]) + (if Dial(rs) == 0 then 1 else 0)
  }

  /** Part 2's increment for one rotation: full turns, then at most one more for the rest. */
  function Clicks(current: int, r: Rotation): (c: int)
    ensures r.amount / Size <= c <= r.amount / Size + 1
    ensures current == 0 ==> c == r.amount / Size
  {
    var rest := r.amount % Size;
    var move := if r.left then -rest else rest;
    r.amount / Size + (if current != 0 && (current + move <= 0 || current + move >= Size) then 1 else 0)
  }

  function Part2Total(rs: seq<Rotation>): int
  {
    if rs == [] then 0
    else Part2Total(rs[..|rs| - 1]) + Clicks(Dial(rs[..|rs| - 1]), rs[|rs| - 1])
  }

  function Part1Spec(lines: seq<string>): Option<int>
  {
    if AllParse(lines) then Some(Zeros(Rotations(lines))) else None
  }

  function Part2Spec(lines: seq<string>): Option<int>
  {
    if AllParse(lines) then Some(Part2Total(Rotations(lines))) else None
  }

  /** Reducing the amount modulo 100 before moving lands on the same position. */
  lemma ReducedTurn(current: int, r: Rotation)
    ensures var rest := r.amount % Size;
            (current + (if r.left then -rest else rest)) % Size == Turn(current, r)
  {
    var q, rest := r.amount / Size, r.amount % Size;
    assert r.amount == q * Size + rest;
    if r.left {
      assert current - r.amount == (current - rest) + (-q) * Size;
      ModShift(current - rest, -q);
    } else {
      assert current + r.amount == (current + rest) + q * Size;
      ModShift(current + rest, q);
    }
  }

  lemma ModShift(a: int, q: int)
    ensures (a + q * Size) % Size == a % Size
  {
  }

  /** Extending the parsed prefix by one line that parses appends its rotation. */
  lemma RotationsSnoc(lines: seq<string>, k: nat)
    requires k < |lines| && AllParse(lines[..k]) && ParseRotation(lines[k]).Some?
    ensures AllParse(lines[..k + 1])
    ensures Rotations(lines[..k + 1]) == Rotations(lines[..k]) + [ParseRotation(lines[k]).value]
  {
    assert lines[..k + 1] == lines[..k] + [lines[k]];
  }

  lemma DialSnoc(rs: seq<Rotation>, r: Rotation)
    ensures Dial(rs + [r]) == Turn(Dial(rs), r)
    ensures Zeros(rs + [r]) == Zeros(rs) + (if Turn(Dial(rs), r) == 0 then 1 else 0)
    ensures Part2Total(rs + [r]) == Part2Total(rs) + Clicks(Dial(rs), r)
  {
    assert (rs + [r])[..|rs|] == rs;
  }

  method Part1(lines: seq<string>) returns (result: Option<int>)
    ensures result == Part1Spec(lines)
  {
    var count := 0;
    var current := Start;
    ghost var rs: seq<Rotation> := [];
    for k := 0 to |lines|
      invariant AllParse(lines[..k]) && rs == Rotations(lines[..k])
      invariant current == Dial(rs) && count == Zeros(rs)
    {
      var line := lines[k];
      if |line| == 0 {
        assert ParseRotation(lines[k]).None?;
        return None;
      }
      var negative := line[0] == 'L';
      var parsed := ParseInt(line[1..]);
      if parsed.None? {
        assert ParseRotation(lines[k]).None?;
        return None;
      }
      ghost var r := Rotation(negative, parsed.value);
      var amount := parsed.value;
      if negative {
        amount := -amount;
      }
      assert amount == Delta(r);
      current := current + amount;
      current := current % Size;
      assert current == Turn(Dial(rs), r);
      if current == 0 {
        count := count + 1;
      }
      RotationsSnoc(lines, k);
      DialSnoc(rs, r);
      rs := rs + [r];
    }
    assert lines[..|lines|] == lines;
    result := Some(count);
  }

  method Part2(lines: seq<string>) returns (result: Option<int>)
    ensures result == Part2Spec(lines)
  {
    var count := 0;
    var current := Start;
    ghost var rs: seq<Rotation> := [];
    for k := 0 to |lines|
      invariant AllParse(lines[..k]) && rs == Rotations(lines[..k])
      invariant current == Dial(rs) && count == Part2Total(rs)
    {
      var line := lines[k];
      if |line| == 0 {
        assert ParseRotation(lines[k]).None?;
        return None;
      }
      var negative := line[0] == 'L';
      var parsed := ParseInt(line[1..]);
      if parsed.None? {
        assert ParseRotation(lines[k]).None?;
        return None;
      }
      var amount := parsed.value;
      ghost var r := Rotation(negative, amount);
      count := count + amount / Size;
      amount := amount % Size;
      if negative {
        amount := -amount;
      }
      if current != 0 && (current + amount <= 0 || current + amount >= Size) {
        count := count + 1;
      }
      assert count == Part2Total(rs) + Clicks(current, r);
      ReducedTurn(current, r);
      current := current + amount;
      current := current % Size;
      assert current == Turn(Dial(rs), r);
      RotationsSnoc(lines, k);
      DialSnoc(rs, r);
      rs := rs + [r];
    }
    assert lines[..|lines|] == lines;
    result := Some(count);
  }

  /** Number of clicks k in 1..n at which a turn from `current` points at 0. */
  function HitsUpTo(current: int, left: bool, n: int): nat
    decreases n
  {
    if n <= 0 then 0
    else HitsUpTo(current, left, n - 1)
         + (if (current + (if left then -n else n)) % Size == 0 then 1 else 0)
  }

  lemma {:induction false} HitsRight(c: int, n: nat)
    requires 0 <= c < Size
    ensures HitsUpTo(c, false, n) == (c + n) / Size
  {
    if n > 0 {
      HitsRight(c, n - 1);
      var m := c + n;
      assert m == Size * (m / Size) + m % Size;
      assert m - 1 == Size * ((m - 1) / Size) + (m - 1) % Size;
    }
  }

  lemma DivisibleNeg(x: int)
    ensures x % Size == 0 <==> (-x) % Size == 0
  {
    if x % Size == 0 {
      ModShift(0, -(x / Size));
      assert -x == 0 + (-(x / Size)) * Size;
    }
    if (-x) % Size == 0 {
      ModShift(0, -((-x) / Size));
      assert x == 0 + (-((-x) / Size)) * Size;
    }
  }

  lemma {:induction false} HitsMirror(c: int, n: nat)
    requires 0 <= c < Size
    ensures HitsUpTo(c, true, n) == HitsUpTo((Size - c) % Size, false, n)
  {
    if n > 0 {
      HitsMirror(c, n - 1);
      var c' := (Size - c) % Size;
      DivisibleNeg(c - n);
      if c == 0 {
        assert c' == 0;
        assert c' + n == -(c - n);
      } else {
        assert c' == Size - c;
        assert c' + n == -(c - n) + 1 * Size;
        ModShift(-(c - n), 1);
      }
    }
  }

  /** Part 2's arithmetic counts exactly the clicks of a rotation that point at 0. */
  lemma ClicksCountZeroHits(c: int, r: Rotation)
    requires 0 <= c < Size && r.amount >= 0
    ensures Clicks(c, r) == HitsUpTo(c, r.left, r.amount)
  {
    var q, m := r.amount / Size, r.amount % Size;
    assert r.amount == q * Size + m;
    if r.left {
      HitsMirror(c, r.amount);
      var c' := (Size - c) % Size;
      HitsRight(c', r.amount);
      assert c' + r.amount == (c' + m) + q * Size;
      assert (c' + r.amount) / Size == (c' + m) / Size + q;
    } else {
      HitsRight(c, r.amount);
      assert c + r.amount == (c + m) + q * Size;
      assert (c + r.amount) / Size == (c + m) / Size + q;
    }
  }

  /** Every click that points at 0 over the whole sequence of rotations. */
  function TotalHits(rs: seq<Rotation>): nat
  {
    if rs == [] then 0
    else TotalHits(rs[..|rs| - 1]) + HitsUpTo(Dial(rs[..|rs| - 1]), rs[|rs| - 1].left, rs[|rs| - 1].amount)
  }

  lemma {:induction false} Part2CountsEveryZeroClick(rs: seq<Rotation>)
    requires forall k :: 0 <= k < |rs| ==> rs[k].amount >= 0
    ensures Part2Total(rs) == TotalHits(rs)
  {
    if rs != [] {
      Part2CountsEveryZeroClick(rs[..|rs| - 1]);
      ClicksCountZeroHits(Dial(rs[..|rs| - 1]), rs[|rs| - 1]);
    }
  }

  /** The puzzle's example. */
  function Example(): seq<Rotation>
  {
    [Rotation(true, 68), Rotation(true, 30), Rotation(false, 48), Rotation(true, 5),
     Rotation(false, 60), Rotation(true, 55), Rotation(true, 1), Rotation(true, 99),
     Rotation(false, 14), Rotation(true, 82)]
  }

  /** One more rotation of a trace whose position and counts are known. */
  lemma TraceStep(rs: seq<Rotation>, r: Rotation, p: int, z: int, t: int)
    requires Dial(rs) == p && Zeros(rs) == z && Part2Total(rs) == t
    ensures Dial(rs + [r]) == Turn(p, r)
    ensures Zeros(rs + [r]) == z + (if Turn(p, r) == 0 then 1 else 0)
    ensures Part2Total(rs + [r]) == t + Clicks(p, r)
  {
    DialSnoc(rs, r);
  }

  lemma ExampleCounts()
    ensures Zeros(Example()) == 3
    ensures Part2Total(Example()) == 6
  {
    var e: seq<Rotation> := [];
    TraceStep(e, Rotation(true, 68), 50, 0, 0);
    e := e + [Rotation(true, 68)];
    TraceStep(e, Rotation(true, 30), 82, 0, 1);
    e := e + [Rotation(true, 30)];
    TraceStep(e, Rotation(false, 48), 52, 0, 1);
    e := e + [Rotation(false, 48)];
    TraceStep(e, Rotation(true, 5), 0, 1, 2);
    e := e + [Rotation(true, 5)];
    TraceStep(e, Rotation(false, 60), 95, 1, 2);
    e := e + [Rotation(false, 60)];
    TraceStep(e, Rotation(true, 55), 55, 1, 3);
    e := e + [Rotation(true, 55)];
    TraceStep(e, Rotation(true, 1), 0, 2, 4);
    e := e + [Rotation(true, 1)];
    TraceStep(e, Rotation(true, 99), 99, 2, 4);
    e := e + [Rotation(true, 99)];
    TraceStep(e, Rotation(false, 14), 0, 3, 5);
    e := e + [Rotation(false, 14)];
    TraceStep(e, Rotation(true, 82), 14, 3, 5);
    e := e + [Rotation(true, 82)];
    assert e == Example();
  }

  /** The puzzle's example input gives 3 for part 1 and 6 for part 2. */
  lemma ExampleAnswers()
    ensures Part1Spec(Lines(Example())) == Some(3)
    ensures Part2Spec(Lines(Example())) == Some(6)
  {
    LinesParse(Example());
    ExampleCounts();
  }
}
