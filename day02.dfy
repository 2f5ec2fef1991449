/**
 * Day 2: a comma-separated list of ID ranges "a-b". An ID is invalid when its
 * decimal spelling is a block of digits written at least twice (part 2) or
 * exactly twice (part 1); the answer is the sum of the invalid IDs that lie
 * in some range.
 */
module Day02 {
  import opened Parsing
  import opened Sorting
  import opened Bisect
  import opened Sums

  type Range = (int, int)

  /** The parser's state: the ranges emitted so far, the two fields, and which field digits go to. */
  datatype Scan =
    | Scanning(done: seq<Range>, first: int, second: int, field: nat)
    | Crashed

  const Initial := Scanning([], 0, 0, 0)

  /**
   * One character: ',' emits the pair and resets, a digit is appended to the
   * current field, any other character moves on to the next field. A digit
   * after two separators indexes past the two fields (an IndexError).
   */
  function Step(st: Scan, c: char): Scan
  {
    match st
    case Crashed => Crashed
    case Scanning(done, a, b, i) =>
      if c == ',' then Scanning(done + [(a, b)], 0, 0, 0)
      else if IsDigit(c) then
        if i == 0 then Scanning(done, a * 10 + DigitValue(c), b, i)
        else if i == 1 then Scanning(done, a, b * 10 + DigitValue(c), i)
        else Crashed
      else Scanning(done, a, b, i + 1)
  }

  /** The state after reading all of `text` from `st`, front to back. */
  function Run(st: Scan, text: string): Scan
    decreases |text|
  {
    if text == [] then st else Run(Step(st, text[0]), text[1..])
  }

  /** The end of input emits the last pair. */
  function Finish(st: Scan): (r: Option<seq<Range>>)
    ensures r.Some? ==> |r.value| >= 1
  {
    match st
    case Crashed => None
    case Scanning(done, a, b, _) => Some(done + [(a, b)])
  }

  function ParseSpec(text: string): Option<seq<Range>>
  {
    Finish(Run(Initial, text))
  }

  method ParseInput(text: string) returns (ranges: Option<seq<Range>>)
    ensures ranges == ParseSpec(text)
  {
    var first, second := 0, 0;
    var i := 0;
    var done: seq<Range> := [];
    var k := 0;
    while k < |text|
      invariant k <= |text|
      invariant Run(Scanning(done, first, second, i), text[k..]) == Run(Initial, text)
    {
      var c := text[k];
      assert text[k..] == [c] + text[k + 1..];
      if c == ',' {
        done := done + [(first, second)];
        first, second, i := 0, 0, 0;
      } else if IsDigit(c) {
        if i == 0 {
          first := first * 10 + DigitValue(c);
        } else if i == 1 {
          second := second * 10 + DigitValue(c);
        } else {
          RunCrashed(text[k + 1..]);
          return None;
        }
      } else {
        i := i + 1;
      }
      k := k + 1;
    }
    ranges := Some(done + [(first, second)]);
  }

  lemma {:induction false} RunCrashed(text: string)
    ensures Run(Crashed, text) == Crashed
  {
    if text != [] {
      RunCrashed(text[1..]);
    }
  }

  lemma {:induction false} RunAppend(st: Scan, a: string, b: string)
    ensures Run(st, a + b) == Run(Run(st, a), b)
    decreases |a|
  {
    if a == [] {
      assert a + b == b;
    } else {
      assert (a + b)[0] == a[0];
      assert (a + b)[1..] == a[1..] + b;
      RunAppend(Step(st, a[0]), a[1..], b);
    }
  }

  /** Reading digits into the first field accumulates their decimal value. */
  lemma {:induction false} RunFirstDigits(done: seq<Range>, s: string)
    requires AllDigits(s)
    ensures Run(Scanning(done, 0, 0, 0), s) == Scanning(done, DigitsValue(s), 0, 0)
  {
    if s != [] {
      var p := s[..|s| - 1];
      RunFirstDigits(done, p);
      assert s == p + [s[|s| - 1]];
      RunAppend(Scanning(done, 0, 0, 0), p, [s[|s| - 1]]);
    }
  }

  lemma {:induction false} RunSecondDigits(done: seq<Range>, a: int, s: string)
    requires AllDigits(s)
    ensures Run(Scanning(done, a, 0, 1), s) == Scanning(done, a, DigitsValue(s), 1)
  {
    if s != [] {
      var p := s[..|s| - 1];
      RunSecondDigits(done, a, p);
      assert s == p + [s[|s| - 1]];
      RunAppend(Scanning(done, a, 0, 1), p, [s[|s| - 1]]);
    }
  }

  predicate NonNegative(ranges: seq<Range>)
  {
    forall k :: 0 <= k < |ranges| ==> ranges[k].0 >= 0 && ranges[k].1 >= 0
  }

  /** "a-b" for one range. */
  function FormatRange(r: Range): string
    requires r.0 >= 0 && r.1 >= 0
  {
    Decimal(r.0) + "-" + Decimal(r.1)
  }

  /** The puzzle's input text: the ranges joined by commas. */
  function Format(ranges: seq<Range>): string
    requires |ranges| >= 1 && NonNegative(ranges)
  {
    if |ranges| == 1 then FormatRange(ranges[0])
    else FormatRange(ranges[0]) + "," + Format(ranges[1..])
  }

  lemma RunRange(done: seq<Range>, r: Range)
    requires r.0 >= 0 && r.1 >= 0
    ensures Run(Scanning(done, 0, 0, 0), FormatRange(r)) == Scanning(done, r.0, r.1, 1)
  {
    RunAppend(Scanning(done, 0, 0, 0), Decimal(r.0), "-" + Decimal(r.1));
    RunFirstDigits(done, Decimal(r.0));
    DecimalValue(r.0);
    RunAppend(Scanning(done, r.0, 0, 0), "-", Decimal(r.1));
    RunSecondDigits(done, r.0, Decimal(r.1));
    DecimalValue(r.1);
    assert Decimal(r.0) + "-" + Decimal(r.1) == Decimal(r.0) + ("-" + Decimal(r.1));
  }

  lemma {:induction false} RunFormat(done: seq<Range>, ranges: seq<Range>)
    requires |ranges| >= 1 && NonNegative(ranges)
    ensures Run(Scanning(done, 0, 0, 0), Format(ranges))
         == Scanning(done + ranges[..|ranges| - 1], ranges[|ranges| - 1].0, ranges[|ranges| - 1].1, 1)
    decreases |ranges|
  {
    RunRange(done, ranges[0]);
    if |ranges| > 1 {
      var head := FormatRange(ranges[0]);
      RunAppend(Scanning(done, 0, 0, 0), head, "," + Format(ranges[1..]));
      RunAppend(Scanning(done, ranges[0].0, ranges[0].1, 1), ",", Format(ranges[1..]));
      RunFormat(done + [ranges[0]], ranges[1..]);
      assert head + "," + Format(ranges[1..]) == head + ("," + Format(ranges[1..]));
      assert done + [ranges[0]] + ranges[1..][..|ranges| - 2] == done + ranges[..|ranges| - 1];
    }
  }

  /** Parsing the text of a list of ranges gives the list back. */
  lemma ParseFormat(ranges: seq<Range>)
    requires |ranges| >= 1 && NonNegative(ranges)
    ensures ParseSpec(Format(ranges)) == Some(ranges)
  {
    RunFormat([], ranges);
    ParseScanned(Format(ranges), ranges);
  }

  /** Text that scans to the ranges but the last, with the last one pending, parses to all of them. */
  lemma ParseScanned(text: string, ranges: seq<Range>)
    requires |ranges| >= 1
    requires Run(Initial, text) == Scanning([] + ranges[..|ranges| - 1], ranges[|ranges| - 1].0, ranges[|ranges| - 1].1, 1)
    ensures ParseSpec(text) == Some(ranges)
  {
    var n := |ranges| - 1;
    assert [] + ranges[..n] == ranges[..n];
    assert ranges[..n] + [ranges[n]] == ranges;
  }

  // ---------------------------------------------------------------------
  // Repeated-block numbers

  /** 1 + 10^k + 10^2k + ... + 10^((r-1)k): multiplying a k-digit block by it writes the block r times. */
  function RepMask(k: nat, r: nat): (m: nat)
    requires r >= 1
    ensures m >= 1
  {
    if r == 1 then 1 else RepMask(k, r - 1) * Pow10(k) + 1
  }

  function Repeat(b: int, k: nat, r: nat): int
    requires r >= 1
  {
    b * RepMask(k, r)
  }

  /** A k-digit number without a leading zero. */
  predicate IsBlock(b: int, k: nat)
  {
    k >= 1 && Pow10(k - 1) <= b < Pow10(k)
  }

  /** Block length k, repeat count r (exactly 2 for part 1, at least 2 for part 2) and block b. */
  predicate Shape(k: nat, r: nat, b: int, once: bool)
  {
    IsBlock(b, k) && (if once then r == 2 else r >= 2)
  }

  ghost predicate Invalid(n: int, once: bool)
  {
    exists k: nat, r: nat, b: int :: Shape(k, r, b, once) && n == Repeat(b, k, r)
  }


  lemma MulMonoLeft(a: int, b: int, c: int)
    requires 0 <= a <= b && 0 <= c
    ensures a * c <= b * c
  {
  }

  lemma {:induction false} RepMaskGrows(k: nat, r: nat, r': nat)
    requires 1 <= r <= r'
    ensures RepMask(k, r) <= RepMask(k, r')
    decreases r'
  {
    if r < r' {
      RepMaskGrows(k, r, r' - 1);
      MulMonoLeft(1, Pow10(k), RepMask(k, r' - 1));
    }
  }

  lemma {:induction false} Pow10Grows(k: nat, k': nat)
    requires k <= k'
    ensures Pow10(k) <= Pow10(k')
    decreases k'
  {
    if k < k' {
      Pow10Grows(k, k' - 1);
    }
  }

  lemma {:induction false} RepMaskGrowsInLength(k: nat, k': nat, r: nat)
    requires k <= k' && r >= 1
    ensures RepMask(k, r) <= RepMask(k', r)
  {
    if r > 1 {
      RepMaskGrowsInLength(k, k', r - 1);
      Pow10Grows(k, k');
      MulMonoLeft(RepMask(k, r - 1), RepMask(k', r - 1), Pow10(k));
      MulMonoLeft(Pow10(k), Pow10(k'), RepMask(k', r - 1));
    }
  }

  /** The smallest number of a given shape is the first block times the mask. */
  lemma RepeatAtLeast(k: nat, r: nat, b: int, k0: nat, r0: nat, b0: int)
    requires IsBlock(b, k) && r >= 1 && r0 >= 1
    requires 1 <= k0 <= k && (k0 == k ==> r0 <= r) && (k0 < k ==> r0 == r == 2 || r0 <= r)
    requires 0 <= b0 <= b
    ensures b0 * RepMask(k0, r0) <= Repeat(b, k, r)
  {
    if r0 <= r {
      RepMaskGrows(k0, r0, r);
    }
    RepMaskGrowsInLength(k0, k, r);
    MulMonoLeft(b0, b, RepMask(k0, r0));
    MulMonoLeft(RepMask(k0, r0), RepMask(k, r), b);
  }

  /** (k', r', b') comes before (k, r, b) in the order the generator visits them. */
  predicate Before(k': nat, r': nat, b': int, k: nat, r: nat, b: int)
  {
    k' < k || (k' == k && (r' < r || (r' == r && b' < b)))
  }

  /** Every number up to `maxNum` of a shape visited before (k, r, b) has been generated. */
  ghost predicate Covered(used: set<int>, maxNum: int, once: bool, k: nat, r: nat, b: int)
  {
    forall k': nat, r': nat, b': int ::
      (Shape(k', r', b', once) && Before(k', r', b', k, r, b) && Repeat(b', k', r') <= maxNum)
      ==> Repeat(b', k', r') in used
  }

  /** A block loop that ran out of blocks, or broke off at a too-large number, covers its repeat count. */
  lemma BlocksDone(used: set<int>, maxNum: int, once: bool, k: nat, r: nat, b: int)
    requires k >= 1 && r >= 2 && Pow10(k - 1) <= b <= Pow10(k)
    requires Covered(used, maxNum, once, k, r, b)
    requires b == Pow10(k) || b * RepMask(k, r) > maxNum
    ensures Covered(used, maxNum, once, k, r + 1, 0)
  {
    forall k': nat, r': nat, b': int |
      Shape(k', r', b', once) && Before(k', r', b', k, r + 1, 0) && Repeat(b', k', r') <= maxNum
      ensures Repeat(b', k', r') in used
    {
      if k' == k && r' == r && b' >= b {
        MulMonoLeft(b, b', RepMask(k, r));
        assert false;
      }
    }
  }

  /** Once one repeat count is too large for the first block, so are all higher ones. */
  lemma RepeatsDone(used: set<int>, maxNum: int, once: bool, k: nat, r: nat)
    requires k >= 1 && r >= 2
    requires Covered(used, maxNum, once, k, r, 0)
    requires Pow10(k - 1) * RepMask(k, r) > maxNum || (once && r == 3)
    ensures Covered(used, maxNum, once, k + 1, 0, 0)
  {
    forall k': nat, r': nat, b': int |
      Shape(k', r', b', once) && Before(k', r', b', k + 1, 0, 0) && Repeat(b', k', r') <= maxNum
      ensures Repeat(b', k', r') in used
    {
      if k' == k && r' >= r {
        RepeatAtLeast(k', r', b', k, r, Pow10(k - 1));
        assert false;
      }
    }
  }

  /** Once two copies of the smallest k-digit block are too large, every longer shape is too. */
  lemma LengthsDone(used: set<int>, maxNum: int, once: bool, k: nat)
    requires k >= 1
    requires Covered(used, maxNum, once, k, 0, 0)
    requires Pow10(k - 1) * RepMask(k, 2) > maxNum
    ensures forall k': nat, r': nat, b': int ::
      Shape(k', r', b', once) && Repeat(b', k', r') <= maxNum ==> Repeat(b', k', r') in used
  {
    forall k': nat, r': nat, b': int | Shape(k', r', b', once) && Repeat(b', k', r') <= maxNum
      ensures Repeat(b', k', r') in used
    {
      if k' >= k {
        Pow10Grows(k - 1, k' - 1);
        RepeatAtLeast(k', r', b', k, 2, Pow10(k - 1));
        assert false;
      }
    }
  }

  /**
   * The generator of invalid numbers: for each block length k (start = 10^(k-1))
   * and each repeat count r (mask = RepMask(k, r)), every k-digit block times
   * the mask, stopping each loop as soon as the smallest candidate exceeds
   * `maxNum`, and skipping numbers already produced.
   */
  method GenerateInvalid(maxNum: int, once: bool) returns (nums: seq<int>)
    ensures Distinct(nums)
    ensures forall t :: 0 <= t < |nums| ==> 0 <= nums[t] <= maxNum && Invalid(nums[t], once)
    ensures forall k: nat, r: nat, b: int ::
      Shape(k, r, b, once) && Repeat(b, k, r) <= maxNum ==> Repeat(b, k, r) in nums
  {
    var used: set<int> := {};
    nums := [];
    var start := 1;
    var mask := start * 10 + 1;
    ghost var k: nat := 1;
    while mask * start <= maxNum
      invariant k >= 1 && start == Pow10(k - 1) && mask == RepMask(k, 2)
      invariant Generated(used, nums, maxNum, once)
      invariant Covered(used, maxNum, once, k, 0, 0)
      decreases maxNum - start
    {
      ghost var r: nat := 2;
      ghost var stopped := false;
      MulMonoLeft(1, mask, start);
      while mask * start <= maxNum
        invariant r >= 2 && mask == RepMask(k, r) && (once ==> r == 2)
        invariant Generated(used, nums, maxNum, once)
        invariant Covered(used, maxNum, once, k, r, 0)
        invariant !stopped
        decreases maxNum - mask * start
      {
        var b := start;
        while b < start * 10
          invariant start <= b <= start * 10
          invariant Generated(used, nums, maxNum, once)
          invariant Covered(used, maxNum, once, k, r, b)
        {
          var num := b * mask;
          if num > maxNum {
            break;
          }
          if num !in used {
            AddGenerated(used, nums, maxNum, once, k, r, b);
            used := used + {num};
            nums := nums + [num];
          }
          b := b + 1;
        }
        BlocksDone(used, maxNum, once, k, r, b);
        if once {
          RepeatsDone(used, maxNum, once, k, r + 1);
          stopped := true;
          break;
        }
        ghost var before := mask * start;
        mask := mask * start * 10 + 1;
        r := r + 1;
        MaskStep(before, mask, start, k, r);
      }
      if !stopped {
        RepeatsDone(used, maxNum, once, k, r);
      }
      start := start * 10;
      mask := start * 10 + 1;
      k := k + 1;
    }
    LengthsDone(used, maxNum, once, k);
    assert Generated(used, nums, maxNum, once);
  }

  /** What has been generated so far: distinct invalid numbers up to `maxNum`, also recorded in `used`. */
  ghost predicate Generated(used: set<int>, nums: seq<int>, maxNum: int, once: bool)
  {
    && (forall x :: x in used <==> x in nums)
    && Distinct(nums)
    && forall t :: 0 <= t < |nums| ==> 0 <= nums[t] <= maxNum && Invalid(nums[t], once)
  }

  lemma AddGenerated(used: set<int>, nums: seq<int>, maxNum: int, once: bool, k: nat, r: nat, b: int)
    requires Generated(used, nums, maxNum, once)
    requires Shape(k, r, b, once) && Repeat(b, k, r) <= maxNum && Repeat(b, k, r) !in used
    ensures Generated(used + {Repeat(b, k, r)}, nums + [Repeat(b, k, r)], maxNum, once)
  {
    var n := Repeat(b, k, r);
    assert Invalid(n, once);
    MulMonoLeft(0, b, RepMask(k, r));
  }

  /** The next mask is RepMask(k, r) and makes the loop's bound strictly larger. */
  lemma MaskStep(before: int, mask: int, start: int, k: nat, r: nat)
    requires k >= 1 && r >= 3 && start == Pow10(k - 1)
    requires before == RepMask(k, r - 1) * start
    requires mask == RepMask(k, r - 1) * start * 10 + 1
    ensures mask == RepMask(k, r) && mask * start > before
  {
    var m := RepMask(k, r - 1);
    assert m * start * 10 == m * (start * 10);
    MulMonoLeft(m + 1, mask, start);
  }

  // ---------------------------------------------------------------------
  // What a repeated-block number looks like in decimal

  /** The last k decimal digits of y, with leading zeros. */
  function Digits(y: nat, k: nat): (s: string)
    ensures |s| == k
  {
    if k == 0 then [] else Digits(y / 10, k - 1) + [DigitChar(y % 10)]
  }

  /** s written r times. */
  function Rep(s: string, r: nat): string
  {
    if r == 0 then [] else Rep(s, r - 1) + s
  }

  lemma DivMod10(q: int, d: int)
    requires 0 <= d < 10
    ensures (10 * q + d) / 10 == q && (10 * q + d) % 10 == d
  {
  }

  /** Splitting off the last decimal digit of x * 10^k + y. */
  lemma ShiftArith(x: nat, y: nat, k: nat)
    requires k >= 1 && x >= 1 && y < Pow10(k)
    ensures var n := x * Pow10(k) + y;
      n >= 10 && n / 10 == x * Pow10(k - 1) + y / 10 && n % 10 == y % 10 && y / 10 < Pow10(k - 1)
  {
    var p := Pow10(k - 1);
    var q := x * p + y / 10;
    assert x * Pow10(k) == 10 * (x * p);
    assert x * Pow10(k) + y == 10 * q + y % 10;
    DivMod10(q, y % 10);
    MulMonoLeft(1, x, p);
  }

  lemma {:induction false} DecimalShift(x: nat, y: nat, k: nat)
    requires x >= 1 && y < Pow10(k)
    ensures Decimal(x * Pow10(k) + y) == Decimal(x) + Digits(y, k)
  {
    if k > 0 {
      ShiftArith(x, y, k);
      DecimalShift(x, y / 10, k - 1);
    }
  }

  lemma {:induction false} BlockDigits(b: int, k: nat)
    requires IsBlock(b, k)
    ensures Decimal(b) == Digits(b, k)
  {
    if k > 1 {
      BlockDigits(b / 10, k - 1);
    }
  }

  lemma MaskArith(b: int, m: int, p: int)
    ensures b * (m * p + 1) == (b * m) * p + b
  {
    calc {
      b * (m * p + 1);
      b * (m * p) + b;
      (b * m) * p + b;
    }
  }

  /** A block b of k digits times RepMask(k, r) is spelled as b's digits written r times. */
  lemma {:induction false} RepeatDecimal(b: int, k: nat, r: nat)
    requires IsBlock(b, k) && r >= 1
    ensures Decimal(Repeat(b, k, r)) == Rep(Decimal(b), r)
  {
    if r == 1 {
      assert Repeat(b, k, r) == b;
      assert Rep(Decimal(b), 1) == [] + Decimal(b);
    } else {
      RepeatDecimal(b, k, r - 1);
      var m := RepMask(k, r - 1);
      var x := Repeat(b, k, r - 1);
      MulMonoLeft(1, b, m);
      MaskArith(b, m, Pow10(k));
      assert Repeat(b, k, r) == x * Pow10(k) + b;
      DecimalShift(x, b, k);
      BlockDigits(b, k);
      assert Rep(Decimal(b), r) == Rep(Decimal(b), r - 1) + Decimal(b);
    }
  }

  // ---------------------------------------------------------------------
  // Summing the invalid numbers that lie in some range

  /** `sorted` on the parsed pairs. */
  function MakeIntervals(ranges: seq<Range>): (intervals: seq<Range>)
    ensures Sorted(intervals, PairLe) && multiset(intervals) == multiset(ranges)
  {
    PairLeOrders();
    SortBySorted(ranges, PairLe);
    SortBy(ranges, PairLe)
  }

  predicate WellFormed(ranges: seq<Range>)
  {
    forall p :: p in ranges ==> p.0 <= p.1
  }

  /** Any two ranges are the same range or share no number. */
  predicate Separated(ranges: seq<Range>)
  {
    forall p, q :: p in ranges && q in ranges ==> p == q || p.1 < q.0 || q.1 < p.0
  }

  predicate InRanges(ranges: seq<Range>, n: int)
  {
    exists p :: p in ranges && p.0 <= n <= p.1
  }

  /** One more than the largest end (and at least 1). */
  function EndBound(ranges: seq<Range>): (m: int)
    ensures m >= 1 && forall p :: p in ranges ==> p.1 < m
  {
    if ranges == [] then 1
    else
      var rest := EndBound(ranges[1..]);
      assert forall p :: p in ranges ==> p == ranges[0] || p in ranges[1..];
      if ranges[0].1 >= rest then ranges[0].1 + 1 else rest
  }

  /** The invalid numbers that lie in some range. */
  ghost function InvalidIn(ranges: seq<Range>, once: bool): set<int>
  {
    set n | 0 <= n < EndBound(ranges) && Invalid(n, once) && InRanges(ranges, n)
  }

  ghost function InvalidTotal(ranges: seq<Range>, once: bool): int
  {
    SumBelow(InvalidIn(ranges, once), EndBound(ranges))
  }

  /** The numbers of `nums` that lie in some range. */
  ghost function Found(nums: seq<int>, ranges: seq<Range>): set<int>
  {
    set x | x in nums && InRanges(ranges, x)
  }

  /** Sorted, well-formed, separated ranges: each is the one before or lies wholly after it. */
  lemma SortedSeparated(intervals: seq<Range>, i: int, j: int)
    requires Sorted(intervals, PairLe) && WellFormed(intervals) && Separated(intervals)
    requires 0 <= i < j < |intervals|
    ensures intervals[i] == intervals[j] || intervals[i].1 < intervals[j].0
  {
    assert PairLe(intervals[i], intervals[j]);
    assert intervals[i] in intervals && intervals[j] in intervals;
  }

  /** The bisect index on the ends picks the only range that can hold `num`. */
  lemma BisectFinds(intervals: seq<Range>, ends: seq<int>, num: int, i: int)
    requires Sorted(intervals, PairLe) && WellFormed(intervals) && Separated(intervals)
    requires |ends| == |intervals| && forall k :: 0 <= k < |ends| ==> ends[k] == intervals[k].1
    requires 0 <= i < |intervals|
    requires forall k :: 0 <= k < i ==> ends[k] < num
    requires forall k :: i <= k < |ends| ==> num <= ends[k]
    ensures (intervals[i].0 <= num <= intervals[i].1) <==> InRanges(intervals, num)
  {
    if InRanges(intervals, num) {
      var p :| p in intervals && p.0 <= num <= p.1;
      var j :| 0 <= j < |intervals| && intervals[j] == p;
      if j > i {
        SortedSeparated(intervals, i, j);
      }
    }
  }

  lemma EndsSorted(intervals: seq<Range>, ends: seq<int>)
    requires Sorted(intervals, PairLe) && WellFormed(intervals) && Separated(intervals)
    requires |ends| == |intervals| && forall k :: 0 <= k < |ends| ==> ends[k] == intervals[k].1
    ensures SortedKeys(ends)
  {
    forall i, j | 0 <= i < j < |ends| ensures ends[i] <= ends[j]
    {
      SortedSeparated(intervals, i, j);
      assert intervals[j] in intervals;
    }
  }

  lemma LastEndIsMax(intervals: seq<Range>, p: Range)
    requires Sorted(intervals, PairLe) && WellFormed(intervals) && Separated(intervals)
    requires p in intervals
    ensures p.1 <= intervals[|intervals| - 1].1
  {
    var j :| 0 <= j < |intervals| && intervals[j] == p;
    if j < |intervals| - 1 {
      SortedSeparated(intervals, j, |intervals| - 1);
      assert intervals[|intervals| - 1] in intervals;
    }
  }

  /** `_generic_solve`: parse, sort, generate up to the last end, and add the numbers bisect finds in a range. */
  method GenericSolve(text: string, once: bool) returns (result: Option<int>)
    ensures result.Some? <==> ParseSpec(text).Some?
    ensures result.Some? && WellFormed(ParseSpec(text).value) && Separated(ParseSpec(text).value)
      ==> result.value == InvalidTotal(ParseSpec(text).value, once)
  {
    var parsed := ParseInput(text);
    if parsed.None? {
      return None;
    }
    var ranges := parsed.value;
    var intervals := MakeIntervals(ranges);
    assert |intervals| == |ranges|;
    var maxNum := intervals[|intervals| - 1].1;
    var nums := GenerateInvalid(maxNum, once);
    var ends := seq(|intervals|, k requires 0 <= k < |intervals| => intervals[k].1);
    ghost var good := WellFormed(ranges) && Separated(ranges);
    ghost var m := EndBound(ranges);
    SameMembers(ranges, intervals);
    assert intervals[|intervals| - 1] in ranges;
    var total := SumFound(nums, intervals, ends, m);
    if good {
      GeneratedInRanges(ranges, intervals, nums, once);
    }
    result := Some(total);
  }

  /** The loop of `_generic_solve`: add up the numbers that the range at their bisect index holds. */
  method SumFound(nums: seq<int>, intervals: seq<Range>, ends: seq<int>, ghost m: int) returns (total: int)
    requires |ends| == |intervals| >= 1 && forall k :: 0 <= k < |ends| ==> ends[k] == intervals[k].1
    requires forall t :: 0 <= t < |nums| ==> 0 <= nums[t] <= ends[|ends| - 1] < m
    ensures Distinct(nums) && Sorted(intervals, PairLe) && WellFormed(intervals) && Separated(intervals)
      ==> total == SumBelow(Found(nums, intervals), m)
  {
    ghost var good := Distinct(nums) && Sorted(intervals, PairLe) && WellFormed(intervals) && Separated(intervals);
    if good {
      EndsSorted(intervals, ends);
    }
    assert Found(nums[..0], intervals) == {};
    SumBelowEmpty(m);
    total := 0;
    for t := 0 to |nums|
      invariant good ==> total == SumBelow(Found(nums[..t], intervals), m)
    {
      var num := nums[t];
      var i := BisectLeft(ends, num);
      if i == |ends| {
        assert false;
      }
      if good {
        FoundStep(nums, t, intervals, ends, i, m);
      }
      if intervals[i].0 <= num <= intervals[i].1 {
        total := total + num;
      }
    }
    assert nums[..|nums|] == nums;
  }

  /** One more generated number adds itself to the sum exactly when the bisected range holds it. */
  lemma FoundStep(nums: seq<int>, t: int, intervals: seq<Range>, ends: seq<int>, i: int, m: int)
    requires 0 <= t < |nums| && Distinct(nums) && 0 <= nums[t] < m
    requires Sorted(intervals, PairLe) && WellFormed(intervals) && Separated(intervals)
    requires |ends| == |intervals| && forall k :: 0 <= k < |ends| ==> ends[k] == intervals[k].1
    requires 0 <= i < |intervals|
    requires forall k :: 0 <= k < i ==> ends[k] < nums[t]
    requires forall k :: i <= k < |ends| ==> nums[t] <= ends[k]
    ensures SumBelow(Found(nums[..t + 1], intervals), m)
         == SumBelow(Found(nums[..t], intervals), m) + (if intervals[i].0 <= nums[t] <= intervals[i].1 then nums[t] else 0)
  {
    var num := nums[t];
    var before := Found(nums[..t], intervals);
    assert nums[..t + 1] == nums[..t] + [num];
    assert num !in nums[..t];
    BisectFinds(intervals, ends, num, i);
    if InRanges(intervals, num) {
      assert Found(nums[..t + 1], intervals) == before + {num};
      SumBelowAdd(before, num, m);
    } else {
      assert Found(nums[..t + 1], intervals) == before;
    }
  }

  lemma SameMembers(ranges: seq<Range>, intervals: seq<Range>)
    requires multiset(intervals) == multiset(ranges)
    ensures forall p :: p in ranges <==> p in intervals
    ensures WellFormed(ranges) ==> WellFormed(intervals)
    ensures Separated(ranges) ==> Separated(intervals)
    ensures forall n :: InRanges(ranges, n) <==> InRanges(intervals, n)
  {
    forall p ensures p in ranges <==> p in intervals
    {
      assert p in ranges <==> p in multiset(ranges);
      assert p in intervals <==> p in multiset(intervals);
    }
  }

  /** The generated numbers that lie in a range are exactly the invalid numbers in the ranges. */
  lemma GeneratedInRanges(ranges: seq<Range>, intervals: seq<Range>, nums: seq<int>, once: bool)
    requires multiset(intervals) == multiset(ranges) && |intervals| >= 1
    requires Sorted(intervals, PairLe) && WellFormed(ranges) && Separated(ranges)
    requires forall t :: 0 <= t < |nums| ==> 0 <= nums[t] <= intervals[|intervals| - 1].1 && Invalid(nums[t], once)
    requires forall k: nat, r: nat, b: int ::
      Shape(k, r, b, once) && Repeat(b, k, r) <= intervals[|intervals| - 1].1 ==> Repeat(b, k, r) in nums
    ensures Found(nums, intervals) == InvalidIn(ranges, once)
  {
    SameMembers(ranges, intervals);
    var last := intervals[|intervals| - 1];
    assert last in intervals;
    forall x | x in InvalidIn(ranges, once) ensures x in nums
    {
      var p :| p in ranges && p.0 <= x <= p.1;
      LastEndIsMax(intervals, p);
      var k: nat, r: nat, b: int :| Shape(k, r, b, once) && x == Repeat(b, k, r);
    }
  }

  /** Part 1's numbers (a block written twice) are among part 2's. */
  lemma PartOneWithinPartTwo(ranges: seq<Range>)
    ensures InvalidIn(ranges, true) <= InvalidIn(ranges, false)
  {
    forall n | n in InvalidIn(ranges, true) ensures n in InvalidIn(ranges, false)
    {
      var k: nat, r: nat, b: int :| Shape(k, r, b, true) && n == Repeat(b, k, r);
      assert Shape(k, r, b, false);
    }
  }
}
