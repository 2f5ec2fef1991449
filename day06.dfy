/**
 * Day 6: a worksheet of column-aligned problems. The last line holds the
 * operators; each operator's column starts a group that runs up to the
 * blank separator column before the next operator (the last group runs to
 * the end of every row). Part 1 reads each row of a group as one number;
 * part 2 reads each column of a group, top to bottom, as one number. Each
 * group is folded with its operator and the results are added up.
 */
module Day06 {
  import opened Parsing

  /** What `_parse_input` hands back: the number groups and the operators. */
  datatype Sheet = Sheet(numbers: seq<seq<int>>, operators: seq<string>)

  function Min(a: int, b: int): int
  {
    if a <= b then a else b
  }

  // ---------------------------------------------------------------------
  // Cutting the rows into groups

  /** The first index from `i` on that holds no space, or |ops|: where the next group starts. */
  function NextStart(ops: string, i: nat): (n: nat)
    requires i <= |ops|
    ensures i <= n <= |ops|
    ensures forall k :: i <= k < n ==> ops[k] == ' '
    ensures n < |ops| ==> ops[n] != ' '
    decreases |ops| - i
  {
    if i < |ops| && ops[i] == ' ' then NextStart(ops, i + 1) else i
  }

  /** Python's `row[a:b]` for 0 <= a <= b: both ends clamped to the row. */
  function Slice(row: string, a: nat, b: nat): string
    requires a <= b
  {
    row[Min(a, |row|)..Min(b, |row|)]
  }

  /** Python's `row[a:]`. */
  function Tail(row: string, a: nat): string
  {
    row[Min(a, |row|)..]
  }

  /**
   * The group that starts at column `prev` when the next one starts at
   * `next`: each row's columns up to the separator before `next`, or to the
   * end of the row when no group follows.
   */
  function Cut(values: seq<string>, ops: string, prev: nat, next: nat): (g: seq<string>)
    requires prev < next <= |ops|
    ensures |g| == |values|
  {
    seq(|values|, r requires 0 <= r < |values| =>
      if next < |ops| then Slice(values[r], prev, next - 1) else Tail(values[r], prev))
  }

  /** The groups the scan collects from column `prev` on. */
  function GroupsFrom(values: seq<string>, ops: string, prev: nat): seq<seq<string>>
    requires prev <= |ops|
    decreases |ops| - prev
  {
    if prev == |ops| then []
    else
      var next := NextStart(ops, prev + 1);
      [Cut(values, ops, prev, next)] + GroupsFrom(values, ops, next)
  }

  /** The columns where the scan starts a group, from `prev` on. */
  function StartsFrom(ops: string, prev: nat): seq<nat>
    requires prev <= |ops|
    decreases |ops| - prev
  {
    if prev == |ops| then [] else [prev] + StartsFrom(ops, NextStart(ops, prev + 1))
  }

  /**
   * The scan starts a group at `prev` and at every later column that holds
   * an operator character, in increasing order.
   */
  lemma {:induction false} StartsShape(ops: string, prev: nat)
    requires prev <= |ops|
    ensures var s := StartsFrom(ops, prev);
      (prev < |ops| ==> s != [] && s[0] == prev) &&
      (forall j {:trigger s[j]} :: 0 < j < |s| ==> s[j - 1] < s[j]) &&
      (forall x {:trigger x in s} :: x in s <==> prev <= x < |ops| && (x == prev || ops[x] != ' '))
    decreases |ops| - prev
  {
    if prev < |ops| {
      var next := NextStart(ops, prev + 1);
      StartsShape(ops, next);
      var s := StartsFrom(ops, prev);
      var rest := StartsFrom(ops, next);
      assert s == [prev] + rest;
      forall j {:trigger s[j]} | 0 < j < |s| ensures s[j - 1] < s[j]
      {
        assert s[j] == rest[j - 1];
        if j > 1 {
          assert s[j - 1] == rest[j - 2];
        } else {
          assert rest[0] == next;
        }
      }
      forall x ensures x in s <==> prev <= x < |ops| && (x == prev || ops[x] != ' ')
      {
        if x in rest {
          assert next <= x;
        }
        if prev < x < |ops| && ops[x] != ' ' {
          assert next <= x;
          if x == next {
            assert x == rest[0];
          }
          assert x in rest;
        }
      }
    }
  }

  /** Every column strictly between `a` and `b` holds a space. */
  predicate Blank(ops: string, a: int, b: int)
  {
    forall k :: a < k < b && 0 <= k < |ops| ==> ops[k] == ' '
  }

  /**
   * Group j is cut at start j: up to the separator before start j + 1, whose
   * columns in between are all spaces, or to the end of each row for the last.
   */
  lemma {:induction false} GroupsAt(values: seq<string>, ops: string, prev: nat)
    requires prev <= |ops|
    ensures |GroupsFrom(values, ops, prev)| == |StartsFrom(ops, prev)|
    ensures var s := StartsFrom(ops, prev);
      forall j {:trigger s[j]} :: 0 <= j < |s| ==> s[j] < |ops|
    ensures var g := GroupsFrom(values, ops, prev);
      var s := StartsFrom(ops, prev);
      forall j :: 0 <= j < |s| - 1 ==>
        s[j] < s[j + 1] && g[j] == Cut(values, ops, s[j], s[j + 1]) && Blank(ops, s[j], s[j + 1])
    ensures var g := GroupsFrom(values, ops, prev);
      var s := StartsFrom(ops, prev);
      |s| > 0 ==> g[|s| - 1] == Cut(values, ops, s[|s| - 1], |ops|)
    decreases |ops| - prev
  {
    if prev < |ops| {
      var next := NextStart(ops, prev + 1);
      GroupsAt(values, ops, next);
      var g := GroupsFrom(values, ops, prev);
      var s := StartsFrom(ops, prev);
      var grest := GroupsFrom(values, ops, next);
      var srest := StartsFrom(ops, next);
      assert g == [Cut(values, ops, prev, next)] + grest;
      assert s == [prev] + srest;
      forall j | 0 <= j < |s| - 1
        ensures s[j] < s[j + 1] && g[j] == Cut(values, ops, s[j], s[j + 1]) && Blank(ops, s[j], s[j + 1])
      {
        if j == 0 {
          assert s[1] == srest[0] == next;
          assert g[0] == Cut(values, ops, prev, next);
        } else {
          assert g[j] == grest[j - 1] && s[j] == srest[j - 1] && s[j + 1] == srest[j];
          assert j - 1 < |srest| - 1;
        }
      }
      forall j {:trigger s[j]} | 0 < j < |s| ensures s[j] < |ops|
      {
        assert s[j] == srest[j - 1];
      }
      if |srest| == 0 {
        assert next == |ops|;
      } else {
        assert g[|s| - 1] == grest[|srest| - 1] && s[|s| - 1] == srest[|srest| - 1];
      }
    }
  }

  // ---------------------------------------------------------------------
  // Reading numbers

  /** The length of the longest row (0 for no rows). */
  function Width(g: seq<string>): (w: nat)
    ensures forall r :: 0 <= r < |g| ==> |g[r]| <= w
    ensures g != [] ==> exists r :: 0 <= r < |g| && |g[r]| == w
    ensures g == [] ==> w == 0
  {
    if g == [] then 0
    else
      var w := Width(g[..|g| - 1]);
      assert forall r :: 0 <= r < |g| - 1 ==> g[..|g| - 1][r] == g[r];
      if |g[|g| - 1]| >= w then |g[|g| - 1]| else w
  }

  /** Column `c` of a row, or the fill value " " past its end. */
  function CharAt(row: string, c: nat): char
  {
    if c < |row| then row[c] else ' '
  }

  /** `"".join` of each tuple of `zip_longest(*group, fillvalue=" ")`: the group's columns. */
  function Columns(g: seq<string>): (cols: seq<string>)
    ensures |cols| == Width(g)
  {
    seq(Width(g), c requires 0 <= c < Width(g) => seq(|g|, r requires 0 <= r < |g| => CharAt(g[r], c)))
  }

  /** Column c of a rectangular group holds, row by row, each row's character c. */
  lemma ColumnsAt(g: seq<string>, n: nat)
    requires |g| > 0 && forall r :: 0 <= r < |g| ==> |g[r]| == n
    ensures |Columns(g)| == n
    ensures forall c :: 0 <= c < n ==> |Columns(g)[c]| == |g| && forall r :: 0 <= r < |g| ==> Columns(g)[c][r] == g[r][c]
  {
    assert |g[0]| == n;
  }

  /** Transposing a rectangular group twice gives it back. */
  lemma ColumnsTwice(g: seq<string>, n: nat)
    requires |g| > 0 && n > 0 && forall r :: 0 <= r < |g| ==> |g[r]| == n
    ensures Columns(Columns(g)) == g
  {
    var cols := Columns(g);
    assert Width(g) == n;
    assert forall c :: 0 <= c < |cols| ==> |cols[c]| == |g|;
    assert Width(cols) == |g| by {
      assert |cols[0]| == |g|;
    }
    var back := Columns(cols);
    forall r | 0 <= r < |g| ensures back[r] == g[r]
    {
      assert |back[r]| == n;
      forall c | 0 <= c < n ensures back[r][c] == g[r][c]
      {
        assert back[r][c] == CharAt(cols[c], r);
      }
    }
  }

  /** The text with every space removed: `"".join(c for c in value if c != " ")`. */
  function RemoveSpaces(s: string): (t: string)
    ensures |t| <= |s| && ' ' !in t
  {
    if s == [] then [] else (if s[0] == ' ' then [] else [s[0]]) + RemoveSpaces(s[1..])
  }

  lemma {:induction false} RemoveSpacesAppend(a: string, b: string)
    ensures RemoveSpaces(a + b) == RemoveSpaces(a) + RemoveSpaces(b)
  {
    if a != [] {
      assert (a + b)[0] == a[0] && (a + b)[1..] == a[1..] + b;
      RemoveSpacesAppend(a[1..], b);
    } else {
      assert a + b == b;
    }
  }

  /** A text without spaces is left as it is. */
  lemma {:induction false} RemoveSpacesKeeps(s: string)
    requires ' ' !in s
    ensures RemoveSpaces(s) == s
  {
    if s != [] {
      assert s[0] != ' ';
      RemoveSpacesKeeps(s[1..]);
      assert [s[0]] + s[1..] == s;
    }
  }

  /** The text holds nothing but spaces. */
  predicate Spaces(s: string)
  {
    forall k :: 0 <= k < |s| ==> s[k] == ' '
  }

  /** A text of spaces only is removed entirely. */
  lemma {:induction false} RemoveSpacesBlank(s: string)
    requires Spaces(s)
    ensures RemoveSpaces(s) == []
  {
    if s != [] {
      RemoveSpacesBlank(s[1..]);
    }
  }

  /** `int` of the text with its spaces removed. */
  function ParseNumber(s: string): Option<int>
  {
    ParseInt(RemoveSpaces(s))
  }

  /** Spaces around and inside a number's digits do not change it. */
  lemma ParseNumberSpaced(u: string, n: nat, v: string)
    requires Spaces(u) && Spaces(v)
    ensures ParseNumber(u + Decimal(n) + v) == Some(n)
  {
    RemoveSpacesAppend(u + Decimal(n), v);
    RemoveSpacesAppend(u, Decimal(n));
    RemoveSpacesBlank(u);
    RemoveSpacesBlank(v);
    assert ' ' !in Decimal(n) by {
      forall k | 0 <= k < |Decimal(n)| ensures Decimal(n)[k] != ' '
      {
        assert IsDigit(Decimal(n)[k]);
      }
    }
    RemoveSpacesKeeps(Decimal(n));
    assert [] + Decimal(n) + [] == Decimal(n);
    ParseIntDecimal(n);
  }

  /** Every text of a group as a number, or None if one is not a number. */
  function ParseGroup(g: seq<string>): Option<seq<int>>
  {
    ParseAll(g, ParseNumber)
  }

  function ParseGroups(gs: seq<seq<string>>): Option<seq<seq<int>>>
  {
    ParseAll(gs, ParseGroup)
  }

  /** A group whose texts are space-padded decimals reads as those numbers. */
  lemma SpacedGroup(g: seq<string>, before: seq<string>, ns: seq<nat>, after: seq<string>)
    requires |g| == |before| == |ns| == |after|
    requires forall i :: 0 <= i < |g| ==>
      g[i] == before[i] + Decimal(ns[i]) + after[i] && Spaces(before[i]) && Spaces(after[i])
    ensures ParseGroup(g) == Some(ns)
  {
    forall i | 0 <= i < |g| ensures ParseNumber(g[i]) == Some(ns[i] as int)
    {
      ParseNumberSpaced(before[i], ns[i], after[i]);
    }
    var xs: seq<int> := ns;
    ParseAllBack(g, ParseNumber, xs);
  }

  /** Each group replaced by its columns. */
  function Transposed(gs: seq<seq<string>>): (ts: seq<seq<string>>)
    ensures |ts| == |gs|
  {
    seq(|gs|, j requires 0 <= j < |gs| => Columns(gs[j]))
  }

  /**
   * What `_parse_input` computes: the last line holds the operators, the
   * others the values; None when there is no line or a text is not a number.
   */
  function ParseSheet(lines: seq<string>, transpose: bool): Option<Sheet>
  {
    if lines == [] then None
    else
      var values := lines[..|lines| - 1];
      var ops := lines[|lines| - 1];
      var groups := GroupsFrom(values, ops, 0);
      var numbers := ParseGroups(if transpose then Transposed(groups) else groups);
      if numbers.None? then None else Some(Sheet(numbers.value, Words(ops)))
  }

  /** Every text of every group is a number. */
  predicate AllNumbers(texts: seq<seq<string>>)
  {
    forall j, r :: 0 <= j < |texts| && 0 <= r < |texts[j]| ==> ParseNumber(texts[j][r]).Some?
  }

  /** `numbers` holds, group by group and text by text, the numbers the texts read as. */
  predicate ReadsAs(texts: seq<seq<string>>, numbers: seq<seq<int>>)
  {
    |numbers| == |texts| &&
    forall j :: 0 <= j < |texts| ==>
      |numbers[j]| == |texts[j]| &&
      forall r :: 0 <= r < |texts[j]| ==> ParseNumber(texts[j][r]) == Some(numbers[j][r])
  }

  /** The groups read as numbers exactly when every text does, each to its own number. */
  lemma GroupsRead(texts: seq<seq<string>>)
    ensures ParseGroups(texts).Some? <==> AllNumbers(texts)
    ensures ParseGroups(texts).Some? ==> ReadsAs(texts, ParseGroups(texts).value)
  {
    ParseAllAt(texts, ParseGroup);
    forall j | 0 <= j < |texts| {
      ParseAllAt(texts[j], ParseNumber);
    }
  }

  /**
   * Without transpose every row slice of group j is one of its numbers; with
   * transpose every column of it is. The operators are the words of the last line.
   */
  lemma SheetGroups(lines: seq<string>, transpose: bool)
    requires lines != []
    ensures var groups := GroupsFrom(lines[..|lines| - 1], lines[|lines| - 1], 0);
      var texts := if transpose then Transposed(groups) else groups;
      var sheet := ParseSheet(lines, transpose);
      (sheet.Some? <==> AllNumbers(texts)) &&
      (sheet.Some? ==> sheet.value.operators == Words(lines[|lines| - 1]) && ReadsAs(texts, sheet.value.numbers))
  {
    var groups := GroupsFrom(lines[..|lines| - 1], lines[|lines| - 1], 0);
    GroupsRead(if transpose then Transposed(groups) else groups);
  }

  /** Texts that read as `numbers`, one by one, parse to exactly `numbers` as a whole. */
  lemma ReadsBack(texts: seq<seq<string>>, numbers: seq<seq<int>>)
    requires ReadsAs(texts, numbers)
    ensures ParseGroups(texts) == Some(numbers)
  {
    GroupsRead(texts);
    forall j, r | 0 <= j < |texts| && 0 <= r < |texts[j]| ensures ParseNumber(texts[j][r]).Some?
    {
      assert ParseNumber(texts[j][r]) == Some(numbers[j][r]);
    }
    assert AllNumbers(texts);
    var got := ParseGroups(texts).value;
    forall j | 0 <= j < |texts| ensures got[j] == numbers[j]
    {
      forall r | 0 <= r < |texts[j]| ensures got[j][r] == numbers[j][r]
      {
        assert ParseNumber(texts[j][r]) == Some(got[j][r]) == Some(numbers[j][r]);
      }
    }
    assert got == numbers;
  }

  /** `_parse_input`: scan the operator line for group starts, cut every row, then read numbers. */
  method ParseInput(lines: seq<string>, transpose: bool) returns (r: Option<Sheet>)
    ensures r == ParseSheet(lines, transpose)
  {
    if lines == [] {
      return None;
    }
    var values := lines[..|lines| - 1];
    var operators := lines[|lines| - 1];
    var prev := 0;
    var groups: seq<seq<string>> := [];
    while prev < |operators|
      invariant prev <= |operators|
      invariant groups + GroupsFrom(values, operators, prev) == GroupsFrom(values, operators, 0)
      decreases |operators| - prev
    {
      var i := prev + 1;
      while i < |operators| && operators[i] == ' '
        invariant prev < i <= |operators|
        invariant NextStart(operators, i) == NextStart(operators, prev + 1)
        decreases |operators| - i
      {
        i := i + 1;
      }
      var group := Cut(values, operators, prev, i);
      assert GroupsFrom(values, operators, prev) == [group] + GroupsFrom(values, operators, i);
      assert groups + [group] + GroupsFrom(values, operators, i) == groups + ([group] + GroupsFrom(values, operators, i));
      groups := groups + [group];
      prev := i;
    }
    assert groups == GroupsFrom(values, operators, 0);
    var numbers := ParseGroups(if transpose then Transposed(groups) else groups);
    if numbers.None? {
      return None;
    }
    r := Some(Sheet(numbers.value, Words(operators)));
  }

  // ---------------------------------------------------------------------
  // Folding the groups

  function Sum(xs: seq<int>): int
  {
    if xs == [] then 0 else Sum(xs[..|xs| - 1]) + xs[|xs| - 1]
  }

  function Product(xs: seq<int>): int
  {
    if xs == [] then 1 else Product(xs[..|xs| - 1]) * xs[|xs| - 1]
  }

  /** The sum of a concatenation is the sum of the sums. */
  lemma {:induction false} SumAppend(a: seq<int>, b: seq<int>)
    ensures Sum(a + b) == Sum(a) + Sum(b)
    decreases |b|
  {
    if b == [] {
      assert a + b == a;
    } else {
      SumAppend(a, b[..|b| - 1]);
      assert (a + b)[..|a + b| - 1] == a + b[..|b| - 1];
    }
  }

  /** The product of a concatenation is the product of the products. */
  lemma {:induction false} ProductAppend(a: seq<int>, b: seq<int>)
    ensures Product(a + b) == Product(a) * Product(b)
    decreases |b|
  {
    if b == [] {
      assert a + b == a;
    } else {
      ProductAppend(a, b[..|b| - 1]);
      assert (a + b)[..|a + b| - 1] == a + b[..|b| - 1];
    }
  }

  predicate IsOperator(op: string)
  {
    op == "+" || op == "*"
  }

  /** `apply`: the sum for "+", the product for "*", a KeyError (None) for anything else. */
  function ApplySpec(xs: seq<int>, op: string): (r: Option<int>)
    ensures r.Some? <==> IsOperator(op)
  {
    if op == "+" then Some(Sum(xs)) else if op == "*" then Some(Product(xs)) else None
  }

  /** `apply`: start at the operator's identity and fold every number in. */
  method Apply(xs: seq<int>, op: string) returns (r: Option<int>)
    ensures r == ApplySpec(xs, op)
    ensures op == "+" && xs == [] ==> r == Some(0)
    ensures op == "*" && xs == [] ==> r == Some(1)
  {
    if !IsOperator(op) {
      return None;
    }
    var add := op == "+";
    var result := if add then 0 else 1;
    for k := 0 to |xs|
      invariant result == if add then Sum(xs[..k]) else Product(xs[..k])
    {
      assert xs[..k + 1][..k] == xs[..k];
      result := if add then result + xs[k] else result * xs[k];
    }
    assert xs[..|xs|] == xs;
    r := Some(result);
  }

  /** `zip(numbers, operators)`: pairs up to the shorter of the two. */
  function Zip(ns: seq<seq<int>>, ops: seq<string>): (pairs: seq<(seq<int>, string)>)
    ensures |pairs| == Min(|ns|, |ops|)
  {
    seq(Min(|ns|, |ops|), k requires 0 <= k < Min(|ns|, |ops|) => (ns[k], ops[k]))
  }

  /** Operators past the last group are never paired. */
  lemma ZipIgnoresExtra(ns: seq<seq<int>>, ops: seq<string>, extra: seq<string>)
    requires |ops| >= |ns|
    ensures Zip(ns, ops + extra) == Zip(ns, ops)
  {
  }

  /** `sum(apply(*args) for args in ...)`, None as soon as an operator is unknown. */
  function Total(pairs: seq<(seq<int>, string)>): Option<int>
  {
    if pairs == [] then Some(0)
    else
      var init := Total(pairs[..|pairs| - 1]);
      var last := ApplySpec(pairs[|pairs| - 1].0, pairs[|pairs| - 1].1);
      if init.Some? && last.Some? then Some(init.value + last.value) else None
  }

  /** The total is defined exactly when every paired operator is "+" or "*". */
  lemma {:induction false} TotalDefined(pairs: seq<(seq<int>, string)>)
    ensures Total(pairs).Some? <==> forall k :: 0 <= k < |pairs| ==> IsOperator(pairs[k].1)
  {
    if pairs != [] {
      var init := pairs[..|pairs| - 1];
      TotalDefined(init);
      assert forall k :: 0 <= k < |init| ==> init[k] == pairs[k];
    }
  }

  /** The answer for one reading of the worksheet. */
  function Answer(lines: seq<string>, transpose: bool): Option<int>
  {
    var sheet := ParseSheet(lines, transpose);
    if sheet.None? then None else Total(Zip(sheet.value.numbers, sheet.value.operators))
  }

  /** `sum(apply(*args) for args in pairs)`: fold each pair's result into a running total. */
  method SumApplied(pairs: seq<(seq<int>, string)>) returns (r: Option<int>)
    ensures r == Total(pairs)
  {
    var total := 0;
    for k := 0 to |pairs|
      invariant Total(pairs[..k]) == Some(total)
    {
      assert pairs[..k + 1][..k] == pairs[..k];
      var a := Apply(pairs[k].0, pairs[k].1);
      if a.None? {
        TotalStops(pairs, k + 1);
        return None;
      }
      total := total + a.value;
    }
    assert pairs[..|pairs|] == pairs;
    return Some(total);
  }

  /** `_generic_solve`: parse, then add up `apply` over the groups paired with their operators. */
  method GenericSolve(lines: seq<string>, transpose: bool) returns (r: Option<int>)
    ensures r == Answer(lines, transpose)
  {
    var sheet := ParseInput(lines, transpose);
    if sheet.None? {
      return None;
    }
    r := SumApplied(Zip(sheet.value.numbers, sheet.value.operators));
  }

  /** A pair whose operator is unknown makes the whole total undefined. */
  lemma {:induction false} TotalStops(pairs: seq<(seq<int>, string)>, n: nat)
    requires n <= |pairs| && Total(pairs[..n]).None?
    ensures Total(pairs).None?
  {
    TotalDefined(pairs[..n]);
    TotalDefined(pairs);
    var k :| 0 <= k < n && !IsOperator(pairs[..n][k].1);
    assert pairs[..n][k] == pairs[k];
  }

  /** `part_1`: every row of a group is one number. */
  method Part1(lines: seq<string>) returns (r: Option<int>)
    ensures r == Answer(lines, false)
  {
    r := GenericSolve(lines, false);
  }

  /** `part_2`: every column of a group, read top to bottom, is one number. */
  method Part2(lines: seq<string>) returns (r: Option<int>)
    ensures r == Answer(lines, true)
  {
    r := GenericSolve(lines, true);
  }

  // ---------------------------------------------------------------------
  // The worked example

  const ExampleLines: seq<string> := [
    "123 328  51 64 ",
    " 45 64  387 23 ",
    "  6 98  215 314",
    "*   +   *   +  "]

  /** The operator line starts groups at columns 0, 4, 8 and 12. */
  lemma ExampleStarts(ops: string)
    requires ops == ExampleLines[3]
    ensures NextStart(ops, 1) == 4 && NextStart(ops, 5) == 8
    ensures NextStart(ops, 9) == 12 && NextStart(ops, 13) == 15
  {
  }

  lemma ExampleCut0(values: seq<string>, ops: string)
    requires values == ExampleLines[..3] && ops == ExampleLines[3]
    ensures Cut(values, ops, 0, 4) == ["123", " 45", "  6"]
  {
    var c := Cut(values, ops, 0, 4);
    assert c[0] == values[0][0..3] == "123";
    assert c[1] == values[1][0..3] == " 45";
    assert c[2] == values[2][0..3] == "  6";
  }

  lemma ExampleCut1(values: seq<string>, ops: string)
    requires values == ExampleLines[..3] && ops == ExampleLines[3]
    ensures Cut(values, ops, 4, 8) == ["328", "64 ", "98 "]
  {
    var c := Cut(values, ops, 4, 8);
    assert c[0] == values[0][4..7] == "328";
    assert c[1] == values[1][4..7] == "64 ";
    assert c[2] == values[2][4..7] == "98 ";
  }

  lemma ExampleCut2(values: seq<string>, ops: string)
    requires values == ExampleLines[..3] && ops == ExampleLines[3]
    ensures Cut(values, ops, 8, 12) == [" 51", "387", "215"]
  {
    var c := Cut(values, ops, 8, 12);
    assert c[0] == values[0][8..11] == " 51";
    assert c[1] == values[1][8..11] == "387";
    assert c[2] == values[2][8..11] == "215";
  }

  /** The last group runs to the end of each row. */
  lemma ExampleCut3(values: seq<string>, ops: string)
    requires values == ExampleLines[..3] && ops == ExampleLines[3]
    ensures Cut(values, ops, 12, 15) == ["64 ", "23 ", "314"]
  {
  }

  /** The four groups of the example, left to right. */
  lemma ExampleGroups(values: seq<string>, ops: string)
    requires values == ExampleLines[..3] && ops == ExampleLines[3]
    ensures GroupsFrom(values, ops, 0) ==
      [["123", " 45", "  6"], ["328", "64 ", "98 "], [" 51", "387", "215"], ["64 ", "23 ", "314"]]
  {
    ExampleStarts(ops);
    ExampleCut0(values, ops);
    ExampleCut1(values, ops);
    ExampleCut2(values, ops);
    ExampleCut3(values, ops);
    assert GroupsFrom(values, ops, 15) == [];
  }

  lemma ExampleRows0(g: seq<string>)
    requires g == ["123", " 45", "  6"]
    ensures ParseGroup(g) == Some([123, 45, 6])
  {
    assert g[0] == "" + Decimal(123) + "" && g[1] == " " + Decimal(45) + "" && g[2] == "  " + Decimal(6) + "";
    SpacedGroup(g, ["", " ", "  "], [123, 45, 6], ["", "", ""]);
  }

  lemma ExampleRows1(g: seq<string>)
    requires g == ["328", "64 ", "98 "]
    ensures ParseGroup(g) == Some([328, 64, 98])
  {
    assert g[0] == "" + Decimal(328) + "" && g[1] == "" + Decimal(64) + " " && g[2] == "" + Decimal(98) + " ";
    SpacedGroup(g, ["", "", ""], [328, 64, 98], ["", " ", " "]);
  }

  lemma ExampleRows2(g: seq<string>)
    requires g == [" 51", "387", "215"]
    ensures ParseGroup(g) == Some([51, 387, 215])
  {
    assert g[0] == " " + Decimal(51) + "" && g[1] == "" + Decimal(387) + "" && g[2] == "" + Decimal(215) + "";
    SpacedGroup(g, [" ", "", ""], [51, 387, 215], ["", "", ""]);
  }

  lemma ExampleRows3(g: seq<string>)
    requires g == ["64 ", "23 ", "314"]
    ensures ParseGroup(g) == Some([64, 23, 314])
  {
    assert g[0] == "" + Decimal(64) + " " && g[1] == "" + Decimal(23) + " " && g[2] == "" + Decimal(314) + "";
    SpacedGroup(g, ["", "", ""], [64, 23, 314], [" ", " ", ""]);
  }

  lemma ExampleColumns0(g: seq<string>)
    requires g == ["123", " 45", "  6"]
    ensures Columns(g) == ["1  ", "24 ", "356"]
  {
    ColumnsAt(g, 3);
    var cols := Columns(g);
    assert cols[0] == ["1  ", "24 ", "356"][0] && cols[1] == ["1  ", "24 ", "356"][1] && cols[2] == ["1  ", "24 ", "356"][2];
  }

  lemma ExampleColumns1(g: seq<string>)
    requires g == ["328", "64 ", "98 "]
    ensures Columns(g) == ["369", "248", "8  "]
  {
    ColumnsAt(g, 3);
    var cols := Columns(g);
    assert cols[0] == ["369", "248", "8  "][0] && cols[1] == ["369", "248", "8  "][1] && cols[2] == ["369", "248", "8  "][2];
  }

  lemma ExampleColumns2(g: seq<string>)
    requires g == [" 51", "387", "215"]
    ensures Columns(g) == [" 32", "581", "175"]
  {
    ColumnsAt(g, 3);
    var cols := Columns(g);
    assert cols[0] == [" 32", "581", "175"][0] && cols[1] == [" 32", "581", "175"][1] && cols[2] == [" 32", "581", "175"][2];
  }

  lemma ExampleColumns3(g: seq<string>)
    requires g == ["64 ", "23 ", "314"]
    ensures Columns(g) == ["623", "431", "  4"]
  {
    ColumnsAt(g, 3);
    var cols := Columns(g);
    assert cols[0] == ["623", "431", "  4"][0] && cols[1] == ["623", "431", "  4"][1] && cols[2] == ["623", "431", "  4"][2];
  }

  /** One operator and its padding in front of operators that split into `ws`. */
  lemma ExampleOperator(op: string, c: char, rest: string, ws: seq<string>)
    requires op == [c] + "   " && !IsSpace(c) && Words(rest) == ws
    ensures Words(op + rest) == [[c]] + ws
  {
    assert op + rest == [c] + "   " + rest;
    WordsSingle(c, "   ", rest);
  }

  lemma ExampleOperatorWords(a: string, b: string, c: string, d: string)
    requires a == "*   " && b == "+   " && c == "*   " && d == "+  "
    ensures Words(a + (b + (c + d))) == ["*", "+", "*", "+"]
  {
    assert d == ['+'] + "  " + "";
    WordsSingle('+', "  ", "");
    ExampleOperator(c, '*', d, ["+"]);
    ExampleOperator(b, '+', c + d, ["*", "+"]);
    ExampleOperator(a, '*', b + (c + d), ["+", "*", "+"]);
  }

  /** The operator line splits into its four operators. */
  lemma ExampleOperators(ops: string)
    requires ops == ExampleLines[3]
    ensures Words(ops) == ["*", "+", "*", "+"]
  {
    ExampleOperatorWords("*   ", "+   ", "*   ", "+  ");
    assert ops == "*   " + ("+   " + ("*   " + "+  "));
  }

  lemma ExampleColumnNumbers0(g: seq<string>)
    requires g == ["1  ", "24 ", "356"]
    ensures ParseGroup(g) == Some([1, 24, 356])
  {
    assert g[0] == "" + Decimal(1) + "  " && g[1] == "" + Decimal(24) + " " && g[2] == "" + Decimal(356) + "";
    SpacedGroup(g, ["", "", ""], [1, 24, 356], ["  ", " ", ""]);
  }

  lemma ExampleColumnNumbers1(g: seq<string>)
    requires g == ["369", "248", "8  "]
    ensures ParseGroup(g) == Some([369, 248, 8])
  {
    assert g[0] == "" + Decimal(369) + "" && g[1] == "" + Decimal(248) + "" && g[2] == "" + Decimal(8) + "  ";
    SpacedGroup(g, ["", "", ""], [369, 248, 8], ["", "", "  "]);
  }

  lemma ExampleColumnNumbers2(g: seq<string>)
    requires g == [" 32", "581", "175"]
    ensures ParseGroup(g) == Some([32, 581, 175])
  {
    assert g[0] == " " + Decimal(32) + "" && g[1] == "" + Decimal(581) + "" && g[2] == "" + Decimal(175) + "";
    SpacedGroup(g, [" ", "", ""], [32, 581, 175], ["", "", ""]);
  }

  lemma ExampleColumnNumbers3(g: seq<string>)
    requires g == ["623", "431", "  4"]
    ensures ParseGroup(g) == Some([623, 431, 4])
  {
    assert g[0] == "" + Decimal(623) + "" && g[1] == "" + Decimal(431) + "" && g[2] == "  " + Decimal(4) + "";
    SpacedGroup(g, ["", "", "  "], [623, 431, 4], ["", "", ""]);
  }

  const ExampleOperatorsList: seq<string> := ["*", "+", "*", "+"]
  const ExampleRowNumbers: seq<seq<int>> := [[123, 45, 6], [328, 64, 98], [51, 387, 215], [64, 23, 314]]
  const ExampleColumnNumbers: seq<seq<int>> := [[1, 24, 356], [369, 248, 8], [32, 581, 175], [623, 431, 4]]

  /** Four groups that each read as numbers read, in order, as those four. */
  lemma FourGroups(gs: seq<seq<string>>, ns: seq<seq<int>>)
    requires |gs| == 4 && |ns| == 4
    requires ParseGroup(gs[0]) == Some(ns[0]) && ParseGroup(gs[1]) == Some(ns[1])
    requires ParseGroup(gs[2]) == Some(ns[2]) && ParseGroup(gs[3]) == Some(ns[3])
    ensures ParseGroups(gs) == Some(ns)
  {
    ParseAllBack(gs, ParseGroup, ns);
  }

  /** The four results of `apply`, in order, add up to the total. */
  lemma TotalOfFour(pairs: seq<(seq<int>, string)>, a: int, b: int, c: int, d: int)
    requires |pairs| == 4
    requires ApplySpec(pairs[0].0, pairs[0].1) == Some(a) && ApplySpec(pairs[1].0, pairs[1].1) == Some(b)
    requires ApplySpec(pairs[2].0, pairs[2].1) == Some(c) && ApplySpec(pairs[3].0, pairs[3].1) == Some(d)
    ensures Total(pairs) == Some(a + b + c + d)
  {
    assert pairs[..3][..2] == pairs[..2] && pairs[..2][..1] == pairs[..1] && pairs[..1][..0] == [];
    assert Total(pairs[..1]) == Some(a);
    assert Total(pairs[..2]) == Some(a + b);
    assert Total(pairs[..3]) == Some(a + b + c);
    assert pairs[..4] == pairs;
  }

  lemma SumProductOfThree(a: int, b: int, c: int)
    ensures Sum([a, b, c]) == a + b + c && Product([a, b, c]) == a * b * c
  {
    assert [a, b, c][..2] == [a, b] && [a, b][..1] == [a] && [a][..0] == [];
    assert Sum([a]) == a && Product([a]) == a;
    assert Sum([a, b]) == a + b && Product([a, b]) == a * b;
  }

  lemma ExampleRowTotal(ns: seq<seq<int>>, ops: seq<string>)
    requires ns == ExampleRowNumbers && ops == ExampleOperatorsList
    ensures Total(Zip(ns, ops)) == Some(4277556)
  {
    SumProductOfThree(123, 45, 6);
    SumProductOfThree(328, 64, 98);
    SumProductOfThree(51, 387, 215);
    SumProductOfThree(64, 23, 314);
    TotalOfFour(Zip(ns, ops), 33210, 490, 4243455, 401);
  }

  lemma ExampleColumnTotal(ns: seq<seq<int>>, ops: seq<string>)
    requires ns == ExampleColumnNumbers && ops == ExampleOperatorsList
    ensures Total(Zip(ns, ops)) == Some(3263827)
  {
    SumProductOfThree(1, 24, 356);
    SumProductOfThree(369, 248, 8);
    SumProductOfThree(32, 581, 175);
    SumProductOfThree(623, 431, 4);
    TotalOfFour(Zip(ns, ops), 8544, 625, 3253600, 1058);
  }

  /** ParseSheet from the groups of the value lines and the numbers they read as. */
  lemma SheetOf(lines: seq<string>, transpose: bool, groups: seq<seq<string>>, numbers: seq<seq<int>>)
    requires lines != [] && GroupsFrom(lines[..|lines| - 1], lines[|lines| - 1], 0) == groups
    requires ParseGroups(if transpose then Transposed(groups) else groups) == Some(numbers)
    ensures ParseSheet(lines, transpose) == Some(Sheet(numbers, Words(lines[|lines| - 1])))
  {
  }

  /** Read by rows, the example's groups are its rows' numbers. */
  lemma ExampleRowSheet(groups: seq<seq<string>>)
    requires groups == GroupsFrom(ExampleLines[..3], ExampleLines[3], 0)
    ensures ParseSheet(ExampleLines, false) == Some(Sheet(ExampleRowNumbers, ExampleOperatorsList))
  {
    ExampleGroups(ExampleLines[..3], ExampleLines[3]);
    ExampleRows0(groups[0]);
    ExampleRows1(groups[1]);
    ExampleRows2(groups[2]);
    ExampleRows3(groups[3]);
    FourGroups(groups, ExampleRowNumbers);
    ExampleOperators(ExampleLines[3]);
    SheetOf(ExampleLines, false, groups, ExampleRowNumbers);
  }

  /** Read by columns, the example's groups are its columns' numbers. */
  lemma ExampleColumnSheet(groups: seq<seq<string>>)
    requires groups == GroupsFrom(ExampleLines[..3], ExampleLines[3], 0)
    ensures ParseSheet(ExampleLines, true) == Some(Sheet(ExampleColumnNumbers, ExampleOperatorsList))
  {
    ExampleGroups(ExampleLines[..3], ExampleLines[3]);
    var cols := Transposed(groups);
    ExampleColumns0(groups[0]);
    ExampleColumns1(groups[1]);
    ExampleColumns2(groups[2]);
    ExampleColumns3(groups[3]);
    ExampleColumnNumbers0(cols[0]);
    ExampleColumnNumbers1(cols[1]);
    ExampleColumnNumbers2(cols[2]);
    ExampleColumnNumbers3(cols[3]);
    FourGroups(cols, ExampleColumnNumbers);
    ExampleOperators(ExampleLines[3]);
    SheetOf(ExampleLines, true, groups, ExampleColumnNumbers);
  }

  /** The worked example: 4277556 read by rows, 3263827 read by columns. */
  lemma ExampleAnswers()
    ensures Answer(ExampleLines, false) == Some(4277556)
    ensures Answer(ExampleLines, true) == Some(3263827)
  {
    ExampleRowSheet(GroupsFrom(ExampleLines[..3], ExampleLines[3], 0));
    ExampleColumnSheet(GroupsFrom(ExampleLines[..3], ExampleLines[3], 0));
    ExampleRowTotal(ExampleRowNumbers, ExampleOperatorsList);
    ExampleColumnTotal(ExampleColumnNumbers, ExampleOperatorsList);
  }
}
