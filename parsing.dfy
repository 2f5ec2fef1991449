/**
 * Text helpers shared by the solvers: the few pieces of Python's string
 * handling the solvers rely on (`str.strip`, `str.split`, `int`), with
 * Python's whitespace and ASCII digits, plus the Option type that stands
 * for a raised exception.
 */
module Parsing {

  datatype Option<+T> = None | Some(value: T)

  /**
   * Python's `str.isspace`, which `strip`, `split()` and `int` use: the
   * control characters 9-13 and 28-31, the space, and the Unicode spaces
   * U+0085, U+00A0, U+1680, U+2000-U+200A, U+2028, U+2029, U+202F, U+205F
   * and U+3000.
   */
  predicate IsSpace(c: char)
  {
    c == ' ' || 9 <= c as int <= 13 || 28 <= c as int <= 31
    || c as int == 0x85 || c as int == 0xA0 || c as int == 0x1680
    || 0x2000 <= c as int <= 0x200A || c as int == 0x2028 || c as int == 0x2029
    || c as int == 0x202F || c as int == 0x205F || c as int == 0x3000
  }

  predicate IsDigit(c: char)
  {
    '0' <= c <= '9'
  }

  function DigitValue(c: char): (d: nat)
    requires IsDigit(c)
    ensures d < 10
  {
    c as int - '0' as int
  }

  function DigitChar(d: nat): (c: char)
    requires d < 10
    ensures IsDigit(c) && DigitValue(c) == d
  {
    ('0' as int + d) as char
  }

  predicate AllDigits(s: string)
  {
    forall k :: 0 <= k < |s| ==> IsDigit(s[k])
  }

  /** The decimal value of a digit string read left to right. */
  function DigitsValue(s: string): (v: nat)
    requires AllDigits(s)
  {
    if s == [] then 0 else DigitsValue(s[..|s| - 1]) * 10 + DigitValue(s[|s| - 1])
  }

  /** The shortest decimal spelling of `n` ("0" for zero). */
  function Decimal(n: nat): (s: string)
    ensures |s| >= 1 && AllDigits(s)
  {
    if n < 10 then [DigitChar(n)] else Decimal(n / 10) + [DigitChar(n % 10)]
  }

  /** 10 to the power `k`. */
  function Pow10(k: nat): (p: nat)
    ensures p >= 1
  {
    if k == 0 then 1 else 10 * Pow10(k - 1)
  }

  lemma {:induction false} DecimalValue(n: nat)
    ensures DigitsValue(Decimal(n)) == n
  {
    if n >= 10 {
      DecimalValue(n / 10);
      var s := Decimal(n);
      assert s[..|s| - 1] == Decimal(n / 10);
    }
  }

  function TrimLeft(s: string): (t: string)
    ensures |t| <= |s|
    ensures t == [] || !IsSpace(t[0])
  {
    if s != [] && IsSpace(s[0]) then TrimLeft(s[1..]) else s
  }

  function TrimRight(s: string): (t: string)
    ensures |t| <= |s|
    ensures t == [] || !IsSpace(t[|t| - 1])
  {
    if s != [] && IsSpace(s[|s| - 1]) then TrimRight(s[..|s| - 1]) else s
  }

  /** `TrimLeft` drops only leading whitespace. */
  lemma {:induction false} TrimLeftDrops(s: string)
    ensures TrimLeft(s) == s[|s| - |TrimLeft(s)|..]
    ensures forall k :: 0 <= k < |s| - |TrimLeft(s)| ==> IsSpace(s[k])
  {
    if s != [] && IsSpace(s[0]) {
      TrimLeftDrops(s[1..]);
      assert forall k :: 1 <= k < |s| ==> s[k] == s[1..][k - 1];
    }
  }

  /** `TrimRight` drops only trailing whitespace. */
  lemma {:induction false} TrimRightDrops(s: string)
    ensures TrimRight(s) == s[..|TrimRight(s)|]
    ensures forall k :: |TrimRight(s)| <= k < |s| ==> IsSpace(s[k])
  {
    if s != [] && IsSpace(s[|s| - 1]) {
      TrimRightDrops(s[..|s| - 1]);
      assert forall k :: 0 <= k < |s| - 1 ==> s[k] == s[..|s| - 1][k];
    }
  }

  /** Python's `s.strip()`. */
  function Strip(s: string): string
  {
    TrimRight(TrimLeft(s))
  }

  /** Python's `int(s)`: surrounding whitespace, an optional sign, ASCII digits. */
  function ParseInt(s: string): Option<int>
  {
    var t := Strip(s);
    if |t| >= 2 && (t[0] == '-' || t[0] == '+') && AllDigits(t[1..]) then
      var v: int := DigitsValue(t[1..]);
      Some(if t[0] == '-' then -v else v)
    else if |t| >= 1 && AllDigits(t) then
      Some(DigitsValue(t))
    else
      None
  }

  lemma ParseIntDecimal(n: nat)
    ensures ParseInt(Decimal(n)) == Some(n)
  {
    var s := Decimal(n);
    assert TrimLeft(s) == s;
    assert TrimRight(s) == s;
    DecimalValue(n);
  }

  /** Python's `s.split(sep)` for a non-empty separator. */
  function Split(s: string, sep: string): (parts: seq<string>)
    requires |sep| > 0
    ensures |parts| >= 1
    decreases |s|
  {
    if |s| < |sep| then [s]
    else if s[..|sep|] == sep then [""] + Split(s[|sep|..], sep)
    else
      var rest := Split(s[1..], sep);
      [[s[0]] + rest[0]] + rest[1..]
  }

  /** Dropping the first character of a digit string leaves a digit string. */
  lemma DigitsTail(u: string)
    requires AllDigits(u) && u != []
    ensures AllDigits(u[1..]) && IsDigit(u[0])
  {
    forall k | 0 <= k < |u[1..]| ensures IsDigit(u[1..][k])
    {
      assert u[1..][k] == u[k + 1];
    }
  }

  /** A digit string holds no separator that is not a digit, so splitting leaves it whole. */
  lemma {:induction false} SplitDigitsWhole(v: string, c: char)
    requires AllDigits(v) && !IsDigit(c)
    ensures Split(v, [c]) == [v]
  {
    if |v| >= 1 {
      DigitsTail(v);
      SplitDigitsWhole(v[1..], c);
      assert [v[0]] + v[1..] == v;
    }
  }

  /** Splitting a digit string, a separator that is not a digit, and more text gives the digits, then the split of the rest. */
  lemma {:induction false} SplitDigitsThen(u: string, c: char, rest: string)
    requires AllDigits(u) && !IsDigit(c)
    ensures Split(u + [c] + rest, [c]) == [u] + Split(rest, [c])
  {
    var s := u + [c] + rest;
    if u == [] {
      assert s == [c] + rest && s[..1] == [c] && s[1..] == rest;
    } else {
      DigitsTail(u);
      assert s[0] == u[0] && s[..1] != [c];
      assert s[1..] == u[1..] + [c] + rest;
      SplitDigitsThen(u[1..], c, rest);
      assert [u[0]] + u[1..] == u;
    }
  }

  /** A line that starts and ends with a digit is its own `strip`. */
  lemma StripDigitEnds(s: string)
    requires |s| >= 1 && IsDigit(s[0]) && IsDigit(s[|s| - 1])
    ensures Strip(s) == s
  {
    assert TrimLeft(s) == s;
  }

  /** Length of the leading run of non-whitespace characters. */
  function WordLength(s: string): (k: nat)
    ensures k <= |s|
  {
    if s == [] || IsSpace(s[0]) then 0 else 1 + WordLength(s[1..])
  }

  /** Python's `s.split()`: the maximal runs of non-whitespace characters. */
  function Words(s: string): seq<string>
    decreases |s|
  {
    if s == [] then []
    else if IsSpace(s[0]) then Words(s[1..])
    else
      var k := WordLength(s);
      [s[..k]] + Words(s[k..])
  }

  /** Leading whitespace does not change the words. */
  lemma {:induction false} WordsSkipSpaces(pad: string, rest: string)
    requires forall k :: 0 <= k < |pad| ==> IsSpace(pad[k])
    ensures Words(pad + rest) == Words(rest)
  {
    if pad != [] {
      assert (pad + rest)[1..] == pad[1..] + rest;
      WordsSkipSpaces(pad[1..], rest);
    } else {
      assert pad + rest == rest;
    }
  }

  /** A one-character word followed by whitespace is split off the front. */
  lemma WordsSingle(c: char, pad: string, rest: string)
    requires !IsSpace(c) && |pad| >= 1 && forall k :: 0 <= k < |pad| ==> IsSpace(pad[k])
    ensures Words([c] + pad + rest) == [[c]] + Words(rest)
  {
    var s := [c] + pad + rest;
    assert s[0] == c && s[1..] == pad + rest && s[..1] == [c];
    assert WordLength(s[1..]) == 0 by {
      assert s[1..][0] == pad[0];
    }
    assert WordLength(s) == 1;
    assert Words(s) == [s[..1]] + Words(s[1..]);
    WordsSkipSpaces(pad, rest);
  }

  /** A line that starts and ends with a character other than whitespace is its own `strip`. */
  lemma StripEnds(s: string)
    requires |s| >= 1 && !IsSpace(s[0]) && !IsSpace(s[|s| - 1])
    ensures Strip(s) == s
  {
    assert TrimLeft(s) == s;
  }

  /** `strip` and `split()` treat the no-break space U+00A0 and the next-line U+0085 as whitespace, as Python does. */
  lemma UnicodeSpaces()
    ensures Strip("\U{A0}7\U{85}") == "7"
    ensures Words("4\U{A0}2") == ["4", "2"]
  {
    assert TrimLeft("\U{A0}7\U{85}") == "7\U{85}";
    assert TrimRight("7\U{85}") == "7";
    WordsSingle('4', "\U{A0}", "2");
    assert ['4'] + "\U{A0}" + "2" == "4\U{A0}2";
    WordsWhole("2");
  }

  /** Splitting at the first separator when the text before it never starts one. */
  lemma {:induction false} SplitFirst(u: string, sep: string, rest: string)
    requires |sep| > 0 && forall k :: 0 <= k < |u| ==> u[k] != sep[0]
    ensures Split(u + sep + rest, sep) == [u] + Split(rest, sep)
  {
    var s := u + sep + rest;
    if u == [] {
      assert s == sep + rest && s[..|sep|] == sep && s[|sep|..] == rest;
    } else {
      assert s[0] == u[0] && s[..|sep|] != sep;
      assert s[1..] == u[1..] + sep + rest;
      SplitFirst(u[1..], sep, rest);
      assert [u[0]] + u[1..] == u;
    }
  }

  /** Text in which the separator's first character never occurs is not split. */
  lemma {:induction false} SplitNone(s: string, sep: string)
    requires |sep| > 0 && forall k :: 0 <= k < |s| ==> s[k] != sep[0]
    ensures Split(s, sep) == [s]
  {
    if |s| >= |sep| {
      assert s[..|sep|] != sep by { assert s[..|sep|][0] == s[0]; }
      SplitNone(s[1..], sep);
      assert [s[0]] + s[1..] == s;
    }
  }

  /** The leading word stops at the first whitespace character. */
  lemma {:induction false} WordLengthBefore(x: string, y: string)
    requires y != [] && IsSpace(y[0])
    ensures WordLength(x + y) == WordLength(x)
  {
    if x != [] {
      assert (x + y)[1..] == x[1..] + y;
      WordLengthBefore(x[1..], y);
    } else {
      assert x + y == y;
    }
  }

  /** A space between two texts separates their words. */
  lemma {:induction false} WordsAround(x: string, y: string)
    ensures Words(x + " " + y) == Words(x) + Words(y)
    decreases |x|
  {
    var s := x + " " + y;
    if x == [] {
      assert s == " " + y && s[1..] == y;
    } else if IsSpace(x[0]) {
      assert s[1..] == x[1..] + " " + y;
      WordsAround(x[1..], y);
    } else {
      assert s == x + (" " + y);
      WordLengthBefore(x, " " + y);
      var k := WordLength(x);
      assert k >= 1 by { assert x[0] == s[0]; }
      assert s[..k] == x[..k];
      assert s[k..] == x[k..] + " " + y;
      WordsAround(x[k..], y);
    }
  }

  /** A text without whitespace is one word (when it is not empty). */
  lemma {:induction false} WordsWhole(s: string)
    requires |s| >= 1 && forall k :: 0 <= k < |s| ==> !IsSpace(s[k])
    ensures Words(s) == [s]
  {
    WordLengthAll(s);
    assert !IsSpace(s[0]);
    assert s[..|s|] == s && s[|s|..] == [];
  }

  lemma {:induction false} WordLengthAll(s: string)
    requires forall k :: 0 <= k < |s| ==> !IsSpace(s[k])
    ensures WordLength(s) == |s|
  {
    if s != [] {
      WordLengthAll(s[1..]);
    }
  }

  /** Parses every string with `int`, failing if any one fails. */
  function ParseInts(ss: seq<string>): (r: Option<seq<int>>)
    ensures r.Some? ==> |r.value| == |ss|
  {
    if ss == [] then Some([])
    else
      var init := ParseInts(ss[..|ss| - 1]);
      var last := ParseInt(ss[|ss| - 1]);
      if init.Some? && last.Some? then Some(init.value + [last.value]) else None
  }

  /** Every element parsed, or None as soon as one does not parse. */
  function ParseAll<S, T>(xs: seq<S>, parse: S -> Option<T>): (r: Option<seq<T>>)
    ensures r.Some? ==> |r.value| == |xs|
  {
    if xs == [] then Some([])
    else
      var init := ParseAll(xs[..|xs| - 1], parse);
      var last := parse(xs[|xs| - 1]);
      if init.Some? && last.Some? then Some(init.value + [last.value]) else None
  }

  /** The whole parses exactly when every element does, each to its own value. */
  lemma {:induction false} ParseAllAt<S, T>(xs: seq<S>, parse: S -> Option<T>)
    ensures ParseAll(xs, parse).Some? <==> forall i :: 0 <= i < |xs| ==> parse(xs[i]).Some?
    ensures ParseAll(xs, parse).Some? ==>
      forall i :: 0 <= i < |xs| ==> ParseAll(xs, parse).value[i] == parse(xs[i]).value
  {
    if xs != [] {
      var init := xs[..|xs| - 1];
      ParseAllAt(init, parse);
      assert forall i :: 0 <= i < |init| ==> init[i] == xs[i];
    }
  }

  /** Elements that parse one by one to `ys` parse to exactly `ys` as a whole. */
  lemma ParseAllBack<S, T>(xs: seq<S>, parse: S -> Option<T>, ys: seq<T>)
    requires |xs| == |ys| && forall i :: 0 <= i < |xs| ==> parse(xs[i]) == Some(ys[i])
    ensures ParseAll(xs, parse) == Some(ys)
  {
    ParseAllAt(xs, parse);
    assert ParseAll(xs, parse).value == ys;
  }
}
