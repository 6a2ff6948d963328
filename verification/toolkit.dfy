/**
 * `clean_price`: a price field of a product record turned into a number. Text has its commas
 * removed and yields the first number written in it, `\d+(\.\d+)?` in regular-expression terms;
 * other values are converted with `float`, and empty or list values give `None`.
 *
 * The number is kept exact: the value of the decimal lexeme as a `real`, not its nearest float.
 */
module Toolkit {
  import opened Wrappers

  /** The value handed to `clean_price`, as far as the function can tell values apart. */
  datatype PriceArg =
    | PyNone
    | PyText(s: string)
    | PyList(size: nat)
    | PyNumber(x: real)
    /** Any other object: whether it is truthy, and what `float` makes of it (`None` when `float` raises). */
    | PyOther(truthy: bool, asFloat: Option<real>)

  /** Python truthiness of the argument. */
  predicate Truthy(p: PriceArg)
  {
    match p
    case PyNone => false
    case PyText(s) => |s| > 0
    case PyList(n) => n > 0
    case PyNumber(x) => x != 0.0
    case PyOther(t, _) => t
  }

  predicate IsDigit(c: char)
  {
    '0' <= c <= '9'
  }

  /** `s.replace(',', '')`. */
  function RemoveCommas(s: string): (r: string)
    ensures ',' !in r
    ensures |r| <= |s|
    ensures ',' !in s ==> r == s
  {
    if |s| == 0 then ""
    else if s[0] == ',' then RemoveCommas(s[1..])
    else [s[0]] + RemoveCommas(s[1..])
  }

  /** The length of the run of digits starting at `i`. */
  function DigitRun(s: string, i: nat): (n: nat)
    requires i <= |s|
    ensures i + n <= |s|
    ensures forall k :: i <= k < i + n ==> IsDigit(s[k])
    ensures i + n == |s| || !IsDigit(s[i + n])
    decreases |s| - i
  {
    if i == |s| || !IsDigit(s[i]) then 0 else 1 + DigitRun(s, i + 1)
  }

  /** The position of the first digit at or after `i`. */
  function FirstDigit(s: string, i: nat): (p: Option<nat>)
    requires i <= |s|
    ensures p.None? <==> forall k :: i <= k < |s| ==> !IsDigit(s[k])
    ensures p.Some? ==> i <= p.value < |s| && IsDigit(s[p.value]) && forall k :: i <= k < p.value ==> !IsDigit(s[k])
    decreases |s| - i
  {
    if i == |s| then None
    else if IsDigit(s[i]) then Some(i)
    else FirstDigit(s, i + 1)
  }

  /** A match of `\d+(\.\d+)?`: where it starts, the length of its integer digits and of its fraction digits (0 when the group is absent). */
  datatype Match = Match(start: nat, intLen: nat, fracLen: nat)
  {
    /** Where the match ends. */
    function End(): nat
    {
      if fracLen == 0 then start + intLen else start + intLen + 1 + fracLen
    }
  }

  /**
   * `m` is what `re.search(r'(\d+(\.\d+)?)', s)` finds: a match of the pattern, starting at the
   * leftmost position where one starts, with `\d+` taking every digit and the optional
   * fraction taken whenever a `.` followed by a digit comes next.
   */
  ghost predicate IsLeftmostGreedy(s: string, m: Match)
  {
    && m.End() <= |s|
    && 1 <= m.intLen
    && (forall k :: m.start <= k < m.start + m.intLen ==> IsDigit(s[k]))
    && (forall k :: 0 <= k < m.start ==> !IsDigit(s[k]))
    && (m.start + m.intLen == |s| || !IsDigit(s[m.start + m.intLen]))
    && (m.fracLen == 0 ==>
          !(m.start + m.intLen + 1 < |s| && s[m.start + m.intLen] == '.' && IsDigit(s[m.start + m.intLen + 1])))
    && (m.fracLen > 0 ==>
          && s[m.start + m.intLen] == '.'
          && (forall k :: m.start + m.intLen + 1 <= k < m.End() ==> IsDigit(s[k]))
          && (m.End() == |s| || !IsDigit(s[m.End()])))
  }

  /** `re.search(r'(\d+(\.\d+)?)', s)`. */
  function Search(s: string): (m: Option<Match>)
    ensures m.None? <==> forall k :: 0 <= k < |s| ==> !IsDigit(s[k])
    ensures m.Some? ==> IsLeftmostGreedy(s, m.value)
  {
    match FirstDigit(s, 0)
    case None => None
    case Some(start) =>
      var intLen := DigitRun(s, start);
      var dot := start + intLen;
      if dot + 1 < |s| && s[dot] == '.' && IsDigit(s[dot + 1]) then
        Some(Match(start, intLen, DigitRun(s, dot + 1)))
      else
        Some(Match(start, intLen, 0))
  }

  /** `match.group(1)`: the matched text. */
  function Lexeme(s: string, m: Match): (t: string)
    requires m.start <= m.End() <= |s|
    ensures |t| == m.End() - m.start
  {
    s[m.start..m.End()]
  }

  function DigitValue(c: char): (d: nat)
    requires IsDigit(c)
    ensures d <= 9
  {
    (c as int) - ('0' as int)
  }

  /** The value of a string of decimal digits. */
  function DigitsValue(ds: string): (v: nat)
    requires forall k :: 0 <= k < |ds| ==> IsDigit(ds[k])
  {
    if |ds| == 0 then 0 else 10 * DigitsValue(ds[..|ds| - 1]) + DigitValue(ds[|ds| - 1])
  }

  function Pow10(n: nat): (p: nat)
    ensures 1 <= p
  {
    if n == 0 then 1 else 10 * Pow10(n - 1)
  }

  /** `float(match.group(1))`, exactly: the integer digits plus the fraction digits over a power of ten. */
  function MatchValue(s: string, m: Match): (x: real)
    requires IsLeftmostGreedy(s, m)
    ensures 0.0 <= x
  {
    var whole := s[m.start..m.start + m.intLen];
    if m.fracLen == 0 then DigitsValue(whole) as real
    else Decimal(whole, s[m.start + m.intLen + 1..m.End()])
  }

  /** The exact value of the decimal lexeme `ds.fs`. */
  function Decimal(ds: string, fs: string): (x: real)
    requires forall k :: 0 <= k < |ds| ==> IsDigit(ds[k])
    requires forall k :: 0 <= k < |fs| ==> IsDigit(fs[k])
  {
    DigitsValue(ds) as real + (DigitsValue(fs) as real) / (Pow10(|fs|) as real)
  }

  /** `clean_price(price)`. */
  function CleanPrice(p: PriceArg): (r: Option<real>)
    ensures !Truthy(p) || p.PyList? ==> r.None?
    ensures p.PyText? && Truthy(p) ==>
      (r.None? <==> forall k :: 0 <= k < |RemoveCommas(p.s)| ==> !IsDigit(RemoveCommas(p.s)[k]))
    ensures p.PyText? && r.Some? ==> 0.0 <= r.value
    ensures p.PyNumber? && Truthy(p) ==> r == Some(p.x)
    ensures p.PyOther? && Truthy(p) ==> r == p.asFloat
  {
    if !Truthy(p) || p.PyList? then None
    else match p
      case PyText(s) =>
        var t := RemoveCommas(s);
        (match Search(t)
         case Some(m) => Some(MatchValue(t, m))
         case None => None)
      case PyNumber(x) => Some(x)
      case PyOther(_, f) => f
  }

  // ---------------------------------------------------------------------------
  // Lemmas

  /** A text has only one leftmost-greedy match, so `Search` finds the match the regular expression engine does. */
  lemma LeftmostGreedyUnique(s: string, m1: Match, m2: Match)
    requires IsLeftmostGreedy(s, m1) && IsLeftmostGreedy(s, m2)
    ensures m1 == m2
  {
    assert IsDigit(s[m1.start]) && IsDigit(s[m2.start]);
  }

  /** Text whose comma-free form holds a match cleans to the exact value of the matched lexeme. */
  lemma CleanText(s: string, t: string, m: Match)
    requires |s| > 0 && RemoveCommas(s) == t && Search(t) == Some(m)
    ensures IsLeftmostGreedy(t, m)
    ensures CleanPrice(PyText(s)) == Some(MatchValue(t, m))
  {
    var p := PyText(s);
    assert Truthy(p) && !p.PyList?;
  }

  /**
   * A comma-free text whose first digit run is not followed by `.` and a digit cleans to the
   * value of that run alone: a `.` before the run is skipped, and a `.` after it with no digit
   * next is not consumed.
   */
  lemma {:induction false} CleanLeadingRun(pre: string, ds: string, rest: string)
    requires |ds| > 0 && forall k :: 0 <= k < |ds| ==> IsDigit(ds[k])
    requires forall k :: 0 <= k < |pre| ==> !IsDigit(pre[k])
    requires ',' !in pre + ds + rest
    requires |rest| == 0 || !IsDigit(rest[0])
    requires !(|rest| > 1 && rest[0] == '.' && IsDigit(rest[1]))
    ensures CleanPrice(PyText(pre + ds + rest)) == Some(DigitsValue(ds) as real)
  {
    var s := pre + ds + rest;
    var m := Match(|pre|, |ds|, 0);
    assert s[|pre|..|pre| + |ds|] == ds;
    assert forall k :: |pre| <= k < |pre| + |ds| ==> s[k] == ds[k - |pre|];
    assert |pre| + |ds| < |s| ==> s[|pre| + |ds|] == rest[0];
    assert |pre| + |ds| + 1 < |s| ==> s[|pre| + |ds| + 1] == rest[1];
    assert IsLeftmostGreedy(s, m);
    assert RemoveCommas(s) == s;
    assert Search(s).Some? by {
      assert IsDigit(s[|pre|]);
    }
    LeftmostGreedyUnique(s, Search(s).value, m);
    CleanText(s, s, m);
  }

  /**
   * A comma-free text whose first digit run is followed by `.` and more digits cleans to the
   * run plus those fraction digits over the matching power of ten.
   */
  lemma {:induction false} CleanRunWithFraction(s: string, pre: string, ds: string, fs: string, rest: string)
    requires s == pre + ds + "." + fs + rest
    requires |ds| > 0 && forall k :: 0 <= k < |ds| ==> IsDigit(ds[k])
    requires |fs| > 0 && forall k :: 0 <= k < |fs| ==> IsDigit(fs[k])
    requires forall k :: 0 <= k < |pre| ==> !IsDigit(pre[k])
    requires ',' !in s
    requires |rest| == 0 || !IsDigit(rest[0])
    ensures CleanPrice(PyText(s)) == Some(Decimal(ds, fs))
  {
    FractionSearch(s, pre, ds, fs, rest);
    CleanFound(s, Match(|pre|, |ds|, |fs|), ds, fs);
  }

  /** A comma-free text in which `Search` finds a match with a fraction cleans to the value of the lexeme. */
  lemma CleanFound(s: string, m: Match, ds: string, fs: string)
    requires ',' !in s && Search(s) == Some(m) && m.fracLen > 0
    requires forall k :: 0 <= k < |ds| ==> IsDigit(ds[k])
    requires forall k :: 0 <= k < |fs| ==> IsDigit(fs[k])
    requires m.start + m.intLen <= m.End() <= |s|
    requires s[m.start..m.start + m.intLen] == ds
    requires s[m.start + m.intLen + 1..m.End()] == fs
    ensures CleanPrice(PyText(s)) == Some(Decimal(ds, fs))
  {
    assert RemoveCommas(s) == s;
    assert |s| > 0;
    CleanText(s, s, m);
    FractionValue(s, m, ds, fs);
  }

  /** `Search` finds the fraction case's match, reading the two digit strings. */
  lemma FractionSearch(s: string, pre: string, ds: string, fs: string, rest: string)
    requires s == pre + ds + "." + fs + rest
    requires |ds| > 0 && forall k :: 0 <= k < |ds| ==> IsDigit(ds[k])
    requires |fs| > 0 && forall k :: 0 <= k < |fs| ==> IsDigit(fs[k])
    requires forall k :: 0 <= k < |pre| ==> !IsDigit(pre[k])
    requires |rest| == 0 || !IsDigit(rest[0])
    ensures Search(s) == Some(Match(|pre|, |ds|, |fs|))
    ensures s[|pre|..|pre| + |ds|] == ds
    ensures s[|pre| + |ds| + 1..|pre| + |ds| + 1 + |fs|] == fs
  {
    var m := Match(|pre|, |ds|, |fs|);
    FractionMatch(s, pre, ds, fs, rest);
    assert IsDigit(s[|pre|]);
    LeftmostGreedyUnique(s, Search(s).value, m);
  }

  /** A match with a fraction is worth its integer digits plus its fraction digits over a power of ten. */
  lemma FractionValue(s: string, m: Match, ds: string, fs: string)
    requires IsLeftmostGreedy(s, m) && m.fracLen > 0
    requires s[m.start..m.start + m.intLen] == ds
    requires s[m.start + m.intLen + 1..m.End()] == fs
    ensures forall k :: 0 <= k < |ds| ==> IsDigit(ds[k])
    ensures forall k :: 0 <= k < |fs| ==> IsDigit(fs[k])
    ensures MatchValue(s, m) == Decimal(ds, fs)
  {
  }

  /** The match the fraction case finds, and the two digit strings it reads. */
  lemma FractionMatch(s: string, pre: string, ds: string, fs: string, rest: string)
    requires s == pre + ds + "." + fs + rest
    requires |ds| > 0 && forall k :: 0 <= k < |ds| ==> IsDigit(ds[k])
    requires |fs| > 0 && forall k :: 0 <= k < |fs| ==> IsDigit(fs[k])
    requires forall k :: 0 <= k < |pre| ==> !IsDigit(pre[k])
    requires |rest| == 0 || !IsDigit(rest[0])
    ensures IsLeftmostGreedy(s, Match(|pre|, |ds|, |fs|))
    ensures s[|pre|..|pre| + |ds|] == ds
    ensures s[|pre| + |ds| + 1..|pre| + |ds| + 1 + |fs|] == fs
  {
    var dot := |pre| + |ds|;
    var end := dot + 1 + |fs|;
    assert s[|pre|..dot] == ds;
    assert s[dot + 1..end] == fs;
    assert forall k :: |pre| <= k < dot ==> s[k] == ds[k - |pre|];
    assert s[dot] == '.';
    assert forall k :: dot + 1 <= k < end ==> s[k] == fs[k - dot - 1];
    assert end < |s| ==> s[end] == rest[0];
  }

  /** Worked example: `"$1,299.99"` is 1299.99. */
  lemma ExampleDollars(s: string)
    requires s == "$1" + "," + "299.99"
    ensures CleanPrice(PyText(s)) == Some(1299.99)
  {
    CommasDollars(s);
    SearchDollars();
    CleanText(s, "$1299.99", Match(1, 4, 2));
    ValueDollars();
  }

  lemma CommasDollars(s: string)
    requires s == "$1" + "," + "299.99"
    ensures RemoveCommas(s) == "$1299.99"
  {
    assert ',' !in "$1" && ',' !in "299.99";
    RemoveCommasKeeps("$1", "299.99");
    assert "$1" + "299.99" == "$1299.99";
  }

  lemma ValueDollars()
    requires IsLeftmostGreedy("$1299.99", Match(1, 4, 2))
    ensures MatchValue("$1299.99", Match(1, 4, 2)) == 1299.99
  {
    var t := "$1299.99";
    assert t[1..5] == "1299" && t[6..8] == "99";
    DigitsValues();
    assert Pow10(2) == 100;
  }

  lemma SearchDollars()
    ensures Search("$1299.99") == Some(Match(1, 4, 2))
  {
    var t := "$1299.99";
    assert FirstDigit(t, 0) == Some(1);
    assert DigitRun(t, 1) == 4;
    assert DigitRun(t, 6) == 2;
  }

  lemma DigitsValues()
    ensures DigitsValue("1299") == 1299 && DigitsValue("99") == 99
    ensures DigitsValue("12") == 12 && DigitsValue("5") == 5
  {
    assert "1299"[..3] == "129" && "129"[..2] == "12" && "12"[..1] == "1" && "1"[..0] == "";
    assert "99"[..1] == "9" && "9"[..0] == "" && "5"[..0] == "";
  }

  /** Worked example: a `.` with no digit after it is not consumed, so `"12."` is 12. */
  lemma ExampleTrailingDot(s: string)
    requires s == "12."
    ensures CleanPrice(PyText(s)) == Some(12.0)
  {
    assert ',' !in s;
    SearchTrailingDot(s);
    CleanText(s, s, Match(0, 2, 0));
    assert s[0..2] == "12";
    DigitsValues();
  }

  lemma SearchTrailingDot(s: string)
    requires s == "12."
    ensures Search(s) == Some(Match(0, 2, 0))
  {
    assert FirstDigit(s, 0) == Some(0);
    assert DigitRun(s, 2) == 0;
    assert DigitRun(s, 0) == 2;
  }

  /** Worked example: a leading `.` is skipped, so `".5"` is 5. */
  lemma ExampleLeadingDot(s: string)
    requires s == ".5"
    ensures CleanPrice(PyText(s)) == Some(5.0)
  {
    assert ',' !in s;
    SearchLeadingDot(s);
    CleanText(s, s, Match(1, 1, 0));
    assert s[1..2] == "5";
    DigitsValues();
  }

  lemma SearchLeadingDot(s: string)
    requires s == ".5"
    ensures Search(s) == Some(Match(1, 1, 0))
  {
    assert FirstDigit(s, 0) == Some(1);
    assert DigitRun(s, 1) == 1;
  }

  /** Worked examples: empty values and lists give `None`; a non-zero number is kept as it is. */
  lemma ExampleNone()
    ensures CleanPrice(PyText("")) == None
    ensures CleanPrice(PyNone) == None
    ensures CleanPrice(PyNumber(0.0)) == None
    ensures CleanPrice(PyList(2)) == None
    ensures CleanPrice(PyNumber(19.5)) == Some(19.5)
  {
  }

  /** Worked example: `"Free"` holds no digit, so it gives `None`. */
  lemma ExampleNoDigit()
    ensures CleanPrice(PyText("Free")) == None
  {
    var t := "Free";
    assert RemoveCommas(t) == t;
    assert !IsDigit(t[0]) && !IsDigit(t[1]) && !IsDigit(t[2]) && !IsDigit(t[3]);
    assert Search(t) == None;
  }

  /** Commas never change the result: the text with its commas removed cleans to the same value. */
  lemma CommasIgnored(s: string)
    ensures CleanPrice(PyText(s)) == CleanPrice(PyText(RemoveCommas(s))) || (|s| > 0 && RemoveCommas(s) == "")
  {
    RemoveCommasIdempotent(s);
  }

  lemma {:induction false} RemoveCommasIdempotent(s: string)
    ensures RemoveCommas(RemoveCommas(s)) == RemoveCommas(s)
  {
    if |s| > 0 {
      RemoveCommasIdempotent(s[1..]);
    }
  }

  /** Removing commas keeps every other character, in order. */
  lemma {:induction false} RemoveCommasKeeps(a: string, b: string)
    requires ',' !in a && ',' !in b
    ensures RemoveCommas(a + "," + b) == a + b
  {
    if |a| > 0 {
      assert (a + "," + b)[1..] == a[1..] + "," + b;
      RemoveCommasKeeps(a[1..], b);
      assert a == [a[0]] + a[1..];
    } else {
      assert a + "," + b == "," + b;
      assert ("," + b)[1..] == b;
    }
  }
}
