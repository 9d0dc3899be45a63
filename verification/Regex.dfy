/** The part of PCRE that a directory query uses: anchored patterns of literals, escapes, one-character negated
    classes and quantifiers, counted repeats included. */
module Regex {
  import opened CTypes
  import opened Decimal

  datatype Re = Ch(c: char) | NotCh(c: char) | Rep(re: Re, lo: nat, hi: Option<nat>)

  // ---- what an expression matches ---------------------------------------------------------

  /** The whole of `s` is a match. Beyond the lower bound only rounds that take a character matter, so |s| more suffice. */
  predicate Denotes(r: Re, s: string)
    decreases r, 0
  {
    match r
    case Ch(c) => s == [c]
    case NotCh(c) => |s| == 1 && s[0] != c
    case Rep(r', lo, hi) => exists n :: lo <= n <= lo + |s| && (hi.Some? ==> n <= hi.value) && Power(r', n, s)
  }

  predicate Power(r: Re, n: nat, s: string)
    decreases r, n + 1
  {
    if n == 0 then s == "" else exists i :: 0 <= i <= |s| && Denotes(r, s[..i]) && Power(r, n - 1, s[i..])
  }

  predicate SeqDenotes(rs: seq<Re>, s: string) {
    if rs == [] then s == "" else exists i :: 0 <= i <= |s| && Denotes(rs[0], s[..i]) && SeqDenotes(rs[1..], s[i..])
  }

  // ---- reading a pattern ------------------------------------------------------------------

  function DigitRun(s: string): (n: nat)
    ensures n <= |s| && forall i :: 0 <= i < n ==> IsDigit(s[i])
    ensures n < |s| ==> !IsDigit(s[n])
  {
    if s == "" || !IsDigit(s[0]) then 0 else 1 + DigitRun(s[1..])
  }

  datatype Repeat = Repeat(lo: nat, hi: Option<nat>, rest: string)

  /** What follows the first count: a closing brace, or a comma, perhaps a second count, and a closing brace. */
  function AfterCount(lo: nat, t: string): (r: Option<Repeat>)
    ensures r.Some? ==> |r.value.rest| < |t|
  {
    if t == "" then None
    else if t[0] == '}' then Some(Repeat(lo, Some(lo), t[1..]))
    else if t[0] != ',' then None
    else
      var m := DigitRun(t[1..]);
      var u := t[1 + m..];
      if u == "" || u[0] != '}' then None
      else Some(Repeat(lo, if m == 0 then None else Some(Digits(t[1..], 0)), u[1..]))
  }

  /** {n}, {n,} or {n,m} at the start of the text; PCRE takes any other brace literally. */
  function CountedRepeat(s: string): (r: Option<Repeat>)
    ensures r.Some? ==> |r.value.rest| + 3 <= |s|
  {
    if s == "" || s[0] != '{' then None else
    var n := DigitRun(s[1..]);
    if n == 0 then None else AfterCount(Digits(s[1..], 0), s[1 + n..])
  }

  /** A run of digits that is not empty. */
  predicate Numeral(a: string) {
    a != "" && forall i :: 0 <= i < |a| ==> '0' <= a[i] <= '9'
  }

  lemma {:induction false} RunOfNumeral(a: string, t: string)
    requires (a == "" || Numeral(a)) && t != "" && !('0' <= t[0] <= '9')
    ensures DigitRun(a + t) == |a| && Digits(a + t, 0) == Digits(a, 0)
  {
    RunOf(a, t);
    DigitsAppend(a, t, 0);
    assert a + "" == a;
  }

  lemma {:induction false} RunOf(a: string, t: string)
    requires (a == "" || Numeral(a)) && t != "" && !('0' <= t[0] <= '9')
    ensures DigitRun(a + t) == |a|
  {
    if a == "" {
      assert a + t == t;
    } else {
      assert (a + t)[1..] == a[1..] + t;
      RunOf(a[1..], t);
    }
  }

  /** The three forms of a counted repeat and the bounds they set. */
  lemma CountedForms(a: string, b: string, rest: string)
    requires Numeral(a) && Numeral(b)
    ensures CountedRepeat("{" + a + "}" + rest) == Some(Repeat(Digits(a, 0), Some(Digits(a, 0)), rest))
    ensures CountedRepeat("{" + a + ",}" + rest) == Some(Repeat(Digits(a, 0), None, rest))
    ensures CountedRepeat("{" + a + "," + b + "}" + rest) == Some(Repeat(Digits(a, 0), Some(Digits(b, 0)), rest))
  {
    hide CountedRepeat, Digits, Numeral;
    Exactly(a, rest);
    AtLeast(a, rest);
    Between(a, b, rest);
  }

  lemma Exactly(a: string, rest: string)
    requires Numeral(a)
    ensures CountedRepeat("{" + a + "}" + rest) == Some(Repeat(Digits(a, 0), Some(Digits(a, 0)), rest))
  {
    hide CountedRepeat, AfterCount, Digits, Numeral;
    CountedForm(a, "}" + rest);
    assert "{" + a + "}" + rest == "{" + a + ("}" + rest);
    OneCount(Digits(a, 0), rest);
  }

  lemma AtLeast(a: string, rest: string)
    requires Numeral(a)
    ensures CountedRepeat("{" + a + ",}" + rest) == Some(Repeat(Digits(a, 0), None, rest))
  {
    hide CountedRepeat, AfterCount, Digits, Numeral;
    CountedForm(a, ",}" + rest);
    assert "{" + a + ",}" + rest == "{" + a + (",}" + rest);
    TwoCounts(Digits(a, 0), "", rest);
    assert "," + "" + "}" + rest == ",}" + rest;
  }

  lemma Between(a: string, b: string, rest: string)
    requires Numeral(a) && Numeral(b)
    ensures CountedRepeat("{" + a + "," + b + "}" + rest) == Some(Repeat(Digits(a, 0), Some(Digits(b, 0)), rest))
  {
    assert b != "";
    hide CountedRepeat, AfterCount, Digits, Numeral;
    var t := "," + b + "}" + rest;
    assert t[0] == ',';
    CountedForm(a, t);
    Regroup("{" + a, b, rest);
    TwoCounts(Digits(a, 0), b, rest);
  }

  lemma Regroup(x: string, b: string, rest: string)
    ensures x + "," + b + "}" + rest == x + ("," + b + "}" + rest)
  {
    var y := x + ",";
    assert y + b + "}" + rest == y + (b + ("}" + rest));
    assert "," + b + "}" + rest == "," + (b + ("}" + rest));
  }

  lemma OneCount(lo: nat, rest: string)
    ensures AfterCount(lo, "}" + rest) == Some(Repeat(lo, Some(lo), rest))
  {
    assert ("}" + rest)[1..] == rest;
  }

  lemma TwoCounts(lo: nat, b: string, rest: string)
    requires b == "" || Numeral(b)
    ensures AfterCount(lo, "," + b + "}" + rest)
         == Some(Repeat(lo, if b == "" then None else Some(Digits(b, 0)), rest))
  {
    hide DigitRun, Digits;
    var t := "," + b + "}" + rest;
    assert t[1..] == b + ("}" + rest);
    RunOfNumeral(b, "}" + rest);
    assert t[1 + |b|..] == "}" + rest;
    assert ("}" + rest)[1..] == rest;
  }

  lemma CountedForm(a: string, t: string)
    requires Numeral(a) && t != "" && !('0' <= t[0] <= '9')
    ensures CountedRepeat("{" + a + t) == AfterCount(Digits(a, 0), t)
  {
    hide AfterCount, DigitRun, Digits;
    var s := "{" + a + t;
    assert s[1..] == a + t;
    RunOfNumeral(a, t);
    assert s[1 + |a|..] == t;
  }

  /** `s` starts with one of the three forms. */
  ghost predicate StartsCounted(s: string) {
    exists a, b, rest :: Numeral(a) && Numeral(b) && OneOfForms(s, a, b, rest)
  }

  predicate OneOfForms(s: string, a: string, b: string, rest: string) {
    s == "{" + a + "}" + rest || s == "{" + a + ",}" + rest || s == "{" + a + "," + b + "}" + rest
  }

  /** A text starts with a counted repeat if and only if it starts with {n}, {n,} or {n,m}, n and m being digits. */
  lemma CountedIff(s: string)
    ensures CountedRepeat(s).Some? <==> StartsCounted(s)
  {
    hide Numeral, OneOfForms, AfterCount, Digits;
    if CountedRepeat(s).Some? {
      var n := DigitRun(s[1..]);
      var a, t := s[1..][..n], s[1 + n..];
      assert Numeral(a) by { RunIsNumeral(s[1..]); }
      assert s == "{" + a + t;
      FormOf(s, a, Digits(s[1..], 0), t);
    }
    if StartsCounted(s) {
      var a, b, rest :| Numeral(a) && Numeral(b) && OneOfForms(s, a, b, rest);
      assert CountedRepeat(s).Some? by { FormCounts(s, a, b, rest); }
    }
  }

  lemma RunIsNumeral(s: string)
    requires DigitRun(s) > 0
    ensures Numeral(s[..DigitRun(s)])
  {
  }

  lemma FormCounts(s: string, a: string, b: string, rest: string)
    requires Numeral(a) && Numeral(b) && OneOfForms(s, a, b, rest)
    ensures CountedRepeat(s).Some?
  {
    hide CountedRepeat, Numeral;
    CountedForms(a, b, rest);
  }

  lemma FormOf(s: string, a: string, lo: nat, t: string)
    requires Numeral(a) && s == "{" + a + t && AfterCount(lo, t).Some?
    ensures StartsCounted(s)
  {
    hide Numeral, DigitRun, Digits;
    if t[0] == '}' {
      assert t == "}" + t[1..];
      assert OneOfForms(s, a, a, t[1..]);
    } else {
      var m := DigitRun(t[1..]);
      var b, u := t[1..][..m], t[1 + m..];
      assert t == "," + b + u && u == "}" + u[1..];
      if m == 0 {
        assert t == ",}" + u[1..];
        assert OneOfForms(s, a, a, u[1..]);
      } else {
        RunIsNumeral(t[1..]);
        assert s == "{" + a + "," + b + "}" + u[1..];
        assert OneOfForms(s, a, b, u[1..]);
      }
    }
  }

  /** Counts above 65535 and out-of-order bounds are compile errors. */
  predicate CountsOk(r: Repeat) {
    r.lo <= 65535 && (r.hi.Some? ==> r.lo <= r.hi.value <= 65535)
  }

  predicate IsAlnum(c: char) {
    IsDigit(c) || 'a' <= c <= 'z' || 'A' <= c <= 'Z'
  }

  predicate IsQuantifier(c: char) {
    c == '*' || c == '+' || c == '?'
  }

  predicate IsMeta(c: char) {
    IsQuantifier(c) || c == '.' || c == '^' || c == '$' || c == '|' || c == '(' || c == ')'
  }

  datatype Parse = Parse(re: Re, rest: string)

  /** One atom. Groups, alternation, inner anchors, the dot, and other classes and escapes are outside this part of PCRE. */
  function ParseAtom(s: string): (r: Option<Parse>)
    ensures r.Some? ==> |r.value.rest| < |s|
  {
    if s == "" then None
    else if s[0] == '\\' then
      if |s| > 1 && !IsAlnum(s[1]) then Some(Parse(Ch(s[1]), s[2..])) else None
    else if s[0] == '[' then
      if |s| > 3 && s[1] == '^' && s[2] != ']' && s[2] != '\\' && s[3] == ']' then Some(Parse(NotCh(s[2]), s[4..])) else None
    else if IsMeta(s[0]) || CountedRepeat(s).Some? then None
    else Some(Parse(Ch(s[0]), s[1..]))
  }

  /** The quantifiers after an atom; of the one-character ones a query has the star only. */
  function Quantify(re: Re, s: string, first: bool): (r: Option<Parse>)
    ensures r.Some? ==> |r.value.rest| <= |s|
    decreases |s|
  {
    if s != "" && IsQuantifier(s[0]) then
      if first && s[0] == '*' then Quantify(Rep(re, 0, None), s[1..], false) else None
    else match CountedRepeat(s)
      case None => Some(Parse(re, s))
      case Some(q) => if CountsOk(q) then Quantify(Rep(re, q.lo, q.hi), q.rest, false) else None
  }

  function ParseItems(s: string): Option<seq<Re>>
    decreases |s|
  {
    if s == "" then Some([]) else
    match ParseAtom(s)
    case None => None
    case Some(Parse(atom, rest)) =>
      match Quantify(atom, rest, true)
      case None => None
      case Some(Parse(re, rest')) =>
        match ParseItems(rest')
        case None => None
        case Some(rs) => Some([re] + rs)
  }

  function Compile(pattern: string): Option<seq<Re>> {
    if |pattern| >= 2 && pattern[0] == '^' && pattern[|pattern| - 1] == '$' then ParseItems(pattern[1..|pattern| - 1])
    else None
  }

  /** A pattern that does not compile matches nothing. */
  predicate Matches(pattern: string, s: string) {
    Compile(pattern).Some? && SeqDenotes(Compile(pattern).value, s)
  }
}
