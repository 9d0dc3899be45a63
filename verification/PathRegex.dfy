/** Directory::pathregex and the query built from it. */
module PathRegex {
  import opened CTypes
  import opened Decimal
  import opened Regex

  predicate IsSpecial(c: char) {
    IsMeta(c) || c == '[' || c == ']' || c == '\\'
  }

  function EscapeOne(c: char): string {
    if IsSpecial(c) then ['\\', c] else [c]
  }

  function Escape(path: string): string {
    if path == "" then "" else EscapeOne(path[0]) + Escape(path[1..])
  }

  /** pathregex: the loop over the path's characters. */
  method EscapePath(path: string) returns (regex: string)
    ensures regex == Escape(path)
  {
    regex := "";
    for i := 0 to |path|
      invariant Escape(path) == regex + Escape(path[i..])
    {
      hide IsSpecial;
      var ch := path[i];
      assert path[i..][1..] == path[i + 1..];
      ghost var rest := Escape(path[i + 1..]);
      assert regex + (EscapeOne(ch) + rest) == regex + EscapeOne(ch) + rest;
      if IsSpecial(ch) {
        regex := regex + ['\\', ch];
      } else {
        regex := regex + [ch];
      }
    }
  }

  /** The regular expression of Directory::list. */
  function Pattern(path: string): string {
    "^" + Escape(path) + "/[^/]*$"
  }

  /** `s` is `path`, a slash, and a name without slashes. */
  predicate IsChild(path: string, s: string) {
    path + "/" <= s && '/' !in s[|path| + 1..]
  }

  /** Somewhere in the path, braces read as a counted repeat. */
  predicate HasRepeat(path: string) {
    exists i :: 0 <= i < |path| && CountedRepeat(path[i..]).Some?
  }

  // ---- what the compiler makes of an escaped path -----------------------------------------

  /** Counted repeats survive escaping; everything else in a path is a literal. */
  function PathQuantify(re: Re, s: string): (r: Option<Parse>)
    ensures r.Some? ==> |r.value.rest| <= |s|
    decreases |s|
  {
    match CountedRepeat(s)
    case None => Some(Parse(re, s))
    case Some(q) => if CountsOk(q) then PathQuantify(Rep(re, q.lo, q.hi), q.rest) else None
  }

  function PathItems(s: string): Option<seq<Re>>
    decreases |s|
  {
    if s == "" then Some([])
    else if CountedRepeat(s).Some? then None
    else match PathQuantify(Ch(s[0]), s[1..])
      case None => None
      case Some(Parse(re, rest)) =>
        match PathItems(rest)
        case None => None
        case Some(rs) => Some([re] + rs)
  }

  /** Digits are not escaped, and nothing else escapes to a digit. */
  lemma EscapeDigitHead(p: string, tail: string)
    requires tail != "" && tail[0] == '/'
    ensures var s := Escape(p) + tail; s != "" && (IsDigit(s[0]) <==> p != "" && IsDigit(p[0]))
    ensures p != "" && IsDigit(p[0]) ==> Escape(p) + tail == [p[0]] + (Escape(p[1..]) + tail)
  {
    if p != "" {
      var rest := Escape(p[1..]);
      hide Escape;
      assert Escape(p) == EscapeOne(p[0]) + rest;
      assert (EscapeOne(p[0]) + rest) + tail == EscapeOne(p[0]) + (rest + tail);
    }
  }

  lemma {:induction false} EscapeDigits(p: string, tail: string)
    requires tail != "" && tail[0] == '/'
    ensures DigitRun(Escape(p) + tail) == DigitRun(p)
    ensures forall acc: nat :: Digits(Escape(p) + tail, acc) == Digits(p, acc)
    ensures (Escape(p) + tail)[DigitRun(p)..] == Escape(p[DigitRun(p)..]) + tail
  {
    hide Escape, DigitValue;
    EscapeDigitHead(p, tail);
    var s := Escape(p) + tail;
    if p != "" && IsDigit(p[0]) {
      var t := Escape(p[1..]) + tail;
      EscapeDigits(p[1..], tail);
      assert s[0] == p[0] && s[1..] == t;
      var n := DigitRun(p[1..]);
      assert p[1 + n..] == p[1..][n..];
      assert s[1 + n..] == t[n..];
    } else {
      assert p[0..] == p && s[0..] == s;
    }
  }

  lemma EscapeHead(p: string, tail: string, c: char)
    requires tail != "" && tail[0] == '/' && !IsSpecial(c) && c != '/'
    ensures (Escape(p) + tail)[0] == c <==> p != "" && p[0] == c
    ensures p != "" && p[0] == c ==> (Escape(p) + tail)[1..] == Escape(p[1..]) + tail
  {
  }

  lemma EscapeRepeat(p: string, tail: string)
    requires tail != "" && tail[0] == '/'
    ensures CountedRepeat(Escape(p) + tail)
         == match CountedRepeat(p)
            case None => None
            case Some(q) => Some(Repeat(q.lo, q.hi, Escape(q.rest) + tail))
  {
    hide Escape, DigitRun, Digits, AfterCount;
    var s := Escape(p) + tail;
    EscapeHead(p, tail, '{');
    if p != "" && p[0] == '{' {
      var t := p[1..];
      EscapeDigits(t, tail);
      assert p[1 + DigitRun(t)..] == t[DigitRun(t)..];
      assert s[1 + DigitRun(t)..] == s[1..][DigitRun(t)..];
      EscapeAfterCount(Digits(t, 0), t[DigitRun(t)..], tail);
    }
  }

  lemma EscapeAfterCount(lo: nat, t: string, tail: string)
    requires tail != "" && tail[0] == '/'
    ensures AfterCount(lo, Escape(t) + tail)
         == match AfterCount(lo, t)
            case None => None
            case Some(q) => Some(Repeat(q.lo, q.hi, Escape(q.rest) + tail))
  {
    hide Escape, DigitRun, Digits;
    EscapeAfterDigits(t, tail);
  }

  /** What may follow the first count: a closing brace, or a comma, more digits and a closing brace. */
  lemma EscapeAfterDigits(t: string, tail: string)
    requires tail != "" && tail[0] == '/'
    ensures
      var t' := Escape(t) + tail;
      && t' != ""
      && (t'[0] == '}' <==> t != "" && t[0] == '}')
      && (t'[0] == ',' <==> t != "" && t[0] == ',')
      && (t != "" && t[0] == '}' ==> t'[1..] == Escape(t[1..]) + tail)
      && (t != "" && t[0] == ',' ==>
            var u, u' := t[1..], t'[1..];
            var m := DigitRun(u);
            && DigitRun(u') == m && Digits(u', 0) == Digits(u, 0)
            && u'[m..] == t'[1 + m..] == Escape(t[1 + m..]) + tail
            && (t'[1 + m..] != "" && t'[1 + m..][0] == '}' <==> t[1 + m..] != "" && t[1 + m..][0] == '}')
            && (t[1 + m..] != "" && t[1 + m..][0] == '}' ==> t'[1 + m..][1..] == Escape(t[1 + m..][1..]) + tail))
  {
    hide Escape, DigitRun, Digits;
    EscapeHead(t, tail, '}');
    EscapeHead(t, tail, ',');
    if t != "" && t[0] == ',' {
      var u, m := t[1..], DigitRun(t[1..]);
      EscapeDigits(u, tail);
      assert t[1 + m..] == u[m..];
      assert (Escape(t) + tail)[1 + m..] == (Escape(t) + tail)[1..][m..];
      EscapeHead(u[m..], tail, '}');
    }
  }

  lemma {:induction false} EscapeQuantify(re: Re, p: string, tail: string, first: bool)
    requires tail != "" && tail[0] == '/'
    ensures Quantify(re, Escape(p) + tail, first)
         == match PathQuantify(re, p)
            case None => None
            case Some(q) => Some(Parse(q.re, Escape(q.rest) + tail))
    decreases |p|
  {
    hide CountedRepeat;
    EscapeRepeat(p, tail);
    assert p != "" && IsSpecial(p[0]) ==> (Escape(p) + tail)[0] == '\\';
    match CountedRepeat(p)
    case None =>
    case Some(q) =>
      if CountsOk(q) {
        EscapeQuantify(Rep(re, q.lo, q.hi), q.rest, tail, false);
      }
  }

  lemma EscapeAtom(p: string, tail: string)
    requires p != "" && tail != "" && tail[0] == '/'
    ensures ParseAtom(Escape(p) + tail)
         == if CountedRepeat(p).Some? then None else Some(Parse(Ch(p[0]), Escape(p[1..]) + tail))
  {
    hide *;
    EscapeRepeat(p, tail);
    Special(p[0]);
    EscapeUnfolds(p, tail);
    if IsSpecial(p[0]) {
      RepeatStartsWithBrace(p);
      AtomEscaped(Escape(p) + tail);
    } else {
      AtomPlain(Escape(p) + tail);
    }
  }

  lemma EscapeUnfolds(p: string, tail: string)
    requires p != ""
    ensures
      var s := Escape(p) + tail;
      if IsSpecial(p[0]) then |s| > 1 && s[0] == '\\' && s[1] == p[0] && s[2..] == Escape(p[1..]) + tail
      else s != "" && s[0] == p[0] && s[1..] == Escape(p[1..]) + tail
  {
    var e, r := EscapeOne(p[0]), Escape(p[1..]);
    hide *;
    assert Escape(p) == e + r by { EscapeStep(p); }
    EscapeOneIs(p[0]);
    Prefix(e, r, tail);
  }

  lemma EscapeStep(p: string)
    requires p != ""
    ensures Escape(p) == EscapeOne(p[0]) + Escape(p[1..])
  {
  }

  lemma EscapeOneIs(c: char)
    ensures EscapeOne(c) == if IsSpecial(c) then ['\\', c] else [c]
  {
    hide IsSpecial;
  }

  lemma Prefix(e: string, r: string, tail: string)
    ensures (e + r + tail)[|e|..] == r + tail
    ensures forall i :: 0 <= i < |e| ==> (e + r + tail)[i] == e[i]
  {
  }

  lemma AtomEscaped(s: string)
    requires |s| > 1 && s[0] == '\\' && !IsAlnum(s[1])
    ensures ParseAtom(s) == Some(Parse(Ch(s[1]), s[2..]))
  {
    hide IsAlnum;
  }

  lemma AtomPlain(s: string)
    requires s != "" && !IsMeta(s[0]) && s[0] != '.' && s[0] != '[' && s[0] != '\\'
    ensures ParseAtom(s) == if CountedRepeat(s).Some? then None else Some(Parse(Ch(s[0]), s[1..]))
  {
    hide IsMeta, CountedRepeat;
  }

  lemma Special(c: char)
    ensures IsSpecial(c) ==> !IsAlnum(c) && c != '{'
    ensures !IsSpecial(c) ==> !IsMeta(c) && c != '.' && c != '[' && c != '\\'
  {
  }

  lemma RepeatStartsWithBrace(p: string)
    ensures CountedRepeat(p).Some? ==> p != "" && p[0] == '{'
  {
  }

  lemma {:induction false} EscapeItems(p: string, tail: string)
    requires tail != "" && tail[0] == '/' && ParseItems(tail).Some?
    ensures ParseItems(Escape(p) + tail)
         == match PathItems(p)
            case None => None
            case Some(rs) => Some(rs + ParseItems(tail).value)
    decreases |p|
  {
    hide CountedRepeat, IsSpecial, ParseAtom, Quantify;
    if p == "" {
      assert Escape(p) + tail == tail;
      assert [] + ParseItems(tail).value == ParseItems(tail).value;
    } else {
      EscapeAtom(p, tail);
      if CountedRepeat(p).None? {
        EscapeQuantify(Ch(p[0]), p[1..], tail, true);
        match PathQuantify(Ch(p[0]), p[1..])
        case None =>
        case Some(q) =>
          EscapeItems(q.rest, tail);
          if PathItems(q.rest).Some? {
            Associate(q.re, PathItems(q.rest).value, ParseItems(tail).value);
          }
      }
    }
  }

  lemma Associate(r: Re, rs: seq<Re>, ts: seq<Re>)
    ensures [r] + (rs + ts) == [r] + rs + ts
  {
  }

  lemma CompiledPattern(path: string)
    ensures Compile(Pattern(path))
         == match PathItems(path)
            case None => None
            case Some(rs) => Some(rs + [Ch('/'), Rep(NotCh('/'), 0, None)])
  {
    var tail := "/[^/]*";
    TailItems();
    EscapeItems(path, tail);
    var body := Escape(path) + tail;
    assert Pattern(path) == "^" + body + "$";
    Middle(body);
  }

  lemma Middle(body: string)
    ensures
      var p := "^" + body + "$";
      |p| >= 2 && p[0] == '^' && p[|p| - 1] == '$' && p[1..|p| - 1] == body
  {
    assert ("^" + body + "$")[1..|body| + 1] == body;
  }

  lemma TailItems()
    ensures ParseItems("/[^/]*") == Some([Ch('/'), Rep(NotCh('/'), 0, None)])
  {
    assert "/[^/]*"[1..] == "[^/]*";
    assert "[^/]*"[4..] == "*";
    assert "*"[1..] == "";
    assert Quantify(NotCh('/'), "*", true) == Some(Parse(Rep(NotCh('/'), 0, None), ""));
    assert ParseAtom("[^/]*") == Some(Parse(NotCh('/'), "*"));
    assert ParseItems("") == Some([]);
    assert [Rep(NotCh('/'), 0, None)] + [] == [Rep(NotCh('/'), 0, None)];
    assert Quantify(Ch('/'), "[^/]*", true) == Some(Parse(Ch('/'), "[^/]*"));
    assert ParseItems("[^/]*") == Some([Rep(NotCh('/'), 0, None)]);
    assert ParseAtom("/[^/]*") == Some(Parse(Ch('/'), "[^/]*"));
    assert [Ch('/')] + [Rep(NotCh('/'), 0, None)] == [Ch('/'), Rep(NotCh('/'), 0, None)];
  }

  // ---- paths without counted repeats ------------------------------------------------------

  function Literals(s: string): seq<Re> {
    seq(|s|, i requires 0 <= i < |s| => Ch(s[i]))
  }

  lemma RepeatInRest(p: string)
    requires p != ""
    ensures HasRepeat(p) <==> CountedRepeat(p).Some? || HasRepeat(p[1..])
  {
    hide CountedRepeat;
    assert p[0..] == p;
    forall i | 0 <= i < |p| - 1
      ensures p[1..][i..] == p[i + 1..]
    {
    }
    if HasRepeat(p) {
      var i :| 0 <= i < |p| && CountedRepeat(p[i..]).Some?;
      if i > 0 {
        assert CountedRepeat(p[1..][i - 1..]).Some?;
      }
    }
    if HasRepeat(p[1..]) {
      var i :| 0 <= i < |p[1..]| && CountedRepeat(p[1..][i..]).Some?;
      assert CountedRepeat(p[i + 1..]).Some?;
    }
  }

  lemma {:induction false} PlainItems(p: string)
    requires !HasRepeat(p)
    ensures PathItems(p) == Some(Literals(p))
    decreases |p|
  {
    hide HasRepeat, CountedRepeat;
    if p != "" {
      RepeatInRest(p);
      if p[1..] != "" {
        RepeatInRest(p[1..]);
      } else {
        RepeatStartsWithBrace(p[1..]);
      }
      PlainItems(p[1..]);
      assert Literals(p) == [Ch(p[0])] + Literals(p[1..]);
    } else {
      assert Literals(p) == [];
    }
  }

  lemma LiteralHead(c: char, rs: seq<Re>, s: string)
    ensures SeqDenotes([Ch(c)] + rs, s) <==> s != "" && s[0] == c && SeqDenotes(rs, s[1..])
  {
    assert ([Ch(c)] + rs)[1..] == rs;
    if s != "" && s[0] == c && SeqDenotes(rs, s[1..]) {
      assert Denotes(Ch(c), s[..1]);
    }
  }

  lemma {:induction false} LiteralsMatch(p: string, rs: seq<Re>, s: string)
    ensures SeqDenotes(Literals(p) + rs, s) <==> p <= s && SeqDenotes(rs, s[|p|..])
  {
    if p == "" {
      assert Literals(p) + rs == rs && s[0..] == s;
    } else {
      assert Literals(p) + rs == [Ch(p[0])] + (Literals(p[1..]) + rs);
      LiteralHead(p[0], Literals(p[1..]) + rs, s);
      if s != "" {
        LiteralsMatch(p[1..], rs, s[1..]);
        assert p <= s <==> p[0] == s[0] && p[1..] <= s[1..];
        if p <= s {
          assert s[1..][|p[1..]|..] == s[|p|..];
        }
      }
    }
  }

  lemma {:induction false} StarPower(n: nat, s: string)
    ensures Power(NotCh('/'), n, s) <==> |s| == n && '/' !in s
    decreases n
  {
    if n > 0 {
      forall i | 0 <= i <= |s|
        ensures Power(NotCh('/'), n - 1, s[i..]) <==> |s| - i == n - 1 && '/' !in s[i..]
      {
        StarPower(n - 1, s[i..]);
      }
      if |s| == n && '/' !in s {
        assert Denotes(NotCh('/'), s[..1]) && Power(NotCh('/'), n - 1, s[1..]);
      }
    }
  }

  lemma StarMatches(s: string)
    ensures SeqDenotes([Rep(NotCh('/'), 0, None)], s) <==> '/' !in s
  {
    var rs := [Rep(NotCh('/'), 0, None)];
    if SeqDenotes(rs, s) {
      var i :| 0 <= i <= |s| && Denotes(rs[0], s[..i]) && SeqDenotes(rs[1..], s[i..]);
      var n :| 0 <= n <= |s[..i]| && Power(NotCh('/'), n, s[..i]);
      StarPower(n, s[..i]);
      assert s[..i] == s;
    }
    if '/' !in s {
      StarPower(|s|, s);
      assert s[..|s|] == s;
      assert Denotes(rs[0], s[..|s|]) && SeqDenotes(rs[1..], s[|s|..]);
    }
  }

  lemma PlainMatches(path: string, s: string)
    requires !HasRepeat(path)
    ensures Matches(Pattern(path), s) <==> IsChild(path, s)
  {
    hide HasRepeat, ParseItems, SeqDenotes, Compile, Pattern;
    CompiledPattern(path);
    PlainItems(path);
    var star := [Rep(NotCh('/'), 0, None)];
    assert [Ch('/'), Rep(NotCh('/'), 0, None)] == [Ch('/')] + star;
    LiteralsMatch(path, [Ch('/')] + star, s);
    if path <= s {
      var t := s[|path|..];
      LiteralHead('/', star, t);
      if t != "" {
        StarMatches(t[1..]);
        assert t[1..] == s[|path| + 1..];
      }
    }
  }

  // ---- paths with counted repeats ---------------------------------------------------------

  /** Literals and quantified literals with bounds in order. */
  predicate LiteralRe(r: Re) {
    match r
    case Ch(_) => true
    case Rep(r', lo, hi) => LiteralRe(r') && (hi.Some? ==> lo <= hi.value)
    case _ => false
  }

  function Times(t: string, n: nat): string {
    if n == 0 then "" else t + Times(t, n - 1)
  }

  /** The text an expression matches when every quantifier takes its lower bound. */
  function MinText(r: Re): string {
    match r
    case Ch(c) => [c]
    case Rep(r', lo, _) => Times(MinText(r'), lo)
    case _ => ""
  }

  function MinSeq(rs: seq<Re>): string {
    if rs == [] then "" else MinText(rs[0]) + MinSeq(rs[1..])
  }

  lemma {:induction false} PowerTimes(r: Re, t: string, n: nat)
    requires Denotes(r, t)
    ensures Power(r, n, Times(t, n))
    decreases n
  {
    if n > 0 {
      PowerTimes(r, t, n - 1);
      var s := Times(t, n);
      assert s[..|t|] == t && s[|t|..] == Times(t, n - 1);
    }
  }

  lemma {:induction false} MinTextMatches(r: Re)
    requires LiteralRe(r)
    ensures Denotes(r, MinText(r))
  {
    match r
    case Ch(_) =>
    case Rep(r', lo, hi) =>
      MinTextMatches(r');
      PowerTimes(r', MinText(r'), lo);
    case _ =>
  }

  lemma {:induction false} MinSeqMatches(rs: seq<Re>, ts: seq<Re>, s: string)
    requires forall i :: 0 <= i < |rs| ==> LiteralRe(rs[i])
    requires SeqDenotes(ts, s)
    ensures SeqDenotes(rs + ts, MinSeq(rs) + s)
  {
    hide Denotes, SeqDenotes, LiteralRe, MinText;
    if rs == [] {
      assert rs + ts == ts && MinSeq(rs) + s == s;
    } else {
      MinSeqMatches(rs[1..], ts, s);
      MinTextMatches(rs[0]);
      SeqHead(rs[0], rs[1..] + ts, MinText(rs[0]), MinSeq(rs[1..]) + s);
      assert rs + ts == [rs[0]] + (rs[1..] + ts);
      assert MinSeq(rs) + s == MinText(rs[0]) + (MinSeq(rs[1..]) + s);
    }
  }

  lemma SeqHead(r: Re, rs: seq<Re>, t: string, s: string)
    requires Denotes(r, t) && SeqDenotes(rs, s)
    ensures SeqDenotes([r] + rs, t + s)
  {
    assert ([r] + rs)[1..] == rs;
    assert (t + s)[..|t|] == t && (t + s)[|t|..] == s;
  }

  predicate AllAre(c: char, s: string) {
    forall i :: 0 <= i < |s| ==> s[i] == c
  }

  lemma {:induction false} TimesAllAre(c: char, t: string, n: nat)
    requires AllAre(c, t)
    ensures AllAre(c, Times(t, n))
  {
    if n > 0 {
      TimesAllAre(c, t, n - 1);
    }
  }

  lemma RepeatText(s: string)
    requires CountedRepeat(s).Some?
    ensures
      var rest := CountedRepeat(s).value.rest;
      |s| - |rest| >= 3 && s[0] == '{' && IsDigit(s[1]) && rest == s[|s| - |rest|..]
  {
    var n := DigitRun(s[1..]);
    assert s[1..][0] == s[1];
  }

  /** A run of quantifiers: where it ends, how it starts, and that it only multiplies the literal. */
  lemma {:induction false} QuantifierRun(c: char, re: Re, s: string)
    requires LiteralRe(re) && AllAre(c, MinText(re)) && PathQuantify(re, s).Some?
    ensures
      var q := PathQuantify(re, s).value;
      && LiteralRe(q.re) && AllAre(c, MinText(q.re))
      && q.rest == s[|s| - |q.rest|..]
      && CountedRepeat(q.rest).None?
      && (|q.rest| == |s| <==> CountedRepeat(s).None?)
      && (|q.rest| == |s| ==> q.re == re && q.rest == s)
      && (|q.rest| < |s| ==> |s| >= 3 && |q.rest| <= |s| - 3 && s[0] == '{' && IsDigit(s[1]))
    decreases |s|
  {
    hide CountedRepeat, IsDigit;
    match CountedRepeat(s)
    case None =>
    case Some(q) =>
      RepeatText(s);
      TimesAllAre(c, MinText(re), q.lo);
      QuantifierRun(c, Rep(re, q.lo, q.hi), q.rest);
  }

  /** What remains of the equation  t + e == w + [c] + run + rest  once t, all c's, is taken off the left. */
  lemma TakeOff(c: char, t: string, e: string, w: string, run: string, rest: string)
    requires AllAre(c, t) && t + e == w + [c] + run + rest
    requires run == "" ==> t == [c]
    requires run != "" ==> |run| >= 3 && run[0] == '{' && IsDigit(run[1])
    requires w != "" || run != ""
    ensures |t| < |w + [c] + run| && e == (w + [c] + run)[|t|..] + rest
  {
    var left := w + [c] + run;
    assert t + e == left + rest;
    if |t| >= |left| {
      PrefixAllAre(c, t, e, left, rest);
      NotAllSame(c, w, run);
    } else {
      assert e == (t + e)[|t|..];
      assert (left + rest)[|t|..] == left[|t|..] + rest;
    }
  }

  lemma PrefixAllAre(c: char, t: string, e: string, left: string, rest: string)
    requires AllAre(c, t) && t + e == left + rest && |t| >= |left|
    ensures AllAre(c, left)
  {
    forall i | 0 <= i < |left|
      ensures left[i] == c
    {
      assert left[i] == (left + rest)[i] == (t + e)[i] == t[i];
    }
  }

  lemma NotAllSame(c: char, w: string, run: string)
    requires run == "" ==> w != ""
    requires run != "" ==> |run| >= 3 && run[0] == '{' && IsDigit(run[1])
    ensures run != "" ==> !AllAre(c, w + [c] + run)
    ensures run == "" ==> |w + [c] + run| > 1
  {
    var left := w + [c] + run;
    if run != "" {
      assert left[|w| + 1] == run[0] && left[|w| + 2] == run[1];
    }
  }

  /** A path cut after its first character and the quantifiers behind it. */
  lemma FirstItem(p: string) returns (re: Re, run: string, rest: string)
    requires p != "" && PathItems(p).Some?
    ensures p == [p[0]] + run + rest && PathItems(rest).Some?
    ensures MinSeq(PathItems(p).value) == MinText(re) + MinSeq(PathItems(rest).value)
    ensures AllAre(p[0], MinText(re))
    ensures run == "" ==> MinText(re) == [p[0]] && rest == p[1..] && CountedRepeat(rest).None?
    ensures run != "" ==> |run| >= 3 && run[0] == '{' && IsDigit(run[1])
    ensures CountedRepeat(p).None?
  {
    hide CountedRepeat, IsDigit, PathQuantify;
    QuantifierRun(p[0], Ch(p[0]), p[1..]);
    var q := PathQuantify(Ch(p[0]), p[1..]).value;
    re, rest := q.re, q.rest;
    run := p[1..|p| - |rest|];
    MinSeqHead(re, PathItems(rest).value);
  }

  /** Taking every quantifier at its lower bound never yields the path's own text with more text in front of it. */
  lemma {:induction false} NeverExtendsItself(p: string, w: string)
    requires PathItems(p).Some? && w != ""
    ensures MinSeq(PathItems(p).value) != w + p
    decreases |p|
  {
    hide PathItems, MinText, MinSeq, AllAre, IsDigit;
    if p == "" {
      MinSeqOfNothing();
    } else {
      var re, run, rest := FirstItem(p);
      if MinSeq(PathItems(p).value) == w + p {
        Join(w, p, [p[0]], run, rest);
        TakeOff(p[0], MinText(re), MinSeq(PathItems(rest).value), w, run, rest);
        NeverExtendsItself(rest, (w + [p[0]] + run)[|MinText(re)|..]);
      }
    }
  }

  lemma MinSeqOfNothing()
    ensures PathItems("") == Some([]) && MinSeq([]) == ""
  {
  }

  lemma Join(w: string, p: string, c: string, run: string, rest: string)
    requires p == c + run + rest
    ensures w + p == w + c + run + rest
  {
  }

  lemma MinSeqHead(re: Re, rs: seq<Re>)
    ensures MinSeq([re] + rs) == MinText(re) + MinSeq(rs)
  {
    assert ([re] + rs)[1..] == rs;
  }

  /** Only a path without counted repeats is what its quantifiers at their lower bounds spell. */
  lemma {:induction false} ItselfOnlyPlain(p: string)
    requires PathItems(p).Some? && MinSeq(PathItems(p).value) == p
    ensures !HasRepeat(p)
    decreases |p|
  {
    hide PathItems, MinText, MinSeq, AllAre, CountedRepeat, IsDigit, HasRepeat;
    if p == "" {
      assert !HasRepeat(p) by { NoRepeatInNothing(); }
    } else {
      var re, run, rest := FirstItem(p);
      if run != "" {
        Join("", p, [p[0]], run, rest);
        TakeOff(p[0], MinText(re), MinSeq(PathItems(rest).value), "", run, rest);
        NeverExtendsItself(rest, ("" + [p[0]] + run)[|MinText(re)|..]);
      } else {
        assert ([p[0]] + MinSeq(PathItems(rest).value))[1..] == MinSeq(PathItems(rest).value);
        ItselfOnlyPlain(rest);
        RepeatInRest(p);
      }
    }
  }

  lemma NoRepeatInNothing()
    ensures !HasRepeat("")
  {
  }

  lemma {:induction false} ItemsAreLiteral(p: string)
    requires PathItems(p).Some?
    ensures forall i :: 0 <= i < |PathItems(p).value| ==> LiteralRe(PathItems(p).value[i])
    decreases |p|
  {
    hide CountedRepeat;
    if p != "" {
      QuantifierRun(p[0], Ch(p[0]), p[1..]);
      ItemsAreLiteral(PathQuantify(Ch(p[0]), p[1..]).value.rest);
    }
  }

  /** With a counted repeat in the path the query is wrong: it fails to compile, or it matches a path elsewhere. */
  lemma RepeatBreaks(path: string)
    requires HasRepeat(path)
    ensures Compile(Pattern(path)).None? || exists s :: Matches(Pattern(path), s) && !IsChild(path, s)
  {
    hide HasRepeat, CountedRepeat, SeqDenotes, ParseItems, Compile, Pattern;
    CompiledPattern(path);
    match PathItems(path)
    case None =>
    case Some(rs) =>
      var m := MinSeq(rs);
      var s := m + "/x";
      ItemsAreLiteral(path);
      var star := [Rep(NotCh('/'), 0, None)];
      assert [Ch('/'), Rep(NotCh('/'), 0, None)] == [Ch('/')] + star;
      LiteralHead('/', star, "/x");
      StarMatches("/x"[1..]);
      MinSeqMatches(rs, [Ch('/')] + star, "/x");
      if IsChild(path, s) {
        assert s == m + "/" + "x";
        ParentUnique(path, m, "x");
        ItselfOnlyPlain(path);
      }
      assert Matches(Pattern(path), s) && !IsChild(path, s);
  }

  // ---- what a counted repeat makes of a path ----------------------------------------------

  lemma {:induction false} PlainBefore(p: string, t: string)
    requires '{' !in p && t != "" && t[0] != '{'
    ensures PathItems(p + t) == match PathItems(t) case None => None case Some(rs) => Some(Literals(p) + rs)
  {
    if p == "" {
      assert p + t == t;
      assert PathItems(t).Some? ==> Literals(p) + PathItems(t).value == PathItems(t).value;
    } else {
      var s := p + t;
      assert s[1..] == p[1..] + t;
      RepeatStartsWithBrace(s);
      RepeatStartsWithBrace(s[1..]);
      PlainBefore(p[1..], t);
      if PathItems(t).Some? {
        var rs := PathItems(t).value;
        assert [Ch(p[0])] + (Literals(p[1..]) + rs) == Literals(p) + rs;
      }
    }
  }

  lemma NoBraceNoRepeat(q: string)
    requires '{' !in q
    ensures !HasRepeat(q)
  {
    hide CountedRepeat;
    forall i | 0 <= i < |q|
      ensures CountedRepeat(q[i..]).None?
    {
      RepeatStartsWithBrace(q[i..]);
    }
  }

  lemma CountedItems(c: char, a: string, q: string)
    requires c != '{' && '{' !in q && Numeral(a) && Digits(a, 0) <= 65535
    ensures PathItems([c] + "{" + a + "}" + q) == Some([Rep(Ch(c), Digits(a, 0), Some(Digits(a, 0)))] + Literals(q))
  {
    hide CountedRepeat, Digits, Literals;
    var s := [c] + "{" + a + "}" + q;
    assert s[1..] == "{" + a + "}" + q;
    RepeatStartsWithBrace(s);
    CountedForms(a, a, q);
    RepeatStartsWithBrace(q);
    NoBraceNoRepeat(q);
    PlainItems(q);
    var n := Digits(a, 0);
    assert PathQuantify(Rep(Ch(c), n, Some(n)), q) == Some(Parse(Rep(Ch(c), n, Some(n)), q));
    assert PathQuantify(Ch(c), s[1..]) == PathQuantify(Rep(Ch(c), n, Some(n)), q);
    assert s[0] == c;
  }

  /** Counts above 65535 or out of order do not compile, so that the query finds nothing. */
  lemma BadCountsFindNothing(p: string, c: char, a: string, b: string, q: string, s: string)
    requires '{' !in p && c != '{' && Numeral(a) && Numeral(b)
    ensures Digits(a, 0) > 65535 ==> !Matches(Pattern(p + [c] + "{" + a + "}" + q), s)
    ensures Digits(a, 0) > 65535 || Digits(b, 0) > 65535 || Digits(b, 0) < Digits(a, 0) ==>
              !Matches(Pattern(p + [c] + "{" + a + "," + b + "}" + q), s)
  {
    hide CountedRepeat, Digits, Compile, Pattern, SeqDenotes;
    var t, u := [c] + "{" + a + "}" + q, [c] + "{" + a + "," + b + "}" + q;
    assert t[1..] == "{" + a + "}" + q && u[1..] == "{" + a + "," + b + "}" + q;
    CountedForms(a, b, q);
    RepeatStartsWithBrace(t);
    RepeatStartsWithBrace(u);
    PlainBefore(p, t);
    PlainBefore(p, u);
    assert p + [c] + "{" + a + "}" + q == p + t && p + [c] + "{" + a + "," + b + "}" + q == p + u;
    CompiledPattern(p + t);
    CompiledPattern(p + u);
  }

  lemma {:induction false} CharPower(c: char, n: nat, s: string)
    ensures Power(Ch(c), n, s) <==> s == Times([c], n)
    decreases n
  {
    if n > 0 {
      forall i | 0 <= i <= |s|
        ensures Power(Ch(c), n - 1, s[i..]) <==> s[i..] == Times([c], n - 1)
      {
        CharPower(c, n - 1, s[i..]);
      }
      if s == Times([c], n) {
        assert s[..1] == [c] && s[1..] == Times([c], n - 1);
      }
      if Power(Ch(c), n, s) {
        var i :| 0 <= i <= |s| && Denotes(Ch(c), s[..i]) && Power(Ch(c), n - 1, s[i..]);
        assert s == s[..i] + s[i..];
      }
    }
  }

  lemma CountedHead(c: char, n: nat, rs: seq<Re>, s: string)
    ensures SeqDenotes([Rep(Ch(c), n, Some(n))] + rs, s)
       <==> Times([c], n) <= s && SeqDenotes(rs, s[|Times([c], n)|..])
  {
    var r, t := Rep(Ch(c), n, Some(n)), Times([c], n);
    assert ([r] + rs)[1..] == rs;
    forall u
      ensures Denotes(r, u) <==> u == t
    {
      CharPower(c, n, u);
    }
    if t <= s {
      assert s[..|t|] == t;
    }
  }

  /** Exactly which strings the query of a directory finds when its path has one character repeated {n} times and no other
      braces: the children of the path in which the character stands n times. */
  lemma CountedPathMatches(p: string, c: char, a: string, q: string, s: string)
    requires '{' !in p && c != '{' && '{' !in q && Numeral(a) && Digits(a, 0) <= 65535
    ensures Matches(Pattern(p + [c] + "{" + a + "}" + q), s) <==> IsChild(p + Times([c], Digits(a, 0)) + q, s)
  {
    hide HasRepeat, ParseItems, SeqDenotes, Compile, Pattern, Digits, PathItems, Literals, CountedRepeat, Times;
    var n := Digits(a, 0);
    var t := [c] + "{" + a + "}" + q;
    var path := p + [c] + "{" + a + "}" + q;
    assert path == p + t;
    CompiledPattern(path);
    CountedItems(c, a, q);
    PlainBefore(p, t);
    var r := Rep(Ch(c), n, Some(n));
    var star := [Rep(NotCh('/'), 0, None)];
    var tail := [Ch('/'), Rep(NotCh('/'), 0, None)];
    assert tail == [Ch('/')] + star;
    assert Literals(p) + ([r] + Literals(q)) + tail == Literals(p) + ([r] + (Literals(q) + tail));
    LiteralsMatch(p, [r] + (Literals(q) + tail), s);
    var m := Times([c], n);
    var whole := p + m + q;
    if p <= s {
      var u := s[|p|..];
      CountedHead(c, n, Literals(q) + tail, u);
      if m <= u {
        var v := u[|m|..];
        LiteralsMatch(q, tail, v);
        assert s == p + m + v;
        if q <= v {
          var w := v[|q|..];
          assert s == whole + w;
          LiteralHead('/', star, w);
          ChildTail(whole, w);
          if w != "" {
            StarMatches(w[1..]);
          }
        }
      }
    }
    ChildSplits(p, m, q, s);
  }

  lemma ChildTail(path: string, w: string)
    ensures IsChild(path, path + w) <==> w != "" && w[0] == '/' && '/' !in w[1..]
  {
    if w != "" {
      assert (path + w)[|path| + 1..] == w[1..];
      assert (path + w)[|path|] == w[0] && (path + "/")[|path|] == '/';
      if w[0] == '/' {
        assert (path + w)[..|path| + 1] == path + "/";
      }
    }
  }

  lemma ChildSplits(p: string, m: string, q: string, s: string)
    ensures IsChild(p + m + q, s) ==>
              p <= s && m <= s[|p|..] && q <= s[|p|..][|m|..] && |s[|p|..][|m|..]| > |q| && s[|p|..][|m|..][|q|] == '/'
  {
    var whole := p + m + q;
    if IsChild(whole, s) {
      assert s[..|whole|] == whole && s[|whole|] == '/';
      assert s[..|p|] == whole[..|p|] == p;
      assert s[|p|..][..|m|] == whole[|p|..|p| + |m|] == m;
      assert s[|p|..][|m|..][..|q|] == whole[|p| + |m|..] == q;
    }
  }

  /** A path has one parent. */
  lemma ParentUnique(p: string, m: string, name: string)
    requires IsChild(p, m + "/" + name) && '/' !in name
    ensures p == m
  {
    var s := m + "/" + name;
    assert s[|p|] == '/' && s[|m|] == '/';
    assert forall i :: |p| < i < |s| ==> s[i] == s[|p| + 1..][i - |p| - 1];
    assert forall i :: |m| < i < |s| ==> s[i] == name[i - |m| - 1];
    assert |p| == |m|;
    assert p == s[..|p|] && m == s[..|m|];
  }

  /** The query finds exactly the children of a path if and only if no braces in the path read as a counted repeat. */
  lemma QueryExactIffNoRepeat(path: string)
    ensures (forall s :: Matches(Pattern(path), s) <==> IsChild(path, s)) <==> !HasRepeat(path)
  {
    if HasRepeat(path) {
      hide HasRepeat, Compile, Pattern, SeqDenotes;
      RepeatBreaks(path);
      assert IsChild(path, path + "/x");
      assert Compile(Pattern(path)).None? ==> Matches(Pattern(path), path + "/x") != IsChild(path, path + "/x");
    } else {
      forall s
        ensures Matches(Pattern(path), s) <==> IsChild(path, s)
      {
        PlainMatches(path, s);
      }
    }
  }

  lemma {:induction false} EscapeInjective(p: string, q: string)
    requires Escape(p) == Escape(q)
    ensures p == q
  {
    hide IsSpecial;
    if p != "" && q != "" {
      Special('\\');
      assert IsSpecial('\\') by { BackslashSpecial(); }
      assert Escape(p)[0] == Escape(q)[0];
      assert IsSpecial(p[0]) == IsSpecial(q[0]) && p[0] == q[0] by {
        assert IsSpecial(p[0]) ==> Escape(p)[0] == '\\' && Escape(p)[1] == p[0];
        assert IsSpecial(q[0]) ==> Escape(q)[0] == '\\' && Escape(q)[1] == q[0];
      }
      assert Escape(p) == EscapeOne(p[0]) + Escape(p[1..]) && Escape(q) == EscapeOne(q[0]) + Escape(q[1..]);
      assert Escape(p[1..]) == Escape(p)[|EscapeOne(p[0])|..];
      assert Escape(q[1..]) == Escape(q)[|EscapeOne(q[0])|..];
      EscapeInjective(p[1..], q[1..]);
      assert p == [p[0]] + p[1..] && q == [q[0]] + q[1..];
    }
  }

  /** Exactly these twelve characters get a backslash, and a path is escaped piece by piece. */
  lemma EscapedCharacters(c: char, p: string, q: string)
    ensures Escape([c]) == if c in {'.', '^', '$', '|', '(', ')', '[', ']', '*', '+', '?', '\\'} then ['\\', c] else [c]
    ensures Escape(p + q) == Escape(p) + Escape(q)
  {
    assert [c][1..] == "" && EscapeOne(c) + "" == EscapeOne(c);
    EscapeJoins(p, q);
  }

  lemma {:induction false} EscapeJoins(p: string, q: string)
    ensures Escape(p + q) == Escape(p) + Escape(q)
  {
    hide EscapeOne;
    if p == "" {
      assert p + q == q;
    } else {
      assert (p + q)[1..] == p[1..] + q;
      EscapeJoins(p[1..], q);
    }
  }

  lemma BackslashSpecial()
    ensures IsSpecial('\\')
  {
  }
}
