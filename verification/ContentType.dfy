/** The metadata kept in a file's contentType: the printer and the strtok/atoi parser of filesystem_entry.cpp. */
module ContentType {
  import opened CTypes
  import opened Decimal

  datatype Meta = Meta(mode: int, uid: int, gid: int, time: int)

  /** mode_t, uid_t and gid_t values that atoi can read back, and likewise for the time. */
  predicate InRange(m: Meta) {
    && 0 <= m.mode <= 2147483647 && 0 <= m.uid <= 2147483647 && 0 <= m.gid <= 2147483647
    && -2147483648 <= m.time <= 2147483647
  }

  /** What the C types of the four fields can hold. */
  predicate Typed(m: Meta) {
    0 <= m.mode <= 4294967295 && 0 <= m.uid <= 4294967295 && 0 <= m.gid <= 4294967295
  }

  function Print(m: Meta): string {
    "m:" + PrintNat(ToUint32(m.mode)) + "|u:" + PrintNat(ToUint32(m.uid)) + "|g:" + PrintNat(ToUint32(m.gid))
    + "|t:" + PrintInt(m.time)
  }

  // ---- strtok, section 7.21.5.8 of ISO C99, with the delimiters ":|" ----------------------

  predicate IsDelim(c: char) {
    c == ':' || c == '|'
  }

  function SkipDelims(s: string): (r: string)
    ensures |r| <= |s| && (r == "" || !IsDelim(r[0]))
  {
    if s != "" && IsDelim(s[0]) then SkipDelims(s[1..]) else s
  }

  function TokenLength(s: string): (n: nat)
    ensures n <= |s| && (n < |s| ==> IsDelim(s[n]))
    ensures forall i :: 0 <= i < n ==> !IsDelim(s[i])
  {
    if s == "" || IsDelim(s[0]) then 0 else 1 + TokenLength(s[1..])
  }

  /** One strtok call: the next token, and the text the next call goes on with. */
  function Strtok(s: string): (r: (Option<string>, string))
    ensures r.0.Some? ==> r.0.value != "" && |r.1| < |s|
    ensures |r.1| <= |s|
  {
    var t := SkipDelims(s);
    var n := TokenLength(t);
    if t == "" then (None, "") else (Some(t[..n]), if n < |t| then t[n + 1..] else "")
  }

  // ---- the parser -------------------------------------------------------------------------

  /** The out-parameters of stat; `time` is None while nothing has been assigned to it. */
  datatype Fields = Fields(mode: int, uid: int, gid: int, time: Option<int>)

  /** Undefined: atoi is handed NULL, or text whose value does not fit an int. */
  datatype ParseResult = Parsed(fields: Fields) | Undefined

  predicate IsKey(c: char) {
    c == 'm' || c == 'u' || c == 'g' || c == 't'
  }

  function Assign(f: Fields, key: char, n: int): Fields {
    match key
    case 'm' => f.(mode := ToUint32(n))
    case 'u' => f.(uid := ToUint32(n))
    case 'g' => f.(gid := ToUint32(n))
    case 't' => f.(time := Some(n))
    case _ => f
  }

  /** S_IFREG | 0644 and the configured owner, the time untouched. */
  function Defaults(uid: nat, gid: nat): Fields {
    Fields(0x81A4, uid, gid, None)
  }

  /** All tokens of a text, in order. */
  function Tokens(s: string): seq<string>
    decreases |s|
  {
    var (tok, rest) := Strtok(s);
    if tok.None? then [] else [tok.value] + Tokens(rest)
  }

  /** The meaning of a token list: a token that starts with a key letter takes the next token as its value. */
  function Interpret(toks: seq<string>, f: Fields): ParseResult
  {
    if toks == [] then Parsed(f)
    else if toks[0] == "" || !IsKey(toks[0][0]) then Interpret(toks[1..], f)
    else if |toks| == 1 then Undefined
    else match Atoi(toks[1])
      case None => Undefined
      case Some(n) => Interpret(toks[2..], Assign(f, toks[0][0], n))
  }

  /** What the parser makes of a text. */
  function Parse(s: string, f: Fields): ParseResult {
    Interpret(Tokens(s), f)
  }

  /** stat(gridfile, mode, uid, gid, time): the strtok loop. */
  method StatFields(contentType: string, uid: nat, gid: nat) returns (r: ParseResult)
    ensures r == Parse(contentType, Defaults(uid, gid))
  {
    hide Atoi, Assign, Strtok;
    var f := Defaults(uid, gid);
    var (tok, rest) := Strtok(contentType);
    while tok.Some?
      invariant tok.Some? ==> tok.value != ""
      invariant Parse(contentType, Defaults(uid, gid))
             == (if tok.Some? then Interpret([tok.value] + Tokens(rest), f) else Parsed(f))
      decreases tok.Some?, |rest|
    {
      assert ([tok.value] + Tokens(rest))[1..] == Tokens(rest);
      var key := tok.value[0];
      if IsKey(key) {
        var (value, rest') := Strtok(rest);
        if value.None? {
          return Undefined;
        }
        var n := Atoi(value.value);
        if n.None? {
          return Undefined;
        }
        assert ([tok.value] + Tokens(rest))[2..] == Tokens(rest');
        f := Assign(f, key, n.value);
        rest := rest';
      }
      var (tok', rest'') := Strtok(rest);
      tok, rest := tok', rest'';
    }
    return Parsed(f);
  }

  // ---- texts made of fields ---------------------------------------------------------------

  datatype Field = Field(key: char, value: int)

  predicate Keyed(fs: seq<Field>) {
    forall i :: 0 <= i < |fs| ==> IsKey(fs[i].key)
  }

  /** Every value fits an int. */
  predicate Fit(fs: seq<Field>) {
    forall i :: 0 <= i < |fs| ==> -2147483648 <= fs[i].value <= 2147483647
  }

  function FieldTokens(fs: seq<Field>): seq<string>
    decreases |fs|
  {
    if fs == [] then [] else [[fs[0].key], PrintInt(fs[0].value)] + FieldTokens(fs[1..])
  }

  function AssignAll(f: Fields, fs: seq<Field>): Fields
    decreases |fs|
  {
    if fs == [] then f else AssignAll(Assign(f, fs[0].key, fs[0].value), fs[1..])
  }

  predicate AllDelims(s: string) {
    forall i :: 0 <= i < |s| ==> IsDelim(s[i])
  }

  predicate IsToken(s: string) {
    s != "" && forall i :: 0 <= i < |s| ==> !IsDelim(s[i])
  }

  /** A text: tokens with runs of delimiters before, between and after them. */
  predicate Spellable(toks: seq<string>, gaps: seq<string>) {
    && |gaps| == |toks| + 1
    && (forall i :: 0 <= i < |toks| ==> IsToken(toks[i]))
    && (forall i :: 0 <= i < |gaps| ==> AllDelims(gaps[i]))
    && (forall i :: 0 < i < |toks| ==> gaps[i] != "")
  }

  function Spell(toks: seq<string>, gaps: seq<string>): string
    requires |gaps| == |toks| + 1
  {
    if toks == [] then gaps[0] else gaps[0] + toks[0] + Spell(toks[1..], gaps[1..])
  }

  lemma {:induction false} SkipRun(d: string, s: string)
    requires AllDelims(d) && (s == "" || !IsDelim(s[0]))
    ensures SkipDelims(d + s) == s
  {
    if d == "" {
      assert d + s == s;
    } else {
      assert (d + s)[1..] == d[1..] + s;
      SkipRun(d[1..], s);
    }
  }

  lemma {:induction false} TokenLengthOf(t: string, s: string)
    requires IsToken(t) && (s == "" || IsDelim(s[0]))
    ensures TokenLength(t + s) == |t|
  {
    assert (t + s)[1..] == t[1..] + s;
    if |t| > 1 {
      TokenLengthOf(t[1..], s);
    } else {
      assert t[1..] + s == s;
    }
  }

  lemma DropDelim(s: string)
    requires s != "" && IsDelim(s[0])
    ensures Tokens(s) == Tokens(s[1..])
  {
  }

  lemma TokenThenRest(d: string, t: string, s: string)
    requires AllDelims(d) && IsToken(t) && (s == "" || IsDelim(s[0]))
    ensures Tokens(d + t + s) == [t] + Tokens(s)
  {
    assert d + t + s == d + (t + s);
    SkipRun(d, t + s);
    TokenLengthOf(t, s);
    assert (t + s)[..|t|] == t;
    if s != "" {
      assert (t + s)[|t| + 1..] == s[1..];
      DropDelim(s);
    }
  }

  /** Tokenizing finds exactly the tokens, whatever the runs of delimiters around them. */
  lemma {:induction false} TokensOfSpelling(toks: seq<string>, gaps: seq<string>)
    requires Spellable(toks, gaps)
    ensures Tokens(Spell(toks, gaps)) == toks
  {
    if toks == [] {
      SkipRun(gaps[0], "");
      assert gaps[0] + "" == gaps[0];
    } else {
      TokensOfSpelling(toks[1..], gaps[1..]);
      var rest := Spell(toks[1..], gaps[1..]);
      assert gaps[1..][0] == gaps[1];
      TokenThenRest(gaps[0], toks[0], rest);
    }
  }

  lemma {:induction false} FieldTokensAre(fs: seq<Field>)
    requires Keyed(fs)
    ensures |FieldTokens(fs)| == 2 * |fs|
    ensures forall i :: 0 <= i < |FieldTokens(fs)| ==> IsToken(FieldTokens(fs)[i])
  {
    if fs != [] {
      FieldTokensAre(fs[1..]);
      var v := fs[0].value;
      PrintNatDigits(if v >= 0 then v else -v);
    }
  }

  /** A text of fields parses exactly when every value fits an int, and then assigns the fields in order. */
  lemma {:induction false} InterpretFields(fs: seq<Field>, f: Fields)
    requires Keyed(fs)
    ensures Interpret(FieldTokens(fs), f) == if Fit(fs) then Parsed(AssignAll(f, fs)) else Undefined
  {
    if fs != [] {
      var toks := FieldTokens(fs);
      AtoiPrint(fs[0].value);
      assert toks[2..] == FieldTokens(fs[1..]);
      InterpretFields(fs[1..], Assign(f, fs[0].key, fs[0].value));
      assert Fit(fs) ==> Fit(fs[1..]);
      if Fit(fs[1..]) && -TWO_31 <= fs[0].value < TWO_31 {
        assert forall i :: 0 < i < |fs| ==> fs[i] == fs[1..][i - 1];
        assert Fit(fs);
      }
    }
  }

  lemma ParseSpelledFields(fs: seq<Field>, gaps: seq<string>, f: Fields)
    requires Keyed(fs) && Spellable(FieldTokens(fs), gaps)
    ensures Parse(Spell(FieldTokens(fs), gaps), f) == if Fit(fs) then Parsed(AssignAll(f, fs)) else Undefined
  {
    TokensOfSpelling(FieldTokens(fs), gaps);
    InterpretFields(fs, f);
  }

  // ---- the last field with a key wins -----------------------------------------------------

  function Get(f: Fields, key: char): Option<int>
    requires IsKey(key)
  {
    if key == 'm' then Some(f.mode) else if key == 'u' then Some(f.uid) else if key == 'g' then Some(f.gid) else f.time
  }

  /** How a value is stored: three of the fields are unsigned. */
  function Coerce(key: char, n: int): int {
    if key == 't' then n else ToUint32(n)
  }

  predicate IsLast(fs: seq<Field>, key: char, i: int) {
    0 <= i < |fs| && fs[i].key == key && forall j :: i < j < |fs| ==> fs[j].key != key
  }

  predicate Lacks(fs: seq<Field>, key: char) {
    forall j :: 0 <= j < |fs| ==> fs[j].key != key
  }

  /** Each field ends up with the value of the last entry for its key, or keeps its default. */
  lemma {:induction false} LastWins(fs: seq<Field>, f: Fields, key: char)
    requires Keyed(fs) && IsKey(key)
    ensures Lacks(fs, key) ==> Get(AssignAll(f, fs), key) == Get(f, key)
    ensures forall i :: IsLast(fs, key, i) ==> Get(AssignAll(f, fs), key) == Some(Coerce(key, fs[i].value))
  {
    if fs != [] {
      var f' := Assign(f, fs[0].key, fs[0].value);
      LastWins(fs[1..], f', key);
      forall i | IsLast(fs, key, i)
        ensures Get(AssignAll(f, fs), key) == Some(Coerce(key, fs[i].value))
      {
        if i == 0 {
          assert Lacks(fs[1..], key);
        } else {
          assert IsLast(fs[1..], key, i - 1);
        }
      }
    }
  }

  predicate DistinctKeys(fs: seq<Field>) {
    forall i, j :: 0 <= i < j < |fs| ==> fs[i].key != fs[j].key
  }

  /** Field order and the number of delimiters do not matter when every key occurs once. */
  lemma OrderIndependent(fs: seq<Field>, gs: seq<Field>, gapsF: seq<string>, gapsG: seq<string>, f: Fields)
    requires Keyed(fs) && Keyed(gs) && DistinctKeys(fs) && DistinctKeys(gs) && multiset(fs) == multiset(gs)
    requires Spellable(FieldTokens(fs), gapsF) && Spellable(FieldTokens(gs), gapsG)
    ensures Parse(Spell(FieldTokens(fs), gapsF), f) == Parse(Spell(FieldTokens(gs), gapsG), f)
  {
    ParseSpelledFields(fs, gapsF, f);
    ParseSpelledFields(gs, gapsG, f);
    SameMembers(fs, gs);
    forall key | IsKey(key)
      ensures Get(AssignAll(f, fs), key) == Get(AssignAll(f, gs), key)
    {
      LastWins(fs, f, key);
      LastWins(gs, f, key);
      SameEntry(fs, gs, key);
    }
    var r, t := AssignAll(f, fs), AssignAll(f, gs);
    assert Get(r, 'm') == Get(t, 'm') && Get(r, 'u') == Get(t, 'u');
    assert Get(r, 'g') == Get(t, 'g') && Get(r, 't') == Get(t, 't');
  }

  lemma SameMembers(fs: seq<Field>, gs: seq<Field>)
    requires multiset(fs) == multiset(gs)
    ensures forall x :: x in fs <==> x in gs
    ensures Fit(fs) <==> Fit(gs)
  {
    forall x
      ensures x in fs <==> x in gs
    {
      assert x in fs <==> x in multiset(fs);
      assert x in gs <==> x in multiset(gs);
    }
    assert Fit(fs) <==> forall x :: x in fs ==> -TWO_31 <= x.value < TWO_31;
    assert Fit(gs) <==> forall x :: x in gs ==> -TWO_31 <= x.value < TWO_31;
  }

  lemma SameEntry(fs: seq<Field>, gs: seq<Field>, key: char)
    requires DistinctKeys(fs) && DistinctKeys(gs) && forall x :: x in fs <==> x in gs
    ensures (Lacks(fs, key) && Lacks(gs, key))
         || exists i, j :: IsLast(fs, key, i) && IsLast(gs, key, j) && fs[i] == gs[j]
  {
    if !Lacks(fs, key) {
      var i :| 0 <= i < |fs| && fs[i].key == key;
      assert fs[i] in gs;
      var j :| 0 <= j < |gs| && gs[j] == fs[i];
      assert IsLast(fs, key, i) && IsLast(gs, key, j);
    } else {
      forall j | 0 <= j < |gs|
        ensures gs[j].key != key
      {
        assert gs[j] in gs;
      }
    }
  }

  // ---- the round trip ---------------------------------------------------------------------

  function FieldsOf(m: Meta): seq<Field> {
    [Field('m', m.mode), Field('u', m.uid), Field('g', m.gid), Field('t', m.time)]
  }

  lemma PrintIsSpelling(m: Meta)
    requires Typed(m)
    ensures Spellable(FieldTokens(FieldsOf(m)), ["", ":", "|", ":", "|", ":", "|", ":", ""])
    ensures Print(m) == Spell(FieldTokens(FieldsOf(m)), ["", ":", "|", ":", "|", ":", "|", ":", ""])
  {
    hide Spell, PrintInt, PrintNat, FieldTokens;
    FieldTokensAre(FieldsOf(m));
    FieldTokensOfFour(m);
    SpellFour(PrintInt(m.mode), PrintInt(m.uid), PrintInt(m.gid), PrintInt(m.time));
    PrintTyped(m);
  }

  lemma PrintTyped(m: Meta)
    requires Typed(m)
    ensures Print(m)
         == "m:" + PrintInt(m.mode) + "|u:" + PrintInt(m.uid) + "|g:" + PrintInt(m.gid) + "|t:" + PrintInt(m.time)
  {
    assert ToUint32(m.mode) == m.mode && ToUint32(m.uid) == m.uid && ToUint32(m.gid) == m.gid;
    hide PrintNat, ToUint32;
  }

  lemma FieldTokensOfFour(m: Meta)
    ensures FieldTokens(FieldsOf(m))
         == ["m", PrintInt(m.mode), "u", PrintInt(m.uid), "g", PrintInt(m.gid), "t", PrintInt(m.time)]
  {
    var fs := FieldsOf(m);
    assert fs[1..] == [Field('u', m.uid), Field('g', m.gid), Field('t', m.time)];
    assert fs[1..][1..] == [Field('g', m.gid), Field('t', m.time)];
    assert fs[1..][1..][1..] == [Field('t', m.time)];
    assert fs[1..][1..][1..][1..] == [];
    assert FieldTokens(fs[1..][1..][1..]) == ["t", PrintInt(m.time)];
    assert FieldTokens(fs[1..][1..]) == ["g", PrintInt(m.gid), "t", PrintInt(m.time)];
  }

  lemma SpellFour(a: string, b: string, c: string, d: string)
    ensures Spell(["m", a, "u", b, "g", c, "t", d], ["", ":", "|", ":", "|", ":", "|", ":", ""])
         == "m:" + a + "|u:" + b + "|g:" + c + "|t:" + d
  {
    hide Spell;
    SpellNone();
    SpellTwo("|", "t", ":", d, [], [""]);
    SpellTwo("|", "g", ":", c, ["t", d], ["|", ":", ""]);
    SpellTwo("|", "u", ":", b, ["g", c, "t", d], ["|", ":", "|", ":", ""]);
    SpellTwo("", "m", ":", a, ["u", b, "g", c, "t", d], ["|", ":", "|", ":", "|", ":", ""]);
    assert ["m", a] + ["u", b, "g", c, "t", d] == ["m", a, "u", b, "g", c, "t", d];
    assert ["u", b] + ["g", c, "t", d] == ["u", b, "g", c, "t", d];
    assert ["g", c] + ["t", d] == ["g", c, "t", d];
    assert ["t", d] + [] == ["t", d];
    assert ["", ":"] + ["|", ":", "|", ":", "|", ":", ""] == ["", ":", "|", ":", "|", ":", "|", ":", ""];
    assert ["|", ":"] + ["|", ":", "|", ":", ""] == ["|", ":", "|", ":", "|", ":", ""];
    assert ["|", ":"] + ["|", ":", ""] == ["|", ":", "|", ":", ""];
    assert ["|", ":"] + [""] == ["|", ":", ""];
    Reassociate(a, b, c, d);
  }

  lemma Reassociate(a: string, b: string, c: string, d: string)
    ensures "" + "m" + ":" + a + ("|" + "u" + ":" + b + ("|" + "g" + ":" + c + ("|" + "t" + ":" + d + "")))
         == "m:" + a + "|u:" + b + "|g:" + c + "|t:" + d
  {
    var x := "" + "m" + ":" + a + ("|" + "u" + ":" + b + ("|" + "g" + ":" + c + ("|" + "t" + ":" + d + "")));
    var y := "m:" + a + "|u:" + b + "|g:" + c + "|t:" + d;
    assert |x| == |y|;
    assert forall i :: 0 <= i < |x| ==> x[i] == y[i];
  }

  lemma SpellNone()
    ensures Spell([], [""]) == ""
  {
  }

  lemma SpellOne(gap: string, tok: string, toks: seq<string>, gaps: seq<string>)
    requires |gaps| == |toks| + 1
    ensures Spell([tok] + toks, [gap] + gaps) == gap + tok + Spell(toks, gaps)
  {
    assert ([tok] + toks)[1..] == toks && ([gap] + gaps)[1..] == gaps;
  }

  lemma SpellTwo(gap: string, key: string, colon: string, value: string, toks: seq<string>, gaps: seq<string>)
    requires |gaps| == |toks| + 1
    ensures Spell([key, value] + toks, [gap, colon] + gaps) == gap + key + colon + value + Spell(toks, gaps)
  {
    hide Spell;
    SpellOne(colon, value, toks, gaps);
    SpellOne(gap, key, [value] + toks, [colon] + gaps);
    assert [key, value] + toks == [key] + ([value] + toks) && [gap, colon] + gaps == [gap] + ([colon] + gaps);
  }

  /** The codec round trip holds exactly for values that fit a C int. */
  lemma RoundTripIffInRange(m: Meta, uid: nat, gid: nat)
    requires Typed(m)
    ensures Parse(Print(m), Defaults(uid, gid)) == Parsed(Fields(m.mode, m.uid, m.gid, Some(m.time))) <==> InRange(m)
    ensures !InRange(m) ==> Parse(Print(m), Defaults(uid, gid)) == Undefined
  {
    var fs := FieldsOf(m);
    PrintIsSpelling(m);
    ParseSpelledFields(fs, ["", ":", "|", ":", "|", ":", "|", ":", ""], Defaults(uid, gid));
    assert Fit(fs) <==> InRange(m) by {
      assert fs[0].value == m.mode && fs[1].value == m.uid && fs[2].value == m.gid && fs[3].value == m.time;
    }
    assert fs[1..][1..][1..] == [fs[3]];
    AssignFour(m, Defaults(uid, gid));
  }

  lemma AssignFour(m: Meta, f: Fields)
    requires Typed(m)
    ensures AssignAll(f, FieldsOf(m)) == Fields(m.mode, m.uid, m.gid, Some(m.time))
  {
    var fs := FieldsOf(m);
    assert fs[1..] == [Field('u', m.uid), Field('g', m.gid), Field('t', m.time)];
    assert fs[1..][1..] == [Field('g', m.gid), Field('t', m.time)];
    assert fs[1..][1..][1..] == [Field('t', m.time)];
    assert fs[1..][1..][1..][1..] == [];
    var f1 := Assign(f, 'm', m.mode);
    var f2 := Assign(f1, 'u', m.uid);
    var f3 := Assign(f2, 'g', m.gid);
    assert AssignAll(f2, fs[1..][1..]) == AssignAll(f3, fs[1..][1..][1..]);
  }

  // ---- texts the program did not print ----------------------------------------------------

  /** Only colons and bars separate tokens. */
  lemma OneToken(s: string)
    requires s != "" && ':' !in s && '|' !in s
    ensures Tokens(s) == [s]
  {
    TokenThenRest("", s, "");
    assert "" + s + "" == s;
  }

  predicate StartsWithKey(tok: string) {
    tok != "" && tok[0] in {'m', 'u', 'g', 't'}
  }

  lemma {:induction false} KeylessTokens(toks: seq<string>, f: Fields)
    requires forall i :: 0 <= i < |toks| ==> !StartsWithKey(toks[i])
    ensures Interpret(toks, f) == Parsed(f)
  {
    if toks != [] {
      KeylessTokens(toks[1..], f);
    }
  }

  /** A content type some other program wrote: without a token that starts like a field it reads as a plain file of mode 0644
      with the configured owner and no time; if it is one token that does, such as text/plain, nothing is defined. */
  lemma ForeignText(s: string, uid: nat, gid: nat)
    ensures (forall i :: 0 <= i < |Tokens(s)| ==> !StartsWithKey(Tokens(s)[i])) ==>
              Parse(s, Defaults(uid, gid)) == Parsed(Fields(0x81A4, uid, gid, None))
    ensures ':' !in s && '|' !in s && StartsWithKey(s) ==> Parse(s, Defaults(uid, gid)) == Undefined
  {
    if forall i :: 0 <= i < |Tokens(s)| ==> !StartsWithKey(Tokens(s)[i]) {
      KeylessTokens(Tokens(s), Defaults(uid, gid));
    }
    if ':' !in s && '|' !in s && StartsWithKey(s) {
      OneToken(s);
    }
  }

  /** The text that the parser's comment gives as an example. */
  lemma PrintExample()
    ensures Print(Meta(16877, 0, 0, 1321927291)) == "m:16877|u:0|g:0|t:1321927291"
  {
    hide PrintNat;
    ModeDigits();
    TimeDigits();
    Small(0);
    assert ToUint32(16877) == 16877 && ToUint32(0) == 0;
  }

  lemma ModeDigits()
    ensures PrintNat(16877) == "16877"
  {
    hide PrintNat;
    Small(1);
    PrintDigits(1, 6);
    PrintDigits(16, 8);
    PrintDigits(168, 7);
    PrintDigits(1687, 7);
  }

  lemma TimeDigits()
    ensures PrintNat(1321927291) == "1321927291"
  {
    hide PrintNat;
    Small(1);
    PrintDigits(1, 3);
    PrintDigits(13, 2);
    PrintDigits(132, 1);
    PrintDigits(1321, 9);
    PrintDigits(13219, 2);
    PrintDigits(132192, 7);
    PrintDigits(1321927, 2);
    PrintDigits(13219272, 9);
    PrintDigits(132192729, 1);
  }

  lemma PrintDigits(n: nat, d: nat)
    requires n > 0 && d < 10
    ensures PrintNat(n * 10 + d) == PrintNat(n) + ["0123456789"[d]]
  {
  }

  lemma Small(d: nat)
    requires d < 10
    ensures PrintNat(d) == ["0123456789"[d]]
  {
  }

  // ---- reading a printed text back --------------------------------------------------------

  /** The four values a text holds, whether or not they fit an int; meaningful for printed texts only. */
  function MetaOf(text: string): Meta {
    var toks := Tokens(text);
    if |toks| == 8 then Meta(Number(toks[1]), Number(toks[3]), Number(toks[5]), Number(toks[7])) else Meta(0, 0, 0, 0)
  }

  /** The text is the printer's image of four values. */
  predicate Printed(text: string) {
    Typed(MetaOf(text)) && text == Print(MetaOf(text))
  }

  lemma PrintedPrint(m: Meta)
    requires Typed(m)
    ensures MetaOf(Print(m)) == m && Printed(Print(m))
  {
    hide Tokens, Print, PrintInt, Number, Spell, Spellable;
    PrintIsSpelling(m);
    FieldTokensOfFour(m);
    TokensOfSpelling(FieldTokens(FieldsOf(m)), ["", ":", "|", ":", "|", ":", "|", ":", ""]);
    NumberPrint(m.mode);
    NumberPrint(m.uid);
    NumberPrint(m.gid);
    NumberPrint(m.time);
  }

  /** On printed texts the parser never falls back on a default and never leaves the time unset; what it needs is that
      the four values fit an int. */
  lemma ParsePrinted(text: string, uid: nat, gid: nat)
    requires Printed(text)
    ensures
      var m := MetaOf(text);
      Parse(text, Defaults(uid, gid)) == if InRange(m) then Parsed(Fields(m.mode, m.uid, m.gid, Some(m.time))) else Undefined
  {
    RoundTripIffInRange(MetaOf(text), uid, gid);
  }
}
