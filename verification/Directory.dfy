/** Directory::list and isEmpty: a regular-expression query over all versions, duplicates removed. */
module Directory {
  import opened CTypes
  import opened ContentType
  import opened GridStore
  import opened Decimal
  import opened Regex
  import opened PathRegex

  /** The cursor of gridfs().list(query): the file name of every version that matches, in the collection's order. */
  function Query(docs: seq<Doc>, pattern: string): seq<string> {
    if docs == [] then [] else
    var d := docs[|docs| - 1];
    Query(docs[..|docs| - 1], pattern) + if Matches(pattern, d.name) then [d.name] else []
  }

  function Dedup(names: seq<string>): seq<string> {
    if names == [] then [] else
    var front, last := names[..|names| - 1], names[|names| - 1];
    if last in front then Dedup(front) else Dedup(front) + [last]
  }

  /** substr(pos) throws when the name is shorter than pos. */
  function Suffixes(names: seq<string>, pos: nat): Option<seq<string>> {
    if names == [] then Some([]) else
    var front, last := names[..|names| - 1], names[|names| - 1];
    var r := Suffixes(front, pos);
    if r.None? || |last| < pos then None else Some(r.value + [last[pos..]])
  }

  /** What readdir hands to the filler; None when the loop throws. */
  function Listing(docs: seq<Doc>, path: string): Option<seq<string>> {
    var r := Suffixes(Dedup(Query(docs, Pattern(path))), |path| + 1);
    if r.None? then None else Some([".", ".."] + r.value)
  }

  predicate IsEmpty(docs: seq<Doc>, path: string) {
    Query(docs, Pattern(path)) == []
  }

  /** Directory::list(buf, filler) over an open cursor. */
  method List(cursor: seq<string>, path: string) returns (filled: Option<seq<string>>)
    ensures filled == match Suffixes(Dedup(cursor), |path| + 1)
                      case None => None
                      case Some(names) => Some([".", ".."] + names)
  {
    var pos := |path| + 1;
    var entries: set<string> := {};
    var out := [".", ".."];
    for i := 0 to |cursor|
      invariant forall x :: x in entries <==> x in cursor[..i]
      invariant Suffixes(Dedup(cursor[..i]), pos).Some?
      invariant out == [".", ".."] + Suffixes(Dedup(cursor[..i]), pos).value
    {
      var name := cursor[i];
      assert cursor[..i + 1][..i] == cursor[..i];
      if name !in entries {
        entries := entries + {name};
        DedupSuffix(cursor[..i], name, pos);
        if |name| < pos {
          ThrowsFrom(cursor, i + 1, pos);
          return None;
        }
        out := out + [name[pos..]];
      }
    }
    assert cursor[..|cursor|] == cursor;
    return Some(out);
  }

  lemma DedupSuffix(front: seq<string>, name: string, pos: nat)
    requires name !in front
    ensures Dedup(front + [name]) == Dedup(front) + [name]
    ensures Suffixes(Dedup(front + [name]), pos)
         == if Suffixes(Dedup(front), pos).None? || |name| < pos then None
            else Some(Suffixes(Dedup(front), pos).value + [name[pos..]])
  {
    assert (front + [name])[..|front|] == front;
    assert (Dedup(front) + [name])[..|Dedup(front)|] == Dedup(front);
  }

  lemma {:induction false} ThrowsFrom(cursor: seq<string>, i: nat, pos: nat)
    requires i <= |cursor| && Suffixes(Dedup(cursor[..i]), pos).None?
    ensures Suffixes(Dedup(cursor), pos).None?
    decreases |cursor| - i
  {
    if i == |cursor| {
      assert cursor[..i] == cursor;
    } else {
      var front, name := cursor[..i], cursor[i];
      assert cursor[..i + 1] == front + [name];
      if name !in front {
        DedupSuffix(front, name, pos);
      } else {
        assert (front + [name])[..i] == front;
      }
      ThrowsFrom(cursor, i + 1, pos);
    }
  }

  // ---- what a listing shows ---------------------------------------------------------------

  lemma {:induction false} QueryMembers(docs: seq<Doc>, pattern: string)
    ensures forall x :: x in Query(docs, pattern) <==> Matches(pattern, x) && exists d :: d in docs && d.name == x
  {
    if docs != [] {
      var front, last := docs[..|docs| - 1], docs[|docs| - 1];
      QueryMembers(front, pattern);
      assert forall d :: d in docs <==> d in front || d == last;
    }
  }

  predicate NoDuplicates(xs: seq<string>) {
    forall i, j :: 0 <= i < j < |xs| ==> xs[i] != xs[j]
  }

  lemma {:induction false} DedupKeeps(names: seq<string>)
    ensures NoDuplicates(Dedup(names))
    ensures forall x :: x in Dedup(names) <==> x in names
  {
    if names != [] {
      var front, last := names[..|names| - 1], names[|names| - 1];
      DedupKeeps(front);
      assert names == front + [last];
    }
  }

  lemma {:induction false} SuffixesOfChildren(names: seq<string>, path: string)
    requires NoDuplicates(names) && forall x :: x in names ==> IsChild(path, x)
    ensures
      var r := Suffixes(names, |path| + 1);
      && r.Some? && |r.value| == |names| && NoDuplicates(r.value)
      && forall i :: 0 <= i < |names| ==> names[i] == path + "/" + r.value[i] && '/' !in r.value[i]
  {
    if names != [] {
      var front, last := names[..|names| - 1], names[|names| - 1];
      assert names == front + [last];
      SuffixesOfChildren(front, path);
      assert IsChild(path, last);
      assert last == path + "/" + last[|path| + 1..];
    }
  }

  lemma LiveIffNamed(s: Store, name: string)
    ensures Live(s, name) <==> exists d :: d in s.docs && d.name == name
  {
    NewestIn(s.docs, name);
  }

  /** The listing shows ".", "..", and then the last component of each live child exactly once. */
  ghost predicate ListingRight(s: Store, path: string) {
    var r := Listing(s.docs, path);
    && r.Some? && |r.value| >= 2 && r.value[..2] == [".", ".."]
    && NoDuplicates(r.value[2..])
    && forall n :: n in r.value[2..] <==> '/' !in n && Live(s, path + "/" + n)
  }

  /** No live path is a child. */
  ghost predicate NoLiveChild(s: Store, path: string) {
    forall x :: IsChild(path, x) ==> !Live(s, x)
  }

  /** readdir shows each live child once, however many versions it has. */
  lemma ListingIsChildren(s: Store, path: string)
    requires !HasRepeat(path)
    ensures ListingRight(s, path)
  {
    var cursor := Query(s.docs, Pattern(path));
    var names := Dedup(cursor);
    QueryMembers(s.docs, Pattern(path));
    DedupKeeps(cursor);
    forall x
      ensures x in names <==> IsChild(path, x) && Live(s, x)
    {
      PlainMatches(path, x);
      LiveIffNamed(s, x);
    }
    SuffixesOfChildren(names, path);
    var out := Suffixes(names, |path| + 1).value;
    assert ([".", ".."] + out)[2..] == out;
    forall n
      ensures n in out <==> '/' !in n && Live(s, path + "/" + n)
    {
      var x := path + "/" + n;
      assert x[|path| + 1..] == n;
      if n in out {
        var i :| 0 <= i < |out| && out[i] == n;
        assert names[i] == x;
      }
      if '/' !in n && Live(s, x) {
        assert IsChild(path, x) && x in names;
        var i :| 0 <= i < |names| && names[i] == x;
        assert names[i] == path + "/" + out[i];
        assert out[i] == (path + "/" + out[i])[|path| + 1..];
      }
    }
  }

  /** A directory counts as empty exactly when no live path is its child. */
  lemma EmptyIffNoChild(s: Store, path: string)
    requires !HasRepeat(path)
    ensures IsEmpty(s.docs, path) <==> NoLiveChild(s, path)
  {
    var cursor := Query(s.docs, Pattern(path));
    QueryMembers(s.docs, Pattern(path));
    forall x
      ensures x in cursor <==> IsChild(path, x) && Live(s, x)
    {
      PlainMatches(path, x);
      LiveIffNamed(s, x);
    }
    if cursor != [] {
      assert cursor[0] in cursor;
    }
  }

  // ---- exactly when the two are right -----------------------------------------------------

  lemma {:induction false} SuffixesAt(names: seq<string>, pos: nat)
    requires Suffixes(names, pos).Some?
    ensures |Suffixes(names, pos).value| == |names|
    ensures forall i :: 0 <= i < |names| ==> |names[i]| >= pos && Suffixes(names, pos).value[i] == names[i][pos..]
  {
    if names != [] {
      SuffixesAt(names[..|names| - 1], pos);
    }
  }

  /** A store that holds a path and one more. */
  function TwoPaths(path: string, x: string, cs: nat): Store
    requires cs > 0
  {
    var text := Print(Meta(0, 0, 0, 0));
    StoreFile(StoreFile(EMPTY, "", path, text, cs), "", x, text, cs)
  }

  lemma TwoPathsLive(path: string, x: string, cs: nat)
    requires cs > 0
    ensures StoreOk(cs, TwoPaths(path, x, cs))
    ensures forall q :: Live(TwoPaths(path, x, cs), q) <==> q == path || q == x
  {
    hide Print, Printed, Typed;
    var text := Print(Meta(0, 0, 0, 0));
    assert Printed(text) by { ZeroPrinted(); }
    var s1 := StoreFile(EMPTY, "", path, text, cs);
    StoreFileOk(cs, EMPTY, "", path, text);
    StoreFileOk(cs, s1, "", x, text);
    var s := TwoPaths(path, x, cs);
    forall q
      ensures Live(s, q) <==> q == path || q == x
    {
      LiveIffNamed(s, q);
    }
  }

  lemma ZeroPrinted()
    ensures Printed(Print(Meta(0, 0, 0, 0)))
  {
    PrintedPrint(Meta(0, 0, 0, 0));
  }

  lemma {:induction false} NothingFound(docs: seq<Doc>, pattern: string)
    requires Compile(pattern).None?
    ensures Query(docs, pattern) == []
  {
    if docs != [] {
      NothingFound(docs[..|docs| - 1], pattern);
    }
  }

  /** With a counted repeat in the path, a store with the directory and one other file shows both answers wrong. */
  lemma RepeatMisleads(path: string, cs: nat) returns (s: Store)
    requires cs > 0 && HasRepeat(path)
    ensures StoreOk(cs, s) && Live(s, path)
    ensures IsEmpty(s.docs, path) != NoLiveChild(s, path)
    ensures !ListingRight(s, path)
  {
    hide HasRepeat, Compile, Pattern, SeqDenotes, TwoPaths, StoreOk, Live;
    RepeatBreaks(path);
    var x;
    if Compile(Pattern(path)).None? {
      x := path + "/x";
      assert x == path + "/" + "x" && IsChild(path, x);
    } else {
      x :| Matches(Pattern(path), x) && !IsChild(path, x);
    }
    s := TwoPaths(path, x, cs);
    TwoPathsLive(path, x, cs);
    var cursor := Query(s.docs, Pattern(path));
    QueryMembers(s.docs, Pattern(path));
    if Compile(Pattern(path)).None? {
      NothingFound(s.docs, Pattern(path));
    } else {
      LiveIffNamed(s, x);
      assert x in cursor;
      MisledListing(s, path, x);
    }
  }

  lemma NotShownRight(s: Store, path: string, x: string, n: string)
    requires !IsChild(path, x) && forall q :: Live(s, q) ==> q == path || q == x
    ensures '/' in n || !Live(s, path + "/" + n)
  {
    hide Live;
    assert (path + "/" + n)[|path| + 1..] == n;
    assert |path + "/" + n| > |path|;
  }

  lemma MisledListing(s: Store, path: string, x: string)
    requires x in Query(s.docs, Pattern(path)) && !IsChild(path, x)
    requires forall q :: Live(s, q) ==> q == path || q == x
    ensures !ListingRight(s, path)
  {
    hide Live, Pattern, Query, Suffixes, Dedup, NoDuplicates, IsChild;
    var names := Dedup(Query(s.docs, Pattern(path)));
    DedupKeeps(Query(s.docs, Pattern(path)));
    if Suffixes(names, |path| + 1).Some? {
      SuffixesAt(names, |path| + 1);
      var out := Suffixes(names, |path| + 1).value;
      assert ([".", ".."] + out)[2..] == out;
      var i :| 0 <= i < |names| && names[i] == x;
      assert out[i] in out;
      NotShownRight(s, path, x, out[i]);
    }
  }

  /** isEmpty is right for every store that holds the directory if and only if its path has no counted repeat. */
  lemma EmptyRightIff(path: string, cs: nat)
    requires cs > 0
    ensures
      (forall s: Store :: StoreOk(cs, s) && Live(s, path) ==> (IsEmpty(s.docs, path) <==> NoLiveChild(s, path)))
      <==> !HasRepeat(path)
  {
    hide HasRepeat, StoreOk, Live, IsEmpty, NoLiveChild;
    if HasRepeat(path) {
      var s := RepeatMisleads(path, cs);
    } else {
      forall s: Store
        ensures IsEmpty(s.docs, path) <==> NoLiveChild(s, path)
      {
        EmptyIffNoChild(s, path);
      }
    }
  }

  /** And so is the listing. */
  lemma ListingRightIff(path: string, cs: nat)
    requires cs > 0
    ensures (forall s: Store :: StoreOk(cs, s) && Live(s, path) ==> ListingRight(s, path)) <==> !HasRepeat(path)
  {
    hide HasRepeat, StoreOk, Live, ListingRight;
    if HasRepeat(path) {
      var s := RepeatMisleads(path, cs);
    } else {
      forall s: Store
        ensures ListingRight(s, path)
      {
        ListingIsChildren(s, path);
      }
    }
  }

  /** A directory with one character repeated {n} times in its path counts as empty exactly when another directory is: the
      one in whose path the character stands n times. */
  lemma CountedEmptyIff(s: Store, p: string, c: char, a: string, q: string)
    requires '{' !in p && c != '{' && '{' !in q && Numeral(a) && Digits(a, 0) <= 65535
    ensures IsEmpty(s.docs, p + [c] + "{" + a + "}" + q) <==> NoLiveChild(s, p + Times([c], Digits(a, 0)) + q)
  {
    hide Digits, Times, Pattern, Live, IsChild, Matches;
    var path, other := p + [c] + "{" + a + "}" + q, p + Times([c], Digits(a, 0)) + q;
    var cursor := Query(s.docs, Pattern(path));
    QueryMembers(s.docs, Pattern(path));
    forall x
      ensures x in cursor <==> IsChild(other, x) && Live(s, x)
    {
      CountedPathMatches(p, c, a, q, x);
      LiveIffNamed(s, x);
    }
    if cursor != [] {
      assert cursor[0] in cursor;
    }
  }

  lemma {:induction false} SuffixesThrow(names: seq<string>, pos: nat)
    ensures Suffixes(names, pos).None? <==> exists x :: x in names && |x| < pos
  {
    if names != [] {
      var front, last := names[..|names| - 1], names[|names| - 1];
      SuffixesThrow(front, pos);
      assert names == front + [last];
    }
  }

  /** Listing such a directory throws exactly when the other one has a child that is too short to be cut. */
  lemma CountedListingThrows(s: Store, p: string, c: char, a: string, q: string)
    requires '{' !in p && c != '{' && '{' !in q && Numeral(a) && Digits(a, 0) <= 65535
    ensures
      var path, other := p + [c] + "{" + a + "}" + q, p + Times([c], Digits(a, 0)) + q;
      Listing(s.docs, path).None? <==> exists x :: IsChild(other, x) && Live(s, x) && |x| <= |path|
  {
    hide Digits, Times, Pattern, Live, IsChild, Matches, Suffixes, Dedup, Query, NoDuplicates;
    var path, other := p + [c] + "{" + a + "}" + q, p + Times([c], Digits(a, 0)) + q;
    var cursor := Query(s.docs, Pattern(path));
    QueryMembers(s.docs, Pattern(path));
    DedupKeeps(cursor);
    SuffixesThrow(Dedup(cursor), |path| + 1);
    forall x
      ensures x in Dedup(cursor) <==> IsChild(other, x) && Live(s, x)
    {
      CountedPathMatches(p, c, a, q, x);
      LiveIffNamed(s, x);
    }
  }

  /** The query of "/d{2}" finds "/dd/x" and not "/d{2}/x", so that with only the latter stored the directory counts as
      empty. */
  lemma CountedExample(cs: nat)
    requires cs > 0
    ensures Matches(Pattern("/d{2}"), "/dd/x") && !Matches(Pattern("/d{2}"), "/d{2}/x")
    ensures
      var s := TwoPaths("/d{2}", "/d{2}/x", cs);
      Live(s, "/d{2}/x") && IsChild("/d{2}", "/d{2}/x") && IsEmpty(s.docs, "/d{2}")
  {
    hide Pattern, Matches, TwoPaths, Live, IsEmpty, Query;
    var s := TwoPaths("/d{2}", "/d{2}/x", cs);
    TwoPathsLive("/d{2}", "/d{2}/x", cs);
    assert Digits("2", 0) == 2;
    assert Times("d", 2) == "dd" by {
      assert Times("d", 1) == "d" + Times("d", 0);
    }
    assert "/" + "d" + "{" + "2" + "}" + "" == "/d{2}" && "/" + "dd" + "" == "/dd";
    CountedPathMatches("/", 'd', "2", "", "/dd/x");
    CountedPathMatches("/", 'd', "2", "", "/d{2}/x");
    CountedEmptyIff(s, "/", 'd', "2", "");
    assert "/dd" + "/" <= "/dd/x" && "/dd/x"[4..] == "x";
    assert "/d{2}/x"[2] == '{';
    assert "/d{2}" + "/" <= "/d{2}/x" && "/d{2}/x"[6..] == "x";
    forall x | IsChild("/dd", x)
      ensures !Live(s, x)
    {
      assert x[2] == 'd';
    }
  }
}
