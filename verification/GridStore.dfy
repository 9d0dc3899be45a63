/** Mongo's GridFS as a small state machine: the files collection in upload order, and the chunks by file id. */
module GridStore {
  import opened CTypes
  import opened Chunks
  import opened ContentType

  datatype Doc = Doc(id: nat, name: string, contentType: string, length: nat, chunkSize: nat)

  datatype Store = Store(docs: seq<Doc>, chunks: map<nat, seq<string>>, nextId: nat)

  const EMPTY := Store([], map[], 0)

  /** The most recently uploaded document with a name. */
  function Newest(docs: seq<Doc>, name: string): Option<Doc> {
    if docs == [] then None
    else if docs[|docs| - 1].name == name then Some(docs[|docs| - 1])
    else Newest(docs[..|docs| - 1], name)
  }

  function FindFile(s: Store, name: string): Option<Doc> {
    Newest(s.docs, name)
  }

  predicate Live(s: Store, name: string) {
    FindFile(s, name).Some?
  }

  /** storeFile: one more version under the name, with its own chunks. */
  function StoreFile(s: Store, data: string, name: string, contentType: string, cs: nat): Store
    requires cs > 0
  {
    Store(s.docs + [Doc(s.nextId, name, contentType, |data|, cs)], s.chunks[s.nextId := Split(data, cs)], s.nextId + 1)
  }

  function Without(docs: seq<Doc>, name: string): seq<Doc> {
    if docs == [] then [] else
    Without(docs[..|docs| - 1], name) + if docs[|docs| - 1].name == name then [] else [docs[|docs| - 1]]
  }

  /** removeFile: every version of the name goes, with its chunks. */
  function RemoveFile(s: Store, name: string): Store {
    Store(Without(s.docs, name), s.chunks - (set d | d in s.docs && d.name == name :: d.id), s.nextId)
  }

  function PatchDoc(d: Doc, id: nat, contentType: Option<string>, length: Option<nat>): Doc {
    if d.id != id then d else
    d.(contentType := if contentType.Some? then contentType.value else d.contentType,
       length := if length.Some? then length.value else d.length)
  }

  function Patch(docs: seq<Doc>, id: nat, contentType: Option<string>, length: Option<nat>): seq<Doc> {
    seq(|docs|, i requires 0 <= i < |docs| => PatchDoc(docs[i], id, contentType, length))
  }

  /** update(filesCollection(), _id, $set contentType) */
  function SetContentType(s: Store, id: nat, contentType: string): Store {
    s.(docs := Patch(s.docs, id, Some(contentType), None))
  }

  /** update(filesCollection(), _id, $set length 0): the chunks stay. */
  function SetLengthZero(s: Store, id: nat): Store {
    s.(docs := Patch(s.docs, id, None, Some(0)))
  }

  function ChunksOf(s: Store, id: nat): Option<seq<string>> {
    if id in s.chunks then Some(s.chunks[id]) else None
  }

  // ---- what lookup sees after each update -------------------------------------------------

  lemma {:induction false} NewestIn(docs: seq<Doc>, name: string)
    ensures Newest(docs, name).Some? ==> Newest(docs, name).value in docs && Newest(docs, name).value.name == name
    ensures Newest(docs, name).None? ==> forall d :: d in docs ==> d.name != name
  {
    if docs != [] {
      NewestIn(docs[..|docs| - 1], name);
      assert forall d :: d in docs ==> d in docs[..|docs| - 1] || d == docs[|docs| - 1];
    }
  }

  lemma NewestAppend(docs: seq<Doc>, d: Doc, name: string)
    ensures Newest(docs + [d], name) == if d.name == name then Some(d) else Newest(docs, name)
  {
    assert (docs + [d])[..|docs|] == docs;
  }

  lemma {:induction false} WithoutMembers(docs: seq<Doc>, name: string)
    ensures forall d :: d in Without(docs, name) <==> d in docs && d.name != name
  {
    if docs != [] {
      WithoutMembers(docs[..|docs| - 1], name);
      assert docs == docs[..|docs| - 1] + [docs[|docs| - 1]];
    }
  }

  lemma {:induction false} NewestWithout(docs: seq<Doc>, name: string, q: string)
    ensures Newest(Without(docs, name), q) == if q == name then None else Newest(docs, q)
  {
    if docs != [] {
      var front, last := docs[..|docs| - 1], docs[|docs| - 1];
      NewestWithout(front, name, q);
      if last.name != name {
        NewestAppend(Without(front, name), last, q);
      } else {
        assert Without(docs, name) == Without(front, name);
      }
    }
  }

  lemma {:induction false} NewestPatch(docs: seq<Doc>, id: nat, contentType: Option<string>, length: Option<nat>, q: string)
    ensures Newest(Patch(docs, id, contentType, length), q)
         == match Newest(docs, q)
            case None => None
            case Some(d) => Some(PatchDoc(d, id, contentType, length))
  {
    if docs != [] {
      var front := docs[..|docs| - 1];
      NewestPatch(front, id, contentType, length, q);
      assert Patch(docs, id, contentType, length)[..|docs| - 1] == Patch(front, id, contentType, length);
    }
  }

  // ---- what every reachable store keeps ---------------------------------------------------

  /** One version: its chunks are its bytes cut at `cs`, its length is theirs or zero after a truncate,
      and its contentType is the printer's image of in-range metadata. */
  predicate DocOk(cs: nat, s: Store, d: Doc)
    requires cs > 0
  {
    && d.id < s.nextId && d.id in s.chunks && d.chunkSize == cs
    && s.chunks[d.id] == Split(Concat(s.chunks[d.id]), cs)
    && |Concat(s.chunks[d.id])| < TWO_63
    && (d.length == 0 || d.length == |Concat(s.chunks[d.id])|)
    && Printed(d.contentType)
  }

  predicate StoreOk(cs: nat, s: Store)
    requires cs > 0
  {
    && (forall d :: d in s.docs ==> DocOk(cs, s, d))
    && (forall d, e :: d in s.docs && e in s.docs && d.id == e.id ==> d == e)
    && (forall id :: id in s.chunks ==> id < s.nextId)
  }

  /** The bytes a version has. */
  function Bytes(s: Store, d: Doc): string {
    if d.id !in s.chunks then "" else
    var all := Concat(s.chunks[d.id]);
    all[..Min(d.length, |all|)]
  }

  lemma StoreFileOk(cs: nat, s: Store, data: string, name: string, contentType: string)
    requires cs > 0 && StoreOk(cs, s) && |data| < TWO_63 && Printed(contentType)
    ensures StoreOk(cs, StoreFile(s, data, name, contentType, cs))
    ensures
      var s' := StoreFile(s, data, name, contentType, cs);
      var d := Doc(s.nextId, name, contentType, |data|, cs);
      && (forall q :: FindFile(s', q) == if q == name then Some(d) else FindFile(s, q))
      && Bytes(s', d) == data
      && (forall id :: id in s.chunks ==> id in s'.chunks && s'.chunks[id] == s.chunks[id])
  {
    hide Split, Concat, Printed;
    var s' := StoreFile(s, data, name, contentType, cs);
    var d := Doc(s.nextId, name, contentType, |data|, cs);
    ConcatSplit(data, cs);
    forall q
      ensures FindFile(s', q) == if q == name then Some(d) else FindFile(s, q)
    {
      NewestAppend(s.docs, d, q);
    }
    assert forall e :: e in s'.docs <==> e in s.docs || e == d;
    assert data[..|data|] == data;
  }

  lemma RemoveFileOk(cs: nat, s: Store, name: string)
    requires cs > 0 && StoreOk(cs, s)
    ensures StoreOk(cs, RemoveFile(s, name))
    ensures
      var s' := RemoveFile(s, name);
      && (forall q :: FindFile(s', q) == if q == name then None else FindFile(s, q))
      && (forall id :: id in s'.chunks ==> id in s.chunks && s'.chunks[id] == s.chunks[id])
      && (forall id :: id in s.chunks && id !in s'.chunks ==> exists d :: d in s.docs && d.name == name && d.id == id)
      && (forall d :: d in s.docs && d.name == name ==> d.id !in s'.chunks)
      && (forall d :: d in s'.docs <==> d in s.docs && d.name != name)
  {
    hide Split, Concat, Printed;
    var s' := RemoveFile(s, name);
    WithoutMembers(s.docs, name);
    forall q
      ensures FindFile(s', q) == if q == name then None else FindFile(s, q)
    {
      NewestWithout(s.docs, name, q);
    }
  }

  lemma PatchMembers(docs: seq<Doc>, id: nat, contentType: Option<string>, length: Option<nat>)
    ensures forall d :: d in Patch(docs, id, contentType, length) ==>
              exists e :: e in docs && d == PatchDoc(e, id, contentType, length)
  {
    var p := Patch(docs, id, contentType, length);
    forall d | d in p
      ensures exists e :: e in docs && d == PatchDoc(e, id, contentType, length)
    {
      var i :| 0 <= i < |p| && p[i] == d;
      assert docs[i] in docs;
    }
  }

  lemma PatchOk(cs: nat, s: Store, id: nat, contentType: Option<string>, length: Option<nat>)
    requires cs > 0 && StoreOk(cs, s)
    requires contentType.Some? ==> Printed(contentType.value)
    requires length.Some? ==> length.value == 0
    ensures
      var s' := s.(docs := Patch(s.docs, id, contentType, length));
      && StoreOk(cs, s')
      && (forall q :: FindFile(s', q) == match FindFile(s, q)
                                         case None => None
                                         case Some(d) => Some(PatchDoc(d, id, contentType, length)))
  {
    hide Split, Concat, Printed;
    var s' := s.(docs := Patch(s.docs, id, contentType, length));
    PatchMembers(s.docs, id, contentType, length);
    forall q
      ensures FindFile(s', q) == match FindFile(s, q)
                                 case None => None
                                 case Some(d) => Some(PatchDoc(d, id, contentType, length))
    {
      NewestPatch(s.docs, id, contentType, length, q);
    }
  }

  /** truncate on a live path: its newest version loses its bytes and keeps its metadata; every other path, every older
      version and all chunks stay, so that whoever has loaded a version can go on reading it. */
  lemma TruncateEmpties(cs: nat, s: Store, p: string)
    requires cs > 0 && StoreOk(cs, s) && Live(s, p)
    ensures
      var d := FindFile(s, p).value;
      var s' := SetLengthZero(s, d.id);
      && StoreOk(cs, s')
      && FindFile(s', p) == Some(d.(length := 0)) && Bytes(s', d.(length := 0)) == ""
      && (forall q :: q != p ==> FindFile(s', q) == FindFile(s, q))
      && (forall e :: e in s.docs && e != d ==> e in s'.docs && Bytes(s', e) == Bytes(s, e))
      && |s'.docs| == |s.docs| && s'.chunks == s.chunks
  {
    hide Split, Concat, Printed;
    var d := FindFile(s, p).value;
    var s' := SetLengthZero(s, d.id);
    PatchOk(cs, s, d.id, None, Some(0));
    NewestIn(s.docs, p);
    forall q | q != p
      ensures FindFile(s', q) == FindFile(s, q)
    {
      NewestIn(s.docs, q);
    }
    forall e | e in s.docs && e != d
      ensures e in s'.docs
    {
      var i :| 0 <= i < |s.docs| && s.docs[i] == e;
      assert s'.docs[i] == e;
    }
  }
}
