// Building a value's tree, decoding it, and building that again.

module RoundTrip {
  import opened Basics
  import opened Git
  import opened Decimal
  import opened Schema
  import opened Nodes
  import opened Builder
  import opened Apply

  /** Two values store the same leaves. */
  ghost predicate Alike(c: Codec, t: Type, leaf: bool, v: Value, w: Value) {
    forall p :: Stored(c, t, leaf, v, p) == Stored(c, t, leaf, w, p)
  }

  /** Elements that store nothing come only at the end of a slice or array: a
      tree has no way to hold a gap. */
  ghost predicate Tidy(c: Codec, t: Type, leaf: bool, v: Value) {
    !leaf ==>
      match t
      case Pointer(e) => v.Ref? ==> Tidy(c, e, false, v.target)
      case Struct(fs) =>
        v.Fields? && |v.fields| == |fs| ==> forall i :: 0 <= i < |fs| ==> Tidy(c, fs[i].typ, IsLeaf(fs[i]), v.fields[i])
      case Map(e) => v.Entries? ==> forall k :: k in v.entries ==> Tidy(c, e, IsLeafType(e), v.entries[k])
      case Slice(e) => v.Elems? ==> TidyElems(c, e, v.elems) && forall i :: 0 <= i < |v.elems| ==> Tidy(c, e, IsLeafType(e), v.elems[i])
      case Array(_, e) => v.Elems? ==> TidyElems(c, e, v.elems) && forall i :: 0 <= i < |v.elems| ==> Tidy(c, e, IsLeafType(e), v.elems[i])
      case _ => true
  }

  ghost predicate TidyElems(c: Codec, e: Type, elems: seq<Value>) {
    forall i, j :: 0 <= i < j < |elems| && Leafless(c, e, IsLeafType(e), elems[i]) ==> Leafless(c, e, IsLeafType(e), elems[j])
  }

  /** A value as the rest of the proof is about it. */
  ghost predicate Suitable(c: Codec, t: Type, leaf: bool, v: Value) {
    Proper(t) && HasType(t, leaf, v) && KeysValid(t, leaf, v) && Tidy(c, t, leaf, v)
  }

  ghost predicate Fine(t: Type, leaf: bool, v: Value) {
    HasType(t, leaf, v) && KeysValid(t, leaf, v)
  }

  // ----- Zero values -----

  // Where some value of a type stores nothing, so does its zero value.
  lemma {:induction false} ZeroLeafless(c: Codec, t: Type, leaf: bool, v: Value)
    requires Proper(t) && HasType(t, leaf, v) && Leafless(c, t, leaf, v)
    ensures Leafless(c, t, leaf, ZeroOf(t, leaf)) && Fine(t, leaf, ZeroOf(t, leaf))
    decreases t
  {
    if leaf {
      assert v.datum.Some? ==> Stored(c, t, true, v, []).Some?;
    } else {
      match t
      case Struct(fs) =>
        forall i | 0 <= i < |fs|
          ensures Leafless(c, fs[i].typ, IsLeaf(fs[i]), ZeroOf(fs[i].typ, IsLeaf(fs[i])))
          ensures Fine(fs[i].typ, IsLeaf(fs[i]), ZeroOf(fs[i].typ, IsLeaf(fs[i])))
        {
          FieldLeafless(c, t, v, i);
          ZeroLeafless(c, fs[i].typ, IsLeaf(fs[i]), v.fields[i]);
        }
      case Array(n, e) =>
        if n > 0 {
          ElemLeafless(c, t, v, 0);
          ZeroLeafless(c, e, IsLeafType(e), v.elems[0]);
        }
      case _ =>
    }
  }

  lemma FieldLeafless(c: Codec, t: Type, v: Value, i: nat)
    requires t.Struct? && Proper(t) && HasType(t, false, v) && i < |t.fields| && Leafless(c, t, false, v)
    ensures Leafless(c, t.fields[i].typ, IsLeaf(t.fields[i]), v.fields[i])
  {
    var f := t.fields[i];
    assert FieldFrom(t.fields, f.name, 0) == i;
    forall p ensures Stored(c, f.typ, IsLeaf(f), v.fields[i], p).None? {
      assert ([f.name] + p)[1..] == p;
      assert Stored(c, t, false, v, [f.name] + p).None?;
    }
  }

  lemma ElemLeafless(c: Codec, t: Type, v: Value, i: nat)
    requires (t.Slice? || t.Array?) && v.Elems? && i < |v.elems| && Leafless(c, t, false, v)
    ensures Leafless(c, t.elem, IsLeafType(t.elem), v.elems[i])
  {
    ElemNamed(t, v, i);
    forall p ensures Stored(c, t.elem, IsLeafType(t.elem), v.elems[i], p).None? {
      assert ([Itoa(i)] + p)[1..] == p;
      assert Stored(c, t, false, v, [Itoa(i)] + p).None?;
    }
  }

  // ----- What a built tree says about a member -----

  /** The entries are the tree of v, leaf for leaf. */
  ghost predicate Built(c: Codec, t: Type, v: Value, es: seq<Entry>) {
    FineTree(es) && forall p :: LeafAt(ListHash(es), p) == AsEntry(p, BlobAt(c, t, false, v, p))
  }

  /** The entry is a member's: its blob, its tree, or nothing at all. */
  ghost predicate IsMembers(c: Codec, m: Member, e: Option<Entry>) {
    if e.None? then Leafless(c, m.typ, m.leaf, m.value)
    else if m.leaf then
      !e.value.mode.Dir? && Stored(c, m.typ, true, m.value, []).Some? &&
      e.value.hash == Digest(Blob(Stored(c, m.typ, true, m.value, []).value))
    else
      && e.value.mode.Dir? && IsTree(e.value.hash) && !Leafless(c, m.typ, false, m.value)
      && Built(c, m.typ, m.value, e.value.hash.obj.entries)
  }

  lemma StoredUnder(c: Codec, t: Type, v: Value, name: string, p: Path)
    requires !t.Pointer?
    ensures Stored(c, t, false, v, [name] + p) ==
            if MemberAt(t, v, name).None? then None
            else var m := MemberAt(t, v, name).value; Stored(c, m.typ, m.leaf, m.value, p)
  {
    assert ([name] + p)[1..] == p;
  }

  lemma FileEntry(c: Codec, t: Type, v: Value, es: seq<Entry>, name: string, e: Entry)
    requires !t.Pointer? && Built(c, t, v, es) && e in es && e.name == name && !e.mode.Dir?
    ensures MemberAt(t, v, name).Some? && IsMembers(c, MemberAt(t, v, name).value, Some(e))
  {
    LeafAtEntry(ListHash(es), e, []);
    StoredUnder(c, t, v, name, []);
    assert LeafAt(ListHash(es), [name] + []) == AsEntry([name] + [], BlobAt(c, t, false, v, [name] + []));
    var m := MemberAt(t, v, name).value;
    if !m.leaf { NothingAtRoot(c, m.typ, m.value); }
  }

  lemma NothingAtRoot(c: Codec, t: Type, v: Value)
    ensures Stored(c, t, false, v, []).None?
  {
    if t.Pointer? && v.Ref? { NothingAtRoot(c, t.elem, v.target); }
  }

  lemma DirBelow(c: Codec, t: Type, v: Value, es: seq<Entry>, e: Entry) returns (r: Path)
    requires Built(c, t, v, es) && e in es && e.mode.Dir?
    ensures IsTree(e.hash) && FineTree(e.hash.obj.entries) && ListHash(e.hash.obj.entries) == e.hash
    ensures r != [] && Stored(c, t, false, v, [e.name] + r).Some?
    ensures forall p :: LeafAt(e.hash, p) == AsEntry([e.name] + p, BlobAt(c, t, false, v, [e.name] + p))
  {
    var i :| 0 <= i < |es| && es[i] == e;
    assert KindMatches(es[i]) && WellFormed(es[i].hash) && HasLeaf(es[i].hash) && NoEmptyDirs(es[i].hash);
    r :| LeafAt(e.hash, r).Some?;
    forall p ensures LeafAt(e.hash, p) == AsEntry([e.name] + p, BlobAt(c, t, false, v, [e.name] + p)) {
      LeafAtEntry(ListHash(es), e, p);
    }
  }

  lemma AsEntryUnder(name: string, p: Path, blob: Option<Hash>)
    requires p == [] ==> blob.None?
    ensures AsEntry([name] + p, blob) == AsEntry(p, blob)
  {
    if p != [] { assert ([name] + p)[|p|] == p[|p| - 1]; }
  }

  lemma DirEntry(c: Codec, t: Type, v: Value, es: seq<Entry>, name: string, e: Entry)
    requires !t.Pointer? && Built(c, t, v, es) && e in es && e.name == name && e.mode.Dir?
    ensures MemberAt(t, v, name).Some? && IsMembers(c, MemberAt(t, v, name).value, Some(e))
  {
    var r := DirBelow(c, t, v, es, e);
    StoredUnder(c, t, v, name, r);
    var m := MemberAt(t, v, name).value;
    assert Stored(c, m.typ, m.leaf, m.value, r).Some?;
    NothingAtRoot(c, m.typ, m.value);
    forall p ensures LeafAt(e.hash, p) == AsEntry(p, BlobAt(c, m.typ, false, m.value, p)) {
      StoredUnder(c, t, v, name, p);
      AsEntryUnder(name, p, BlobAt(c, m.typ, false, m.value, p));
    }
  }

  // The entry under a name is the member's of that name, and there is none
  // where there is no member.
  lemma EntryIsMembers(c: Codec, t: Type, v: Value, es: seq<Entry>, name: string)
    requires !t.Pointer? && Built(c, t, v, es)
    ensures MemberAt(t, v, name).None? ==> ByName(es, name).None?
    ensures MemberAt(t, v, name).Some? ==> IsMembers(c, MemberAt(t, v, name).value, ByName(es, name))
  {
    ByNameMember(es, name);
    var e := ByName(es, name);
    if e.Some? {
      if e.value.mode.Dir? { DirEntry(c, t, v, es, name, e.value); } else { FileEntry(c, t, v, es, name, e.value); }
    } else if MemberAt(t, v, name).Some? {
      ByNameIsFind(es, name);
      var m := MemberAt(t, v, name).value;
      forall p ensures Stored(c, m.typ, m.leaf, m.value, p).None? {
        StoredUnder(c, t, v, name, p);
        assert LeafAt(ListHash(es), [name] + p) == AsEntry([name] + p, BlobAt(c, t, false, v, [name] + p));
      }
    }
  }

  // ----- Decoding what was built -----

  lemma MemberDecodes(c: Codec, m: Member, e: Option<Entry>)
    requires Lawful(c) && Suitable(c, m.typ, m.leaf, m.value) && IsMembers(c, m, e)
    ensures var d := DecodeMember(c, m.typ, m.leaf, e);
            && d.Ok? && (d.value.Some? <==> e.Some?)
            && Fine(m.typ, m.leaf, OrZero(d, m.typ, m.leaf))
            && Alike(c, m.typ, m.leaf, m.value, OrZero(d, m.typ, m.leaf))
    decreases m.typ, 2
  {
    if e.None? {
      ZeroLeafless(c, m.typ, m.leaf, m.value);
    } else if m.leaf {
      var d := m.value.datum.value;
      assert c.dec(m.typ, c.enc(m.typ, d)).Some?;
    } else {
      TreeDecodes(c, m.typ, m.value, e.value.hash.obj.entries);
    }
  }

  // Decoding the tree of a value gives a value that stores the same.
  lemma {:induction false} TreeDecodes(c: Codec, t: Type, v: Value, es: seq<Entry>)
    requires Lawful(c) && Suitable(c, t, false, v) && Built(c, t, v, es)
    requires t.Pointer? ==> !Leafless(c, t, false, v)
    ensures DecodeTree(c, t, es).Ok?
    ensures Fine(t, false, DecodeTree(c, t, es).value) && Alike(c, t, false, v, DecodeTree(c, t, es).value)
    decreases t, 1
  {
    match t
    case Pointer(e) =>
      assert v.Ref?;
      assert forall p :: Stored(c, t, false, v, p) == Stored(c, e, false, v.target, p);
      TreeDecodes(c, e, v.target, es);
    case Struct(fs) => StructDecodes(c, t, v, es);
    case Map(e) => MapDecodes(c, t, v, es);
    case Slice(e) => ElemsDecode(c, t, v, es);
    case Array(_, e) => ElemsDecode(c, t, v, es);
  }

  lemma AlikeByName(c: Codec, t: Type, v: Value, w: Value)
    requires !t.Pointer?
    requires forall n :: if MemberAt(t, v, n).None? then
                           MemberAt(t, w, n).Some? ==> Leafless(c, MemberAt(t, w, n).value.typ, MemberAt(t, w, n).value.leaf, MemberAt(t, w, n).value.value)
                         else
                           var m := MemberAt(t, v, n).value;
                           if MemberAt(t, w, n).None? then Leafless(c, m.typ, m.leaf, m.value)
                           else
                             var k := MemberAt(t, w, n).value;
                             k.typ == m.typ && k.leaf == m.leaf && Alike(c, m.typ, m.leaf, m.value, k.value)
    ensures Alike(c, t, false, v, w)
  {
    forall p ensures Stored(c, t, false, v, p) == Stored(c, t, false, w, p) {
      if p != [] {
        assert p == [p[0]] + p[1..];
        StoredUnder(c, t, v, p[0], p[1..]);
        StoredUnder(c, t, w, p[0], p[1..]);
      }
    }
  }

  lemma StructDecodes(c: Codec, t: Type, v: Value, es: seq<Entry>)
    requires t.Struct? && Lawful(c) && Suitable(c, t, false, v) && Built(c, t, v, es)
    ensures DecodeTree(c, t, es).Ok?
    ensures Fine(t, false, DecodeTree(c, t, es).value) && Alike(c, t, false, v, DecodeTree(c, t, es).value)
    decreases t, 0
  {
    var fs := t.fields;
    var dec := FieldDecs(c, t, es);
    forall i | 0 <= i < |fs|
      ensures dec[i].Ok?
      ensures Fine(fs[i].typ, IsLeaf(fs[i]), OrZero(dec[i], fs[i].typ, IsLeaf(fs[i])))
      ensures Alike(c, fs[i].typ, IsLeaf(fs[i]), v.fields[i], OrZero(dec[i], fs[i].typ, IsLeaf(fs[i])))
    {
      assert FieldFrom(fs, fs[i].name, 0) == i;
      EntryIsMembers(c, t, v, es, fs[i].name);
      MemberDecodes(c, Member(fs[i].typ, IsLeaf(fs[i]), v.fields[i]), ByName(es, fs[i].name));
    }
    var w := SetFields(fs, dec);
    AlikeByName(c, t, v, w);
  }

  lemma MapDecodes(c: Codec, t: Type, v: Value, es: seq<Entry>)
    requires t.Map? && Lawful(c) && Suitable(c, t, false, v) && Built(c, t, v, es)
    ensures DecodeTree(c, t, es).Ok?
    ensures Fine(t, false, DecodeTree(c, t, es).value) && Alike(c, t, false, v, DecodeTree(c, t, es).value)
    decreases t, 0
  {
    var e := t.elem;
    var dec := EntryDecs(c, e, es);
    var w := SetEntries(dec);
    forall n
      ensures n in dec ==> v.Entries? && n in v.entries && dec[n].Ok? && dec[n].value.Some?
      ensures n in dec ==> Fine(e, IsLeafType(e), dec[n].value.value) && Alike(c, e, IsLeafType(e), v.entries[n], dec[n].value.value)
      ensures n !in dec && v.Entries? && n in v.entries ==> Leafless(c, e, IsLeafType(e), v.entries[n])
    {
      EntryIsMembers(c, t, v, es, n);
      if n in dec {
        Named(es, n);
        MemberDecodes(c, Member(e, IsLeafType(e), v.entries[n]), ByName(es, n));
      } else {
        Unnamed(es, n);
      }
    }
    AlikeByName(c, t, v, w);
  }

  // How many elements there are before those that store nothing.
  lemma Leafed(c: Codec, e: Type, elems: seq<Value>) returns (k: nat)
    requires TidyElems(c, e, elems)
    ensures k <= |elems| && forall i :: 0 <= i < |elems| ==> (i < k <==> !Leafless(c, e, IsLeafType(e), elems[i]))
  {
    k := 0;
    while k < |elems| && !Leafless(c, e, IsLeafType(e), elems[k])
      invariant 0 <= k <= |elems|
      invariant forall i :: 0 <= i < k ==> !Leafless(c, e, IsLeafType(e), elems[i])
    {
      k := k + 1;
    }
  }

  function Indices(k: nat): (r: set<string>)
    ensures forall i :: 0 <= i < k ==> Itoa(i) in r
    ensures forall n :: n in r ==> exists i :: 0 <= i < k && IsIndex(n, i)
  {
    if k == 0 then {}
    else
      assert IsIndex(Itoa(k - 1), k - 1);
      Indices(k - 1) + {Itoa(k - 1)}
  }

  lemma {:induction false} IndicesSize(k: nat)
    ensures |Indices(k)| == k
  {
    if k > 0 {
      IndicesSize(k - 1);
      forall i | 0 <= i < k && Itoa(i) == Itoa(k - 1) ensures i == k - 1 {
        ItoaInjective(i, k - 1);
      }
      assert Itoa(k - 1) !in Indices(k - 1);
    }
  }

  lemma IndicesCount(k: nat)
    requires k - 1 <= MaxInt64
    ensures Count(Indices(k)) == Some(k)
  {
    IndicesSize(k);
    forall x ensures x in Numbers(Indices(k)) <==> x in UpTo(k) {
      if x in UpTo(k) {
        ItoaReadsBack(x.value);
        assert Itoa(x.value) in Indices(k);
      }
      if x in Numbers(Indices(k)) {
        var n :| n in Indices(k) && Atoi(n) == x;
        var i :| 0 <= i < k && IsIndex(n, i);
        ItoaReadsBack(i);
      }
    }
  }

  lemma ElemsNamed(c: Codec, t: Type, v: Value, es: seq<Entry>, k: nat)
    requires (t.Slice? || t.Array?) && v.Elems? && Built(c, t, v, es) && k <= |v.elems|
    requires forall i :: 0 <= i < |v.elems| ==> (i < k <==> !Leafless(c, t.elem, IsLeafType(t.elem), v.elems[i]))
    ensures NamesOf(es) == Indices(k)
  {
    forall n ensures n in NamesOf(es) <==> n in Indices(k) {
      EntryIsMembers(c, t, v, es, n);
      if n in NamesOf(es) {
        Named(es, n);
        var i := IndexFrom(n, |v.elems|, 0);
        NotLeafless(c, MemberAt(t, v, n).value, ByName(es, n));
        assert Itoa(i) == n && i < k;
      }
      if n in Indices(k) {
        var i :| 0 <= i < k && IsIndex(n, i);
        ElemNamed(t, v, i);
        if n !in NamesOf(es) { Unnamed(es, n); }
      }
    }
  }

  lemma NotLeafless(c: Codec, m: Member, e: Option<Entry>)
    requires IsMembers(c, m, e) && e.Some?
    ensures !Leafless(c, m.typ, m.leaf, m.value)
  {
  }

  lemma ElemsCount(c: Codec, t: Type, v: Value, es: seq<Entry>) returns (k: nat)
    requires (t.Slice? || t.Array?) && Suitable(c, t, false, v) && Built(c, t, v, es)
    ensures k <= |v.elems| && Count(NamesOf(es)) == Some(k)
    ensures forall i :: k <= i < |v.elems| ==> Leafless(c, t.elem, IsLeafType(t.elem), v.elems[i])
  {
    k := Leafed(c, t.elem, v.elems);
    ElemsNamed(c, t, v, es, k);
    IndicesCount(k);
  }

  lemma TailZero(c: Codec, t: Type, v: Value, i: nat)
    requires (t.Slice? || t.Array?) && Suitable(c, t, false, v) && i < |v.elems|
    requires Leafless(c, t.elem, IsLeafType(t.elem), v.elems[i])
    ensures Fine(t.elem, IsLeafType(t.elem), ZeroOf(t.elem, IsLeafType(t.elem)))
    ensures Leafless(c, t.elem, IsLeafType(t.elem), ZeroOf(t.elem, IsLeafType(t.elem)))
  {
    ZeroLeafless(c, t.elem, IsLeafType(t.elem), v.elems[i]);
  }

  lemma ElemsDecode(c: Codec, t: Type, v: Value, es: seq<Entry>)
    requires (t.Slice? || t.Array?) && Lawful(c) && Suitable(c, t, false, v) && Built(c, t, v, es)
    ensures DecodeTree(c, t, es).Ok?
    ensures Fine(t, false, DecodeTree(c, t, es).value) && Alike(c, t, false, v, DecodeTree(c, t, es).value)
    decreases t, 0
  {
    var e := t.elem;
    var leaf := IsLeafType(e);
    var k := ElemsCount(c, t, v, es);
    var dec := ElemDecs(c, e, es, k);
    var size := if t.Slice? then k else t.len;
    var w := SetElems(e, dec, size);
    forall i | 0 <= i < size
      ensures i < k ==> dec[i].Ok? && Alike(c, e, leaf, v.elems[i], w.elems[i])
      ensures Fine(e, leaf, w.elems[i]) && (i >= k ==> Leafless(c, e, leaf, w.elems[i]))
    {
      if i < k {
        ElemDecodes(c, t, v, es, i);
      } else {
        TailZero(c, t, v, i);
      }
    }
    assert Err !in dec;
    AlikeByIndex(c, t, v, w, k);
  }

  lemma ElemDecodes(c: Codec, t: Type, v: Value, es: seq<Entry>, i: nat)
    requires (t.Slice? || t.Array?) && Lawful(c) && Suitable(c, t, false, v) && Built(c, t, v, es) && i < |v.elems|
    ensures var d := DecodeMember(c, t.elem, IsLeafType(t.elem), ByName(es, Itoa(i)));
            var w := OrZero(d, t.elem, IsLeafType(t.elem));
            d.Ok? && Fine(t.elem, IsLeafType(t.elem), w) && Alike(c, t.elem, IsLeafType(t.elem), v.elems[i], w)
    decreases t.elem, 3
  {
    ElemNamed(t, v, i);
    EntryIsMembers(c, t, v, es, Itoa(i));
    MemberDecodes(c, Member(t.elem, IsLeafType(t.elem), v.elems[i]), ByName(es, Itoa(i)));
  }

  lemma AlikeByIndex(c: Codec, t: Type, v: Value, w: Value, k: nat)
    requires (t.Slice? || t.Array?) && v.Elems? && w.Elems? && k <= |w.elems| <= |v.elems|
    requires forall i :: 0 <= i < k ==> Alike(c, t.elem, IsLeafType(t.elem), v.elems[i], w.elems[i])
    requires forall i :: k <= i < |v.elems| ==> Leafless(c, t.elem, IsLeafType(t.elem), v.elems[i])
    requires forall i :: k <= i < |w.elems| ==> Leafless(c, t.elem, IsLeafType(t.elem), w.elems[i])
    ensures Alike(c, t, false, v, w)
  {
    forall n
      ensures MemberAt(t, w, n).Some? ==> MemberAt(t, v, n).Some?
      ensures MemberAt(t, w, n).Some? ==> IndexFrom(n, |w.elems|, 0) == IndexFrom(n, |v.elems|, 0)
    {
      if MemberAt(t, w, n).Some? {
        ElemNamed(t, v, IndexFrom(n, |w.elems|, 0));
        ItoaInjective(IndexFrom(n, |w.elems|, 0), IndexFrom(n, |v.elems|, 0));
      }
    }
    AlikeByName(c, t, v, w);
  }

  // ----- A gap cannot be decoded -----

  // A value with a gap in it stores something.
  lemma {:induction false} UntidyStores(c: Codec, t: Type, leaf: bool, v: Value)
    requires Proper(t) && HasType(t, leaf, v) && !Tidy(c, t, leaf, v)
    ensures !leaf && !Leafless(c, t, leaf, v)
    decreases t
  {
    match t
    case Pointer(e) =>
      UntidyStores(c, e, false, v.target);
      var p :| Stored(c, e, false, v.target, p).Some?;
      assert Stored(c, t, false, v, p).Some?;
    case Struct(fs) =>
      var i :| 0 <= i < |fs| && !Tidy(c, fs[i].typ, IsLeaf(fs[i]), v.fields[i]);
      UntidyStores(c, fs[i].typ, IsLeaf(fs[i]), v.fields[i]);
      if Leafless(c, t, false, v) { FieldLeafless(c, t, v, i); }
    case Map(e) =>
      var k :| k in v.entries && !Tidy(c, e, IsLeafType(e), v.entries[k]);
      UntidyStores(c, e, IsLeafType(e), v.entries[k]);
      var p :| Stored(c, e, IsLeafType(e), v.entries[k], p).Some?;
      StoredUnder(c, t, v, k, p);
    case Slice(e) => UntidyElem(c, t, v);
    case Array(_, e) => UntidyElem(c, t, v);
  }

  lemma UntidyElem(c: Codec, t: Type, v: Value)
    requires (t.Slice? || t.Array?) && Proper(t) && HasType(t, false, v) && !Tidy(c, t, false, v)
    ensures !Leafless(c, t, false, v)
    decreases t, 0
  {
    if Leafless(c, t, false, v) {
      forall i | 0 <= i < |v.elems| ensures Leafless(c, t.elem, IsLeafType(t.elem), v.elems[i]) {
        ElemLeafless(c, t, v, i);
      }
      var i :| 0 <= i < |v.elems| && !Tidy(c, t.elem, IsLeafType(t.elem), v.elems[i]);
      UntidyStores(c, t.elem, IsLeafType(t.elem), v.elems[i]);
    }
  }

  // So its entry is there, and decoding comes upon the gap.
  lemma {:induction false} UntidyFails(c: Codec, t: Type, v: Value, es: seq<Entry>)
    requires Proper(t) && Fine(t, false, v) && Built(c, t, v, es) && !Tidy(c, t, false, v)
    ensures DecodeTree(c, t, es).Err?
    decreases t, 1
  {
    match t
    case Pointer(e) =>
      assert forall p :: Stored(c, t, false, v, p) == Stored(c, e, false, v.target, p);
      UntidyFails(c, e, v.target, es);
    case Struct(fs) =>
      var i :| 0 <= i < |fs| && !Tidy(c, fs[i].typ, IsLeaf(fs[i]), v.fields[i]);
      assert FieldFrom(fs, fs[i].name, 0) == i;
      UntidyMemberFails(c, t, v, es, fs[i].name);
      assert FieldDecs(c, t, es)[i] in FieldDecs(c, t, es);
    case Map(e) =>
      var k :| k in v.entries && !Tidy(c, e, IsLeafType(e), v.entries[k]);
      UntidyMemberFails(c, t, v, es, k);
      assert EntryDecs(c, e, es)[k] in EntryDecs(c, e, es).Values;
    case Slice(e) => UntidyElemsFail(c, t, v, es);
    case Array(_, e) => UntidyElemsFail(c, t, v, es);
  }

  lemma UntidyMemberFails(c: Codec, t: Type, v: Value, es: seq<Entry>, name: string)
    requires !t.Pointer? && Proper(t) && Fine(t, false, v) && Built(c, t, v, es) && MemberAt(t, v, name).Some?
    requires var m := MemberAt(t, v, name).value; !Tidy(c, m.typ, m.leaf, m.value)
    ensures var m := MemberAt(t, v, name).value;
            DecodeMember(c, m.typ, m.leaf, ByName(es, name)).Err?
    ensures name in NamesOf(es)
    decreases t, 0
  {
    var m := MemberAt(t, v, name).value;
    MemberFine(t, v, name);
    UntidyStores(c, m.typ, m.leaf, m.value);
    EntryIsMembers(c, t, v, es, name);
    if name !in NamesOf(es) { Unnamed(es, name); }
    assert m.typ < t;
    UntidyFails(c, m.typ, m.value, ByName(es, name).value.hash.obj.entries);
  }

  // Names that are all indices, counted, are those below the count.
  lemma CountIsUpTo(c: Codec, t: Type, v: Value, es: seq<Entry>, n: nat)
    requires (t.Slice? || t.Array?) && HasType(t, false, v) && Built(c, t, v, es) && Count(NamesOf(es)) == Some(n)
    ensures forall i :: 0 <= i < |v.elems| ==>
              (i < n <==> Itoa(i) in NamesOf(es)) && (i < n <==> !Leafless(c, t.elem, IsLeafType(t.elem), v.elems[i]))
  {
    forall i | 0 <= i < |v.elems|
      ensures (i < n <==> Itoa(i) in NamesOf(es)) && (i < n <==> !Leafless(c, t.elem, IsLeafType(t.elem), v.elems[i]))
    {
      ElemNamed(t, v, i);
      EntryIsMembers(c, t, v, es, Itoa(i));
      ItoaReadsBack(i);
      if Itoa(i) in NamesOf(es) {
        Named(es, Itoa(i));
        NotLeafless(c, MemberAt(t, v, Itoa(i)).value, ByName(es, Itoa(i)));
        assert Atoi(Itoa(i)) in Numbers(NamesOf(es));
      } else {
        Unnamed(es, Itoa(i));
      }
      if i < n {
        assert Some(i) in Numbers(NamesOf(es));
        var m :| m in NamesOf(es) && Atoi(m) == Some(i);
        Named(es, m);
        EntryIsMembers(c, t, v, es, m);
        ItoaReadsBack(IndexFrom(m, |v.elems|, 0));
      }
    }
  }

  lemma UntidyElemsFail(c: Codec, t: Type, v: Value, es: seq<Entry>)
    requires (t.Slice? || t.Array?) && Proper(t) && Fine(t, false, v) && Built(c, t, v, es) && !Tidy(c, t, false, v)
    ensures DecodeTree(c, t, es).Err?
    decreases t, 0
  {
    var count := Count(NamesOf(es));
    if count.Some? && !(t.Array? && count.value > t.len) {
      CountIsUpTo(c, t, v, es, count.value);
      assert TidyElems(c, t.elem, v.elems);
      var i :| 0 <= i < |v.elems| && !Tidy(c, t.elem, IsLeafType(t.elem), v.elems[i]);
      UntidyStores(c, t.elem, IsLeafType(t.elem), v.elems[i]);
      ElemFails(c, t, v, es, i);
      var dec := ElemDecs(c, t.elem, es, count.value);
      assert dec[i] in dec;
    }
  }

  lemma ElemFails(c: Codec, t: Type, v: Value, es: seq<Entry>, i: nat)
    requires (t.Slice? || t.Array?) && Proper(t) && Fine(t, false, v) && Built(c, t, v, es) && i < |v.elems|
    requires !Tidy(c, t.elem, IsLeafType(t.elem), v.elems[i]) && !Leafless(c, t.elem, IsLeafType(t.elem), v.elems[i])
    ensures DecodeMember(c, t.elem, IsLeafType(t.elem), ByName(es, Itoa(i))).Err?
    decreases t.elem, 2
  {
    ElemNamed(t, v, i);
    EntryIsMembers(c, t, v, es, Itoa(i));
    UntidyStores(c, t.elem, IsLeafType(t.elem), v.elems[i]);
    UntidyFails(c, t.elem, v.elems[i], ByName(es, Itoa(i)).value.hash.obj.entries);
  }

  // ----- The round trip -----

  // A built tree decodes exactly when the value it was built from has no gap.
  lemma DecodesIffTidy(c: Codec, t: Type, v: Value, h: Hash)
    requires Lawful(c) && Proper(t) && Fine(t, false, v) && !t.Pointer? && IsBuild(h, c, t, v)
    ensures DecodeTree(c, t, h.obj.entries).Ok? <==> Tidy(c, t, false, v)
  {
    assert ListHash(h.obj.entries) == h;
    if Tidy(c, t, false, v) {
      TreeDecodes(c, t, v, h.obj.entries);
    } else {
      UntidyFails(c, t, v, h.obj.entries);
    }
  }

  // Build, decode, build again: the same root hash, and the flat map of leaves
  // decodes to the same value as the tree does, whatever was there before.
  lemma RoundTrips(c: Codec, t: Type, v: Value, h: Hash, dst: Value, leaves: map<Path, Bytes>)
    requires Lawful(c) && Suitable(c, t, false, v) && !t.Pointer? && IsBuild(h, c, t, v)
    requires Shows(MapView(leaves, []), h.obj.entries)
    ensures DecodeTree(c, t, h.obj.entries).Ok?
    ensures var w := DecodeTree(c, t, h.obj.entries).value;
            && Fine(t, false, w)
            && (forall g :: IsBuild(g, c, t, w) <==> g == h)
            && ApplyLeaves(c, t, dst, leaves) == Ok(w)
  {
    assert ListHash(h.obj.entries) == h;
    TreeDecodes(c, t, v, h.obj.entries);
    var w := DecodeTree(c, t, h.obj.entries).value;
    assert forall p :: BlobAt(c, t, false, v, p) == BlobAt(c, t, false, w, p);
    forall g ensures IsBuild(g, c, t, w) <==> g == h {
      if IsBuild(g, c, t, w) { BuildIsUnique(g, h, c, t, w); }
    }
    LeavesDecode(c, t, dst, leaves, h.obj.entries);
  }
}
