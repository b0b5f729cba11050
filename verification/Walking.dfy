// Walking a value: the list of leaves it stores.

module Walking {
  import opened Basics
  import opened Sorting
  import opened Git
  import opened Decimal
  import opened Schema

  datatype Leaf = Leaf(path: Path, content: Bytes)

  /** The leaves are what the value stores, with prefix leading to each. */
  ghost predicate Lists(ls: seq<Leaf>, prefix: Path, c: Codec, t: Type, leaf: bool, v: Value) {
    && (forall l :: l in ls ==> prefix <= l.path && Stored(c, t, leaf, v, l.path[|prefix|..]) == Some(l.content))
    && (forall q :: Stored(c, t, leaf, v, q).Some? ==> Leaf(prefix + q, Stored(c, t, leaf, v, q).value) in ls)
  }

  // The same for some of a value's members.
  ghost predicate ListsNames(ls: seq<Leaf>, prefix: Path, c: Codec, t: Type, v: Value, names: set<string>) {
    && (forall l :: l in ls ==> prefix < l.path && l.path[|prefix|] in names &&
                                Stored(c, t, false, v, l.path[|prefix|..]) == Some(l.content))
    && (forall q :: q != [] && q[0] in names && Stored(c, t, false, v, q).Some? ==>
          Leaf(prefix + q, Stored(c, t, false, v, q).value) in ls)
  }

  // A member's leaves are the value's beneath the member's name.
  lemma MemberLists(ls: seq<Leaf>, ms: seq<Leaf>, prefix: Path, c: Codec, t: Type, v: Value, names: set<string>,
        name: string)
    requires !t.Pointer? && MemberAt(t, v, name).Some?
    requires ListsNames(ls, prefix, c, t, v, names)
    requires var m := MemberAt(t, v, name).value; Lists(ms, prefix + [name], c, m.typ, m.leaf, m.value)
    ensures ListsNames(ls + ms, prefix, c, t, v, names + {name})
  {
    var m := MemberAt(t, v, name).value;
    forall l | l in ms
      ensures prefix < l.path && l.path[|prefix|] == name && Stored(c, t, false, v, l.path[|prefix|..]) == Some(l.content)
    {
      var q := l.path[|prefix + [name]|..];
      assert l.path[..|prefix| + 1] == prefix + [name];
      assert l.path[|prefix|] == l.path[..|prefix| + 1][|prefix|];
      assert l.path[|prefix|..][1..] == q;
    }
    forall q | q != [] && q[0] == name && Stored(c, t, false, v, q).Some?
      ensures Leaf(prefix + q, Stored(c, t, false, v, q).value) in ms
    {
      assert prefix + q == prefix + [name] + q[1..];
    }
  }

  // With every name that is a member's, nothing is left out.
  lemma NamesListAll(ls: seq<Leaf>, prefix: Path, c: Codec, t: Type, v: Value, names: set<string>)
    requires !t.Pointer? && ListsNames(ls, prefix, c, t, v, names)
    requires forall n :: MemberAt(t, v, n).Some? ==> n in names
    ensures Lists(ls, prefix, c, t, false, v)
  {
  }

  ghost predicate Deeper(ls: seq<Leaf>, prefix: Path) {
    forall l :: l in ls ==> prefix < l.path
  }

  lemma DeeperMore(ls: seq<Leaf>, more: seq<Leaf>, prefix: Path, name: string)
    requires Deeper(ls, prefix) && forall l :: l in more ==> prefix + [name] <= l.path
    ensures Deeper(ls + more, prefix)
  {
    forall l | l in more ensures prefix < l.path {
      assert prefix < prefix + [name] <= l.path;
    }
  }

  lemma DeeperAlso(ls: seq<Leaf>, more: seq<Leaf>, prefix: Path)
    requires Deeper(ls, prefix) && Deeper(more, prefix)
    ensures Deeper(ls + more, prefix)
  {
  }

  // The keys met in the first n members can all stand as path elements.
  ghost predicate FieldsFine(fs: seq<Field>, vs: seq<Value>, n: nat)
    requires n <= |fs| && n <= |vs|
  {
    forall k :: 0 <= k < n ==> KeysValid(fs[k].typ, IsLeaf(fs[k]), vs[k])
  }

  lemma FieldsFineMore(fs: seq<Field>, vs: seq<Value>, n: nat)
    requires n < |fs| && n < |vs|
    ensures FieldsFine(fs, vs, n + 1) <==> FieldsFine(fs, vs, n) && KeysValid(fs[n].typ, IsLeaf(fs[n]), vs[n])
  {
  }

  ghost predicate ElemsFine(e: Type, vs: seq<Value>, n: nat)
    requires n <= |vs|
  {
    forall k :: 0 <= k < n ==> KeysValid(e, IsLeafType(e), vs[k])
  }

  lemma ElemsFineMore(e: Type, vs: seq<Value>, n: nat)
    requires n < |vs|
    ensures ElemsFine(e, vs, n + 1) <==> ElemsFine(e, vs, n) && KeysValid(e, IsLeafType(e), vs[n])
  {
  }

  ghost predicate EntryFine(e: Type, key: string, v: Value) {
    ValidName(key) && KeysValid(e, IsLeafType(e), v)
  }

  ghost predicate EntriesFine(e: Type, m: map<string, Value>, keys: seq<string>, n: nat)
    requires n <= |keys| && forall k :: k in keys ==> k in m
  {
    forall k :: 0 <= k < n ==> EntryFine(e, keys[k], m[keys[k]])
  }

  lemma EntriesFineMore(e: Type, m: map<string, Value>, keys: seq<string>, n: nat)
    requires n < |keys| && forall k :: k in keys ==> k in m
    ensures EntriesFine(e, m, keys, n + 1) <==> EntriesFine(e, m, keys, n) && EntryFine(e, keys[n], m[keys[n]])
  {
  }

  /** The leaves of v, and whether every key in it was valid; what lies under a
      key that is not is left out. */
  method Walk(c: Codec, t: Type, v: Value, prefix: Path) returns (ls: seq<Leaf>, fine: bool)
    requires Proper(t) && HasType(t, false, v)
    ensures fine <==> KeysValid(t, false, v)
    ensures fine ==> Lists(ls, prefix, c, t, false, v)
    ensures Deeper(ls, prefix)
    decreases t, 2
  {
    match t
    case Pointer(e) =>
      if v.Nil? {
        return [], true;
      }
      ls, fine := Walk(c, e, v.target, prefix);
    case Struct(fs) => ls, fine := WalkFields(c, t, v, prefix);
    case Map(e) =>
      if v.Nil? {
        return [], true;
      }
      ls, fine := WalkEntries(c, t, v, prefix);
    case Slice(e) => ls, fine := WalkElems(c, t, e, v, prefix);
    case Array(_, e) => ls, fine := WalkElems(c, t, e, v, prefix);
  }

  method WalkMember(c: Codec, t: Type, leaf: bool, v: Value, path: Path) returns (ls: seq<Leaf>, fine: bool)
    requires Proper(t) && HasType(t, leaf, v)
    ensures fine <==> KeysValid(t, leaf, v)
    ensures fine ==> Lists(ls, path, c, t, leaf, v)
    ensures forall l :: l in ls ==> path <= l.path
    decreases t, 3
  {
    if !leaf {
      ls, fine := Walk(c, t, v, path);
    } else if v.datum.None? {
      // A nil pointer: nothing to store.
      return [], true;
    } else {
      var l := Leaf(path, c.enc(t, v.datum.value));
      assert path[|path|..] == [] && path + [] == path;
      return [l], true;
    }
  }

  method WalkFields(c: Codec, t: Type, v: Value, prefix: Path) returns (ls: seq<Leaf>, fine: bool)
    requires t.Struct? && Proper(t) && HasType(t, false, v)
    ensures fine <==> KeysValid(t, false, v)
    ensures fine ==> Lists(ls, prefix, c, t, false, v)
    ensures Deeper(ls, prefix)
    decreases t, 0
  {
    ls, fine := [], true;
    var i := 0;
    ghost var names: set<string> := {};
    while i < |t.fields|
      invariant 0 <= i <= |t.fields|
      invariant fine <==> FieldsFine(t.fields, v.fields, i)
      invariant forall k :: 0 <= k < i ==> t.fields[k].name in names
      invariant fine ==> ListsNames(ls, prefix, c, t, v, names)
      invariant Deeper(ls, prefix)
    {
      var f := t.fields[i];
      var more, ok := WalkMember(c, f.typ, IsLeaf(f), v.fields[i], prefix + [f.name]);
      assert FieldFrom(t.fields, f.name, 0) == i;
      if fine && ok { MemberLists(ls, more, prefix, c, t, v, names, f.name); }
      FieldsFineMore(t.fields, v.fields, i);
      DeeperMore(ls, more, prefix, f.name);
      ls, fine, names := ls + more, fine && ok, names + {f.name};
      i := i + 1;
    }
    if fine { NamesListAll(ls, prefix, c, t, v, names); }
  }

  function Self(s: string): string { s }

  /** Every key of m once, in ascending byte order. */
  method SortedKeys(m: map<string, Value>) returns (keys: seq<string>)
    ensures forall k :: k in keys <==> k in m
    ensures StrictBy(Self, keys)
  {
    keys := [];
    var todo := m.Keys;
    while todo != {}
      invariant todo <= m.Keys
      invariant forall k :: k in keys <==> k in m && k !in todo
      invariant DistinctBy(Self, keys)
    {
      var k :| k in todo;
      todo := todo - {k};
      keys := keys + [k];
    }
    SortByOrders(Self, keys);
    SortByDistinct(Self, Self, keys);
    keys := SortBy(Self, keys);
    OrderedDistinctIsStrict(Self, keys);
  }

  method WalkEntries(c: Codec, t: Type, v: Value, prefix: Path) returns (ls: seq<Leaf>, fine: bool)
    requires t.Map? && v.Entries? && Proper(t) && HasType(t, false, v)
    ensures fine <==> KeysValid(t, false, v)
    ensures fine ==> Lists(ls, prefix, c, t, false, v)
    ensures Deeper(ls, prefix)
    decreases t, 1
  {
    ls, fine := [], true;
    var keys := SortedKeys(v.entries);
    var i := 0;
    ghost var names: set<string> := {};
    while i < |keys|
      invariant 0 <= i <= |keys|
      invariant fine <==> EntriesFine(t.elem, v.entries, keys, i)
      invariant forall k :: 0 <= k < i ==> keys[k] in names
      invariant fine ==> ListsNames(ls, prefix, c, t, v, names)
      invariant Deeper(ls, prefix)
    {
      var key := keys[i];
      assert key in v.entries;
      var more, ok := WalkEntry(c, t, v, key, prefix);
      EntriesFineMore(t.elem, v.entries, keys, i);
      DeeperAlso(ls, more, prefix);
      if fine && ok { MemberLists(ls, more, prefix, c, t, v, names, key); }
      ls, fine, names := ls + more, fine && ok, names + {key};
      i := i + 1;
    }
    assert forall k :: k in v.entries ==> k in keys;
    if fine { NamesListAll(ls, prefix, c, t, v, names); }
  }

  method WalkEntry(c: Codec, t: Type, v: Value, key: string, prefix: Path) returns (ls: seq<Leaf>, fine: bool)
    requires t.Map? && v.Entries? && Proper(t) && HasType(t, false, v) && key in v.entries
    ensures fine <==> EntryFine(t.elem, key, v.entries[key])
    ensures fine ==> Lists(ls, prefix + [key], c, t.elem, IsLeafType(t.elem), v.entries[key])
    ensures Deeper(ls, prefix)
    decreases t, 0
  {
    if !ValidName(key) {
      return [], false;
    }
    ls, fine := WalkMember(c, t.elem, IsLeafType(t.elem), v.entries[key], prefix + [key]);
    forall l | l in ls ensures prefix < l.path { assert prefix < prefix + [key] <= l.path; }
  }

  method WalkElems(c: Codec, t: Type, e: Type, v: Value, prefix: Path) returns (ls: seq<Leaf>, fine: bool)
    requires (t.Slice? || t.Array?) && t.elem == e && Proper(t) && HasType(t, false, v)
    ensures fine <==> KeysValid(t, false, v)
    ensures fine ==> Lists(ls, prefix, c, t, false, v)
    ensures Deeper(ls, prefix)
    decreases t, 0
  {
    ls, fine := [], true;
    var i := 0;
    ghost var names: set<string> := {};
    while i < |v.elems|
      invariant 0 <= i <= |v.elems|
      invariant fine <==> ElemsFine(e, v.elems, i)
      invariant forall k :: 0 <= k < i ==> Itoa(k) in names
      invariant fine ==> ListsNames(ls, prefix, c, t, v, names)
      invariant Deeper(ls, prefix)
    {
      var name := Itoa(i);
      var more, ok := WalkMember(c, e, IsLeafType(e), v.elems[i], prefix + [name]);
      ElemNamed(t, v, i);
      if fine && ok { MemberLists(ls, more, prefix, c, t, v, names, name); }
      ElemsFineMore(e, v.elems, i);
      DeeperMore(ls, more, prefix, name);
      ls, fine, names := ls + more, fine && ok, names + {name};
      i := i + 1;
    }
    if fine { NamesListAll(ls, prefix, c, t, v, names); }
  }
}
