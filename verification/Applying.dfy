// The writer as it runs: struct fields, map entries and elements written one
// after the other over what the destination holds, and stopped by the first
// that cannot be.

module Applying {
  import opened Basics
  import opened Decimal
  import opened Schema
  import opened Apply

  // ----- Indices -----

  ghost predicate Ascending(s: seq<int>) {
    forall i, j :: 0 <= i < j < |s| ==> s[i] <= s[j]
  }

  function Insert(x: int, s: seq<int>): seq<int> {
    if s == [] || x <= s[0] then [x] + s else [s[0]] + Insert(x, s[1..])
  }

  function SortInts(s: seq<int>): seq<int> {
    if s == [] then [] else Insert(s[0], SortInts(s[1..]))
  }

  lemma {:induction false} InsertSorts(x: int, s: seq<int>)
    requires Ascending(s)
    ensures Ascending(Insert(x, s)) && |Insert(x, s)| == |s| + 1
    ensures forall y :: y in Insert(x, s) <==> y == x || y in s
    decreases |s|
  {
    if s != [] && x > s[0] {
      InsertSorts(x, s[1..]);
      var r := Insert(x, s[1..]);
      forall k | 0 <= k < |r| ensures s[0] <= r[k] {
        assert r[k] in r;
        assert r[k] == x || r[k] in s[1..];
      }
      assert s == [s[0]] + s[1..];
    }
  }

  lemma {:induction false} SortIntsSorts(s: seq<int>)
    ensures Ascending(SortInts(s)) && |SortInts(s)| == |s|
    ensures forall y :: y in SortInts(s) <==> y in s
  {
    if s != [] {
      SortIntsSorts(s[1..]);
      InsertSorts(s[0], SortInts(s[1..]));
      assert s == [s[0]] + s[1..];
    }
  }

  // A sorted list that has every number below its length has each in its
  // place: none can sit before it,
  lemma {:induction false} NoneEarly(s: seq<int>, k: nat) returns (at: nat)
    requires Ascending(s) && k < |s| && forall i :: 0 <= i < |s| ==> i in s
    ensures k <= at < |s| && s[at] == k
  {
    assert k in s;
    at :| 0 <= at < |s| && s[at] == k;
    if k > 0 {
      var before := NoneEarly(s, k - 1);
    }
  }

  // and so none can sit after it.
  lemma {:induction false} EachInPlace(s: seq<int>, k: nat)
    requires Ascending(s) && k < |s| && forall i :: 0 <= i < |s| ==> i in s
    ensures s[k] == k
    decreases |s| - k
  {
    var at := NoneEarly(s, k);
    if k + 1 < |s| {
      EachInPlace(s, k + 1);
    }
  }

  /** The indices the names stand for, if that is what they are. */
  method ReadIndices(names: set<string>) returns (r: Option<seq<int>>)
    ensures r.Some? <==> forall n :: n in names ==> Atoi(n).Some? && Atoi(n).value >= 0
    ensures r.Some? ==> |r.value| == |names| && forall x :: x in r.value <==> Some(x) in Numbers(names)
  {
    var indices, todo := [], names;
    while todo != {}
      invariant todo <= names && |indices| + |todo| == |names|
      invariant forall n :: n in names - todo ==> Atoi(n).Some? && Atoi(n).value >= 0
      invariant forall x :: x in indices <==> Some(x) in Numbers(names - todo)
    {
      var n :| n in todo;
      var i := Atoi(n);
      if i.None? || i.value < 0 {
        return None;
      }
      assert names - (todo - {n}) == (names - todo) + {n};
      assert Numbers((names - todo) + {n}) == Numbers(names - todo) + {i};
      todo := todo - {n};
      indices := indices + [i.value];
    }
    assert names - todo == names;
    return Some(indices);
  }

  /** How many elements the names stand for: read as numbers, sorted, and run
      through for a gap. */
  method CountIndices(names: set<string>) returns (r: Option<nat>)
    ensures r == Count(names)
  {
    var read := ReadIndices(names);
    if read.None? {
      NotIndices(names);
      return None;
    }
    var indices := SortInts(read.value);
    SortIntsSorts(read.value);
    var i := 0;
    while i < |indices|
      invariant 0 <= i <= |indices|
      invariant forall k :: 0 <= k < i ==> indices[k] == k
    {
      if indices[i] != i {
        if Count(names).Some? {
          Filling(names, indices);
          EachInPlace(indices, i);
        }
        return None;
      }
      i := i + 1;
    }
    forall x ensures x in Numbers(names) <==> x in UpTo(|names|) {
      if x in UpTo(|names|) {
        assert indices[x.value] == x.value;
      }
      if x in Numbers(names) {
        var n :| n in names && Atoi(n) == x;
        assert x.value in indices;
      }
    }
    assert Numbers(names) == UpTo(|names|);
    return Some(|indices|);
  }

  lemma NotIndices(names: set<string>)
    requires exists n :: n in names && (Atoi(n).None? || Atoi(n).value < 0)
    ensures Count(names) == None
  {
    var n :| n in names && (Atoi(n).None? || Atoi(n).value < 0);
    assert Atoi(n) in Numbers(names) && Atoi(n) !in UpTo(|names|);
  }

  lemma Filling(names: set<string>, indices: seq<int>)
    requires Count(names).Some? && |indices| == |names| && forall x :: x in indices <==> Some(x) in Numbers(names)
    ensures forall i :: 0 <= i < |indices| ==> i in indices
  {
    forall i | 0 <= i < |indices| ensures i in indices {
      assert Some(i) in UpTo(|names|);
    }
  }

  // ----- Members -----

  /** Computes what becomes of one named member, leaf or not. */
  method ApplyMember(c: Codec, t: Type, leaf: bool, vw: View, name: string, cur: Value) returns (o: Outcome)
    ensures o == Apply.ApplyMember(c, t, leaf, vw, name, cur)
    decreases t, 4
  {
    if leaf {
      var seen := LeafIn(vw, name);
      if seen.Broken? { return Fail; }
      if seen.Unchanged? { return Keep; }
      if seen.Missing? { return Clear; }
      var datum := c.dec(t, seen.what);
      return if datum.Some? then Put(Whole(datum)) else Fail;
    }
    var seen := SubtreeIn(vw, name);
    if seen.Broken? { return Fail; }
    if seen.Unchanged? { return Keep; }
    if seen.Missing? { return Clear; }
    var r := FillInto(c, t, seen.what, cur);
    return if r.Ok? then Put(r.value) else Fail;
  }

  /** Computes what filling a value gives, by the kind of its type. */
  method FillInto(c: Codec, t: Type, vw: View, cur: Value) returns (r: Result<Value>)
    ensures r == ApplyInto(c, t, vw, cur)
    decreases t, 2
  {
    match t
    case Pointer(e) =>
      var v := FillInto(c, e, vw, if cur.Ref? then cur.target else ZeroOf(e, false));
      return if v.Ok? then Ok(Ref(v.value)) else Err;
    case Struct(_) => r := FillFields(c, t, vw, cur);
    case Map(_) => r := FillMap(c, t, vw, cur);
    case Slice(_) => r := FillElems(c, t, vw, cur);
    case Array(_, _) => r := FillElems(c, t, vw, cur);
    case _ => return Err;
  }

  method FillFields(c: Codec, t: Type, vw: View, cur: Value) returns (r: Result<Value>)
    requires t.Struct?
    ensures r == ApplyInto(c, t, vw, cur)
    decreases t, 1
  {
    var fs := t.fields;
    ghost var out := FieldOuts(c, t, vw, cur);
    var fields := [];
    var i := 0;
    while i < |fs|
      invariant 0 <= i <= |fs| && |fields| == i
      invariant forall k :: 0 <= k < i ==>
                  out[k] != Fail && fields[k] == InPlace(out[k], fs[k].typ, IsLeaf(fs[k]), FieldOf(cur, fs, k))
    {
      var held := FieldOf(cur, fs, i);
      var o := ApplyMember(c, fs[i].typ, IsLeaf(fs[i]), vw, fs[i].name, held);
      assert out[i] == o;
      if o.Fail? {
        return Err;
      }
      fields := fields + [InPlace(o, fs[i].typ, IsLeaf(fs[i]), held)];
      i := i + 1;
    }
    assert PutFields(fs, out, cur).fields == fields;
    return Ok(Fields(fields));
  }

  /** Computes what filling a map gives, key by key: afterwards it has just the
      keys the view shows, and unchanged ones still hold what they held. */
  method FillMap(c: Codec, t: Type, vw: View, cur: Value) returns (r: Result<Value>)
    requires t.Map?
    ensures r == ApplyInto(c, t, vw, cur)
    decreases t, 1
  {
    var e := t.elem;
    ghost var out := EntryOuts(c, e, vw, cur);
    var held := Apply.EntriesOf(cur);
    var entries, todo := held, NamesIn(vw);
    while todo != {}
      invariant todo <= NamesIn(vw)
      invariant NoneFailed(out, todo)
      invariant Edited(entries, held, out, todo)
    {
      var name :| name in todo;
      var o := ApplyMember(c, e, IsLeafType(e), vw, name, EntryOf(cur, e, name));
      assert out[name] == o;
      if o.Fail? {
        assert Fail in out.Values;
        return Err;
      }
      EditedOne(entries, held, out, todo, name);
      entries := WithOutcome(entries, name, o);
      todo := todo - {name};
    }
    var kept := DeleteUnseen(entries, NamesIn(vw));
    EditedAll(entries, kept, out, cur);
    return Ok(Entries(kept));
  }

  // A map with one entry's outcome in it.
  function WithOutcome(m: map<string, Value>, name: string, o: Outcome): map<string, Value> {
    match o
    case Put(v) => m[name := v]
    case Clear => m - {name}
    case _ => m
  }

  ghost predicate NoneFailed(out: map<string, Outcome>, todo: set<string>) {
    forall n :: n in out && n !in todo ==> out[n] != Fail
  }

  function After(o: Outcome, held: Option<Value>): Option<Value> {
    match o
    case Put(v) => Some(v)
    case Keep => held
    case _ => None
  }

  // The entries done with are as their outcomes have them, the rest as held.
  ghost predicate Edited(m: map<string, Value>, held: map<string, Value>, out: map<string, Outcome>,
        todo: set<string>) {
    forall n :: Lookup(m, n) == if n in out && n !in todo then After(out[n], Lookup(held, n)) else Lookup(held, n)
  }

  lemma EditedOne(m: map<string, Value>, held: map<string, Value>, out: map<string, Outcome>, todo: set<string>,
        name: string)
    requires Edited(m, held, out, todo) && name in todo && name in out && out[name] != Fail
    ensures Edited(WithOutcome(m, name, out[name]), held, out, todo - {name})
  {
    var r := WithOutcome(m, name, out[name]);
    forall n ensures Lookup(r, n) == if n in out && n !in todo - {name} then After(out[n], Lookup(held, n)) else Lookup(held, n) {
      assert Lookup(m, n) == if n in out && n !in todo then After(out[n], Lookup(held, n)) else Lookup(held, n);
    }
  }

  lemma EditedAll(m: map<string, Value>, kept: map<string, Value>, out: map<string, Outcome>, cur: Value)
    requires Edited(m, Apply.EntriesOf(cur), out, {})
    requires forall n :: Lookup(kept, n) == if n in out then Lookup(m, n) else None
    requires NoneFailed(out, {})
    ensures Fail !in out.Values && Entries(kept) == PutEntries(out, cur)
  {
    var held, put := Apply.EntriesOf(cur), PutEntries(out, cur).entries;
    forall n ensures Lookup(kept, n) == Lookup(put, n) {
      assert Lookup(m, n) == if n in out then After(out[n], Lookup(held, n)) else Lookup(held, n);
    }
    SameLookups(kept, put);
  }

  function Lookup(m: map<string, Value>, n: string): Option<Value> {
    if n in m then Some(m[n]) else None
  }

  lemma SameLookups(a: map<string, Value>, b: map<string, Value>)
    requires forall n :: Lookup(a, n) == Lookup(b, n)
    ensures a == b
  {
    forall n ensures n in a <==> n in b {
      assert Lookup(a, n) == Lookup(b, n);
    }
    forall n | n in a ensures a[n] == b[n] {
      assert Lookup(a, n) == Lookup(b, n);
    }
  }

  method DeleteUnseen(m: map<string, Value>, seen: set<string>) returns (r: map<string, Value>)
    ensures forall n :: Lookup(r, n) == if n in seen then Lookup(m, n) else None
  {
    r := m;
    var todo := m.Keys;
    while todo != {}
      invariant todo <= m.Keys
      invariant forall n :: Lookup(r, n) == if n in seen || n in todo then Lookup(m, n) else None
    {
      var key :| key in todo;
      if key !in seen {
        r := r - {key};
      }
      todo := todo - {key};
    }
  }

  /** Fills a slice, resized to what the view has, or an array, which must have
      room for it and is cleared past it. */
  method FillElems(c: Codec, t: Type, vw: View, cur: Value) returns (r: Result<Value>)
    requires t.Slice? || t.Array?
    ensures r == ApplyInto(c, t, vw, cur)
    decreases t, 1
  {
    var e := t.elem;
    var count := CountIndices(NamesIn(vw));
    if count.None? {
      return Err;
    }
    var n := count.value;
    if t.Array? && n > t.len {
      return Err;
    }
    r := FillUpTo(c, e, vw, cur, n, if t.Slice? then n else t.len);
  }

  // The elements written so far, none of them refused.
  ghost predicate Written(elems: seq<Value>, e: Type, out: seq<Outcome>, cur: Value) {
    && |elems| <= |out|
    && forall k :: 0 <= k < |elems| ==> out[k] != Fail && elems[k] == InPlace(out[k], e, IsLeafType(e), ElemOf(cur, e, k))
  }

  lemma WrittenMore(elems: seq<Value>, e: Type, out: seq<Outcome>, cur: Value)
    requires Written(elems, e, out, cur) && |elems| < |out| && out[|elems|] != Fail
    ensures Written(elems + [InPlace(out[|elems|], e, IsLeafType(e), ElemOf(cur, e, |elems|))], e, out, cur)
  {
  }

  lemma WrittenAll(elems: seq<Value>, all: seq<Value>, e: Type, out: seq<Outcome>, cur: Value, size: nat)
    requires Written(elems, e, out, cur) && |elems| == |out| && elems <= all && |all| == size
    requires forall k :: |elems| <= k < size ==> all[k] == ZeroOf(e, IsLeafType(e))
    ensures Filled(e, out, cur, size) == Ok(Elems(all))
  {
    assert PutElems(e, out, cur, size).elems == all;
  }

  /** The elements the view has, one after the other, then zeros. */
  method FillUpTo(c: Codec, e: Type, vw: View, cur: Value, n: nat, size: nat) returns (r: Result<Value>)
    requires n <= size
    ensures r == Filled(e, ElemOuts(c, e, vw, cur, n), cur, size)
    decreases e, 5
  {
    ghost var out := ElemOuts(c, e, vw, cur, n);
    var elems := [];
    var i := 0;
    while i < n
      invariant 0 <= i <= n && |elems| == i && Written(elems, e, out, cur)
    {
      var held := ElemOf(cur, e, i);
      var o := ApplyMember(c, e, IsLeafType(e), vw, Itoa(i), held);
      assert out[i] == o;
      if o.Fail? {
        return Err;
      }
      WrittenMore(elems, e, out, cur);
      elems := elems + [InPlace(o, e, IsLeafType(e), held)];
      i := i + 1;
    }
    var all := Cleared(elems, e, size);
    WrittenAll(elems, all, e, out, cur, size);
    return Ok(Elems(all));
  }

  /** The elements as they are, made up to size with zeros. */
  method Cleared(elems: seq<Value>, e: Type, size: nat) returns (r: seq<Value>)
    requires |elems| <= size
    ensures |r| == size && elems <= r && forall k :: |elems| <= k < size ==> r[k] == ZeroOf(e, IsLeafType(e))
  {
    r := elems;
    var i := |elems|;
    while i < size
      invariant |elems| <= i <= size && |r| == i && elems <= r
      invariant forall k :: |elems| <= k < i ==> r[k] == ZeroOf(e, IsLeafType(e))
    {
      r := r + [ZeroOf(e, IsLeafType(e))];
      i := i + 1;
    }
  }
}
