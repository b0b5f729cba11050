// The values a tree is built from and decoded into. Types are a small universe
// of what the mapping tells apart; a leaf's own value is opaque, and only a
// codec turns it into bytes and back.

module Schema {
  import opened Basics
  import opened Git
  import opened Decimal

  datatype Type =
    | Scalar
    | Message
    | Pointer(elem: Type)
    | Struct(fields: seq<Field>)
    | Map(elem: Type)
    | Slice(elem: Type)
    | Array(len: nat, elem: Type)

  datatype Field = Field(name: string, typ: Type, tagged: bool)

  // What a leaf holds. Values that encode alike need not be equal.
  type Datum = int

  datatype Value =
    | Whole(datum: Option<Datum>)
    | Nil
    | Ref(target: Value)
    | Fields(fields: seq<Value>)
    | Entries(entries: map<string, Value>)
    | Elems(elems: seq<Value>)

  datatype Codec = Codec(enc: (Type, Datum) -> Bytes, dec: (Type, Bytes) -> Option<Datum>)

  /** A decoder reads what its encoder wrote, to something that is written the
      same way again. */
  ghost predicate Lawful(c: Codec) {
    forall t, d {:trigger c.enc(t, d)} ::
      c.dec(t, c.enc(t, d)).Some? && c.enc(t, c.dec(t, c.enc(t, d)).value) == c.enc(t, d)
  }

  // ----- The leaf rule -----

  /** A run of these is stored whole. */
  predicate IsScalar(t: Type) {
    match t
    case Pointer(e) => IsScalar(e)
    case Scalar => true
    case _ => false
  }

  predicate IsLeafType(t: Type) {
    match t
    case Scalar => true
    case Message => true
    case Pointer(e) => IsLeafType(e)
    case Struct(_) => false
    case Map(_) => false
    case Slice(e) => IsScalar(e)
    case Array(_, e) => IsScalar(e)
  }

  predicate IsLeaf(f: Field) {
    f.tagged || IsLeafType(f.typ)
  }

  // A type with its pointers taken off.
  function Bare(t: Type): Type {
    if t.Pointer? then Bare(t.elem) else t
  }

  // What is stored whole, pointers aside: a scalar, a message, a run of scalars,
  // and whatever is tagged. Nothing else is.
  lemma {:induction false} LeafRule(f: Field)
    ensures IsLeaf(f) <==>
              || f.tagged || Bare(f.typ) == Scalar || Bare(f.typ) == Message
              || ((Bare(f.typ).Slice? || Bare(f.typ).Array?) && Bare(Bare(f.typ).elem) == Scalar)
    ensures IsLeafType(f.typ) <==> IsLeaf(f.(tagged := false))
    decreases f.typ
  {
    if f.typ.Pointer? {
      LeafRule(Field(f.name, f.typ.elem, f.tagged));
    } else if f.typ.Slice? || f.typ.Array? {
      ScalarRule(f.typ.elem);
    }
  }

  lemma {:induction false} ScalarRule(t: Type)
    ensures IsScalar(t) <==> Bare(t) == Scalar
  {
    if t.Pointer? { ScalarRule(t.elem); }
  }

  // A field name the language allows, each once: what Go's compiler checks.
  ghost predicate Proper(t: Type) {
    match t
    case Scalar => true
    case Message => true
    case Pointer(e) => Proper(e)
    case Struct(fs) =>
      && (forall i :: 0 <= i < |fs| ==> ValidName(fs[i].name) && Proper(fs[i].typ))
      && (forall i, j :: 0 <= i < j < |fs| ==> fs[i].name != fs[j].name)
    case Map(e) => Proper(e)
    case Slice(e) => Proper(e)
    case Array(_, e) => Proper(e)
  }

  /** v is a value of type t, met as a leaf or as something with members. Every
      index of a list is an int. */
  ghost predicate HasType(t: Type, leaf: bool, v: Value) {
    if leaf then v.Whole? && (v.datum.None? ==> t.Pointer?)
    else
      match t
      case Scalar => false
      case Message => false
      case Pointer(e) => v.Nil? || (v.Ref? && HasType(e, false, v.target))
      case Struct(fs) =>
        v.Fields? && |v.fields| == |fs| &&
        forall i :: 0 <= i < |fs| ==> HasType(fs[i].typ, IsLeaf(fs[i]), v.fields[i])
      case Map(e) =>
        v.Nil? || (v.Entries? && forall k :: k in v.entries ==> HasType(e, IsLeafType(e), v.entries[k]))
      case Slice(e) =>
        v.Elems? && |v.elems| - 1 <= MaxInt64 &&
        forall i :: 0 <= i < |v.elems| ==> HasType(e, IsLeafType(e), v.elems[i])
      case Array(n, e) =>
        v.Elems? && |v.elems| == n <= MaxInt64 &&
        forall i :: 0 <= i < n ==> HasType(e, IsLeafType(e), v.elems[i])
  }

  /** The value Go gives a variable nobody has set. */
  function ZeroOf(t: Type, leaf: bool): Value {
    if leaf then Whole(if t.Pointer? then None else Some(0))
    else
      match t
      case Scalar => Nil
      case Message => Nil
      case Pointer(_) => Nil
      case Struct(fs) => Fields(seq(|fs|, i requires 0 <= i < |fs| => ZeroOf(fs[i].typ, IsLeaf(fs[i]))))
      case Map(_) => Nil
      case Slice(_) => Elems([])
      case Array(n, e) => Elems(seq(n, i => ZeroOf(e, IsLeafType(e))))
  }

  // Every array's length is an int.
  ghost predicate Sized(t: Type) {
    match t
    case Scalar => true
    case Message => true
    case Pointer(e) => Sized(e)
    case Struct(fs) => forall i :: 0 <= i < |fs| ==> Sized(fs[i].typ)
    case Map(e) => Sized(e)
    case Slice(e) => Sized(e)
    case Array(n, e) => n <= MaxInt64 && Sized(e)
  }

  // A zero value is a value of its type.
  lemma {:induction false} ZeroTyped(t: Type, leaf: bool)
    requires Sized(t) && (leaf || (t != Scalar && t != Message))
    ensures HasType(t, leaf, ZeroOf(t, leaf))
  {
    if !leaf {
      match t
      case Struct(fs) =>
        forall i | 0 <= i < |fs| ensures HasType(fs[i].typ, IsLeaf(fs[i]), ZeroOf(fs[i].typ, IsLeaf(fs[i]))) {
          ZeroTyped(fs[i].typ, IsLeaf(fs[i]));
        }
      case Array(n, e) => ZeroTyped(e, IsLeafType(e));
      case _ =>
    }
  }

  // ----- What a value stores -----

  // The element a name addresses: names are the indices, written in decimal.
  ghost predicate IsIndex(name: string, i: nat) {
    Itoa(i) == name
  }

  function IndexFrom(name: string, n: nat, i: nat): (r: nat)
    requires i <= n
    ensures i <= r <= n
    ensures r < n ==> Itoa(r) == name
    ensures forall k :: i <= k < r ==> Itoa(k) != name
    decreases n - i
  {
    if i == n || Itoa(i) == name then i else IndexFrom(name, n, i + 1)
  }

  function FieldFrom(fs: seq<Field>, name: string, i: nat): (r: nat)
    requires i <= |fs|
    ensures i <= r <= |fs|
    ensures r < |fs| ==> fs[r].name == name
    ensures forall k :: i <= k < r ==> fs[k].name != name
    decreases |fs| - i
  {
    if i == |fs| || fs[i].name == name then i else FieldFrom(fs, name, i + 1)
  }

  /** A member as a path finds it: its type, whether it is stored whole, and
      what it holds. */
  datatype Member = Member(typ: Type, leaf: bool, value: Value)

  /** What a value holds under a name. */
  function MemberAt(t: Type, v: Value, name: string): Option<Member> {
    match t
    case Struct(fs) =>
      var i := FieldFrom(fs, name, 0);
      if v.Fields? && i < |fs| && i < |v.fields| then Some(Member(fs[i].typ, IsLeaf(fs[i]), v.fields[i])) else None
    case Map(e) =>
      if v.Entries? && name in v.entries then Some(Member(e, IsLeafType(e), v.entries[name])) else None
    case Slice(e) => ElemAt(e, v, name)
    case Array(_, e) => ElemAt(e, v, name)
    case _ => None
  }

  function ElemAt(e: Type, v: Value, name: string): Option<Member> {
    if !v.Elems? then None
    else
      var i := IndexFrom(name, |v.elems|, 0);
      if i < |v.elems| then Some(Member(e, IsLeafType(e), v.elems[i])) else None
  }

  /** The blob a value stores at a path beneath it, if any: nil stores nothing,
      a leaf stores itself, and what has members stores what they do. */
  function Stored(c: Codec, t: Type, leaf: bool, v: Value, p: Path): Option<Bytes>
    decreases t, |p|
  {
    if leaf then
      if p == [] && v.Whole? && v.datum.Some? then Some(c.enc(t, v.datum.value)) else None
    else if t.Pointer? then
      if v.Ref? then Stored(c, t.elem, false, v.target, p) else None
    else if p == [] then None
    else
      match MemberAt(t, v, p[0])
      case None => None
      case Some(m) => assert m.typ < t; Stored(c, m.typ, m.leaf, m.value, p[1..])
  }

  ghost predicate Leafless(c: Codec, t: Type, leaf: bool, v: Value) {
    forall p :: Stored(c, t, leaf, v, p).None?
  }

  // No stored path leads through another.
  lemma {:induction false} StoredPrefixFree(c: Codec, t: Type, leaf: bool, v: Value, p: Path, q: Path)
    requires Stored(c, t, leaf, v, p).Some? && Stored(c, t, leaf, v, q).Some? && p <= q
    ensures p == q
    decreases t, |p|
  {
    if !leaf {
      if t.Pointer? {
        StoredPrefixFree(c, t.elem, false, v.target, p, q);
      } else {
        var m := MemberAt(t, v, p[0]).value;
        assert p[1..] <= q[1..] && p == [p[0]] + p[1..] && q == [q[0]] + q[1..];
        StoredPrefixFree(c, m.typ, m.leaf, m.value, p[1..], q[1..]);
      }
    }
  }

  /** Every key of every map in the value is a valid name. */
  ghost predicate KeysValid(t: Type, leaf: bool, v: Value) {
    !leaf ==>
      match t
      case Pointer(e) => v.Ref? ==> KeysValid(e, false, v.target)
      case Struct(fs) =>
        v.Fields? && |v.fields| == |fs| ==>
          forall i :: 0 <= i < |fs| ==> KeysValid(fs[i].typ, IsLeaf(fs[i]), v.fields[i])
      case Map(e) =>
        v.Entries? ==> forall k :: k in v.entries ==> ValidName(k) && KeysValid(e, IsLeafType(e), v.entries[k])
      case Slice(e) => v.Elems? ==> forall i :: 0 <= i < |v.elems| ==> KeysValid(e, IsLeafType(e), v.elems[i])
      case Array(_, e) => v.Elems? ==> forall i :: 0 <= i < |v.elems| ==> KeysValid(e, IsLeafType(e), v.elems[i])
      case _ => true
  }

  /** The type at a path, and whether it is stored whole, for any value of t. */
  function TypeOn(t: Type, p: Path): (r: Option<(Type, bool)>)
    ensures p == [] ==> r.None?
    decreases t, 0
  {
    match t
    case Pointer(e) => TypeOn(e, p)
    case Struct(fs) =>
      if p == [] then None
      else
        var i := FieldFrom(fs, p[0], 0);
        if i == |fs| then None else Inside(fs[i].typ, IsLeaf(fs[i]), p[1..])
    case Map(e) => if p == [] then None else Inside(e, IsLeafType(e), p[1..])
    case Slice(e) => if p == [] then None else Inside(e, IsLeafType(e), p[1..])
    case Array(_, e) => if p == [] then None else Inside(e, IsLeafType(e), p[1..])
    case _ => None
  }

  function Inside(t: Type, leaf: bool, p: Path): Option<(Type, bool)>
    decreases t, 1
  {
    if p == [] then Some((t, leaf)) else if leaf then None else TypeOn(t, p)
  }

  ghost predicate IsLeafPath(t: Type, p: Path) {
    TypeOn(t, p).Some? && TypeOn(t, p).value.1
  }

  /** The value at a path, following pointers on the way. */
  function MemberOn(t: Type, v: Value, p: Path): Option<Member>
    decreases t
  {
    if t.Pointer? then
      if v.Ref? then MemberOn(t.elem, v.target, p) else None
    else if p == [] then None
    else
      match MemberAt(t, v, p[0])
      case None => None
      case Some(m) =>
        if |p| == 1 then Some(m)
        else if m.leaf then None
        else assert m.typ < t; MemberOn(m.typ, m.value, p[1..])
  }

  // What a value stores beneath a path is what stands at the path stores.
  lemma {:induction false} StoredBeneath(c: Codec, t: Type, v: Value, p: Path, q: Path)
    requires p != []
    ensures Stored(c, t, false, v, p + q) ==
            if MemberOn(t, v, p).None? then None
            else var m := MemberOn(t, v, p).value; Stored(c, m.typ, m.leaf, m.value, q)
    decreases t
  {
    if t.Pointer? {
      if v.Ref? { StoredBeneath(c, t.elem, v.target, p, q); }
    } else {
      assert (p + q)[0] == p[0] && (p + q)[1..] == p[1..] + q;
      var m := MemberAt(t, v, p[0]);
      if m.Some? && |p| > 1 && !m.value.leaf {
        StoredBeneath(c, m.value.typ, m.value.value, p[1..], q);
      }
    }
  }

  lemma {:induction false} StoredIsTyped(c: Codec, t: Type, v: Value, p: Path)
    requires Stored(c, t, false, v, p).Some?
    ensures IsLeafPath(t, p)
    decreases t
  {
    if t.Pointer? {
      StoredIsTyped(c, t.elem, v.target, p);
    } else {
      var m := MemberAt(t, v, p[0]).value;
      if !m.leaf {
        StoredIsTyped(c, m.typ, m.value, p[1..]);
      }
    }
  }

  lemma {:induction false} MemberIsTyped(t: Type, v: Value, p: Path)
    requires MemberOn(t, v, p).Some?
    ensures TypeOn(t, p) == Some((MemberOn(t, v, p).value.typ, MemberOn(t, v, p).value.leaf))
    decreases t
  {
    if t.Pointer? {
      MemberIsTyped(t.elem, v.target, p);
    } else if |p| > 1 {
      var m := MemberAt(t, v, p[0]).value;
      MemberIsTyped(m.typ, m.value, p[1..]);
    }
  }

  // Nothing lies beneath a leaf.
  lemma {:induction false} LeafPathEnds(t: Type, p: Path, q: Path)
    requires IsLeafPath(t, p) && TypeOn(t, q).Some? && p <= q
    ensures p == q
    decreases t
  {
    if t.Pointer? {
      LeafPathEnds(t.elem, p, q);
    } else {
      assert p[1..] <= q[1..] && p == [p[0]] + p[1..] && q == [q[0]] + q[1..];
      var s := Step(t, p[0]);
      if p[1..] != [] { LeafPathEnds(s.0, p[1..], q[1..]); }
    }
  }

  // One component down a type that has members.
  ghost function Step(t: Type, name: string): (s: (Type, bool))
    requires !t.Pointer? && exists p :: TypeOn(t, [name] + p).Some?
    ensures s.0 < t && forall p :: TypeOn(t, [name] + p) == Inside(s.0, s.1, p)
  {
    match t
    case Struct(fs) =>
      var i := FieldFrom(fs, name, 0);
      assert forall p: Path :: ([name] + p)[1..] == p;
      (fs[i].typ, IsLeaf(fs[i]))
    case Map(e) => assert forall p: Path :: ([name] + p)[1..] == p; (e, IsLeafType(e))
    case Slice(e) => assert forall p: Path :: ([name] + p)[1..] == p; (e, IsLeafType(e))
    case Array(_, e) => assert forall p: Path :: ([name] + p)[1..] == p; (e, IsLeafType(e))
  }

  // An element goes by its index, and only it does.
  lemma ElemNamed(t: Type, v: Value, i: nat)
    requires (t.Slice? || t.Array?) && v.Elems? && i < |v.elems|
    ensures MemberAt(t, v, Itoa(i)) == Some(Member(t.elem, IsLeafType(t.elem), v.elems[i]))
  {
    ItoaInjective(IndexFrom(Itoa(i), |v.elems|, 0), i);
  }

  // A zero value stores nothing that any other value of its type does not store
  // too, and what it does store is zeros.
  lemma {:induction false} ZeroStoresLeast(c: Codec, t: Type, leaf: bool, v: Value, p: Path)
    requires HasType(t, leaf, v) && Stored(c, t, leaf, ZeroOf(t, leaf), p).Some?
    ensures Stored(c, t, leaf, v, p).Some?
    ensures exists s :: Stored(c, t, leaf, ZeroOf(t, leaf), p) == Some(c.enc(s, 0))
    decreases t
  {
    if !leaf {
      var m := MemberAt(t, ZeroOf(t, false), p[0]).value;
      assert MemberAt(t, v, p[0]).Some?;
      var n := MemberAt(t, v, p[0]).value;
      assert n.typ == m.typ && n.leaf == m.leaf && m.value == ZeroOf(m.typ, m.leaf) && HasType(n.typ, n.leaf, n.value);
      ZeroStoresLeast(c, m.typ, m.leaf, n.value, p[1..]);
    }
  }

  // Names on a stored path can be path elements.
  lemma {:induction false} StoredNamesValid(c: Codec, t: Type, leaf: bool, v: Value, p: Path)
    requires Proper(t) && HasType(t, leaf, v) && KeysValid(t, leaf, v)
    requires Stored(c, t, leaf, v, p).Some?
    ensures forall i :: 0 <= i < |p| ==> ValidName(p[i])
    decreases t, |p|
  {
    if !leaf {
      if t.Pointer? {
        StoredNamesValid(c, t.elem, false, v.target, p);
      } else {
        var m := MemberAt(t, v, p[0]).value;
        MemberFine(t, v, p[0]);
        StoredNamesValid(c, m.typ, m.leaf, m.value, p[1..]);
        assert p == [p[0]] + p[1..];
      }
    }
  }

  lemma MemberFine(t: Type, v: Value, name: string)
    requires Proper(t) && HasType(t, false, v) && KeysValid(t, false, v) && MemberAt(t, v, name).Some?
    ensures var m := MemberAt(t, v, name).value;
            Proper(m.typ) && HasType(m.typ, m.leaf, m.value) && KeysValid(m.typ, m.leaf, m.value)
    ensures ValidName(name)
  {
  }
}
