// Decoding a tree into a value: one recursive writer over two views, a flat map
// of leaves and a pair of trees, the second of which lets it leave alone what
// has not moved.

module Apply {
  import opened Basics
  import opened Git
  import opened Decimal
  import opened Schema

  // ----- Views -----

  datatype View =
    | MapView(leaves: map<Path, Bytes>, prefix: Path)
    | TreeView(src: set<Hash>, now: seq<Entry>, was: Option<seq<Entry>>)

  /** One member as a view shows it: nothing there, the same as at the baseline,
      or something to read. Broken is an object the source does not have. */
  datatype Seen<T> = Broken | Missing | Unchanged | Changed(what: T)

  function EntryIn(vw: View, name: string, wantDir: bool): Seen<Entry>
    requires vw.TreeView?
  {
    match ByName(vw.now, name)
    case None => Missing
    case Some(e) =>
      if e.mode.Dir? != wantDir then Missing
      else
        var before := if vw.was.Some? then ByName(vw.was.value, name) else None;
        if before.Some? && before.value.hash == e.hash && before.value.mode == e.mode then Unchanged
        else Changed(e)
  }

  function LeafIn(vw: View, name: string): Seen<Bytes> {
    match vw
    case MapView(leaves, prefix) =>
      if prefix + [name] in leaves then Changed(leaves[prefix + [name]]) else Missing
    case TreeView(src, _, _) =>
      match EntryIn(vw, name, false)
      case Changed(e) => if e.hash in src && IsBlob(e.hash) then Changed(e.hash.obj.content) else Broken
      case Unchanged => Unchanged
      case _ => Missing
  }

  // The older tree's entries; without the object they are not consulted.
  function Baseline(src: set<Hash>, h: Hash): Option<seq<Entry>> {
    if h in src && IsTree(h) then Some(h.obj.entries) else None
  }

  function SubtreeIn(vw: View, name: string): Seen<View> {
    match vw
    case MapView(leaves, prefix) =>
      if exists p | p in leaves :: prefix + [name] < p then Changed(MapView(leaves, prefix + [name])) else Missing
    case TreeView(src, _, was) =>
      match EntryIn(vw, name, true)
      case Changed(e) =>
        if e.hash !in src || !IsTree(e.hash) then Broken
        else
          var before := if was.Some? then ByName(was.value, name) else None;
          Changed(TreeView(src, e.hash.obj.entries,
                           if before.Some? && before.value.mode.Dir? then Baseline(src, before.value.hash) else None))
      case Unchanged => Unchanged
      case _ => Missing
  }

  function NamesIn(vw: View): set<string> {
    match vw
    case MapView(leaves, prefix) => set p | p in leaves && prefix < p :: p[|prefix|]
    case TreeView(_, now, _) => set i | 0 <= i < |now| :: now[i].name
  }

  /** The length of a list whose elements go by these names: None unless they are
      exactly the numbers below it. */
  function Count(names: set<string>): Option<nat> {
    if Numbers(names) == UpTo(|names|) then Some(|names|) else None
  }

  function Numbers(names: set<string>): (r: set<Option<int>>)
    ensures forall n :: n in names ==> Atoi(n) in r
  {
    set n | n in names :: Atoi(n)
  }

  function UpTo(n: nat): (r: set<Option<int>>)
    ensures forall x :: x in r <==> x.Some? && 0 <= x.value < n
  {
    set i | 0 <= i < n :: Some(i)
  }

  // ----- Writing -----

  /** What happens to one member: left alone, emptied, or given a value. */
  datatype Outcome = Fail | Keep | Clear | Put(value: Value)

  function ApplyMember(c: Codec, t: Type, leaf: bool, vw: View, name: string, cur: Value): Outcome
    decreases t, 2
  {
    if leaf then
      match LeafIn(vw, name)
      case Broken => Fail
      case Missing => Clear
      case Unchanged => Keep
      case Changed(data) => if c.dec(t, data).Some? then Put(Whole(c.dec(t, data))) else Fail
    else
      match SubtreeIn(vw, name)
      case Broken => Fail
      case Missing => Clear
      case Unchanged => Keep
      case Changed(sub) =>
        match ApplyInto(c, t, sub, cur)
        case Err => Fail
        case Ok(v) => Put(v)
  }

  // What a field or an element holds afterwards; unlike a key it cannot be gone.
  function InPlace(o: Outcome, t: Type, leaf: bool, cur: Value): Value {
    match o
    case Put(v) => v
    case Keep => cur
    case _ => ZeroOf(t, leaf)
  }

  function FieldOf(v: Value, fs: seq<Field>, i: nat): Value
    requires i < |fs|
  {
    if v.Fields? && i < |v.fields| then v.fields[i] else ZeroOf(fs[i].typ, IsLeaf(fs[i]))
  }

  function ElemOf(v: Value, e: Type, i: nat): Value {
    if v.Elems? && i < |v.elems| then v.elems[i] else ZeroOf(e, IsLeafType(e))
  }

  function EntriesOf(v: Value): map<string, Value> {
    if v.Entries? then v.entries else map[]
  }

  function EntryOf(v: Value, e: Type, name: string): Value {
    if name in EntriesOf(v) then EntriesOf(v)[name] else ZeroOf(e, IsLeafType(e))
  }

  function FieldOuts(c: Codec, t: Type, vw: View, cur: Value): (out: seq<Outcome>)
    requires t.Struct?
    ensures |out| == |t.fields|
    ensures forall i :: 0 <= i < |out| ==>
      out[i] == ApplyMember(c, t.fields[i].typ, IsLeaf(t.fields[i]), vw, t.fields[i].name, FieldOf(cur, t.fields, i))
    decreases t, 0
  {
    seq(|t.fields|, i requires 0 <= i < |t.fields| =>
      ApplyMember(c, t.fields[i].typ, IsLeaf(t.fields[i]), vw, t.fields[i].name, FieldOf(cur, t.fields, i)))
  }

  function ElemOuts(c: Codec, e: Type, vw: View, cur: Value, n: nat): (out: seq<Outcome>)
    ensures |out| == n
    ensures forall i :: 0 <= i < n ==> out[i] == ApplyMember(c, e, IsLeafType(e), vw, Itoa(i), ElemOf(cur, e, i))
    decreases e, 3
  {
    seq(n, i requires 0 <= i < n => ApplyMember(c, e, IsLeafType(e), vw, Itoa(i), ElemOf(cur, e, i)))
  }

  function EntryOuts(c: Codec, e: Type, vw: View, cur: Value): (out: map<string, Outcome>)
    ensures out.Keys == NamesIn(vw)
    ensures forall n :: n in out ==> out[n] == ApplyMember(c, e, IsLeafType(e), vw, n, EntryOf(cur, e, n))
    decreases e, 3
  {
    map n | n in NamesIn(vw) :: ApplyMember(c, e, IsLeafType(e), vw, n, EntryOf(cur, e, n))
  }

  function PutFields(fs: seq<Field>, out: seq<Outcome>, cur: Value): Value
    requires |out| == |fs|
  {
    Fields(seq(|fs|, i requires 0 <= i < |fs| => InPlace(out[i], fs[i].typ, IsLeaf(fs[i]), FieldOf(cur, fs, i))))
  }

  // The elements the view has, then zeros up to the size.
  function PutElems(e: Type, out: seq<Outcome>, cur: Value, size: nat): Value {
    Elems(seq(size, i requires 0 <= i < size =>
      if i < |out| then InPlace(out[i], e, IsLeafType(e), ElemOf(cur, e, i)) else ZeroOf(e, IsLeafType(e))))
  }

  function PutEntries(out: map<string, Outcome>, cur: Value): Value {
    Entries(map n | n in out && (out[n].Put? || (out[n].Keep? && n in EntriesOf(cur))) ::
      if out[n].Put? then out[n].value else EntriesOf(cur)[n])
  }

  // The elements written, unless one could not be.
  function Filled(e: Type, out: seq<Outcome>, cur: Value, size: nat): Result<Value> {
    if Fail in out then Err else Ok(PutElems(e, out, cur, size))
  }

  /** What cur becomes when it is filled from a view; a nil pointer that is met
      points at a zero value first. */
  function ApplyInto(c: Codec, t: Type, vw: View, cur: Value): Result<Value>
    decreases t, 1
  {
    match t
    case Pointer(e) =>
      (match ApplyInto(c, e, vw, if cur.Ref? then cur.target else ZeroOf(e, false))
       case Err => Err
       case Ok(v) => Ok(Ref(v)))
    case Struct(fs) =>
      var out := FieldOuts(c, t, vw, cur);
      if Fail in out then Err else Ok(PutFields(fs, out, cur))
    case Map(e) =>
      var out := EntryOuts(c, e, vw, cur);
      if Fail in out.Values then Err else Ok(PutEntries(out, cur))
    case Slice(e) =>
      (match Count(NamesIn(vw))
       case None => Err
       case Some(n) =>
         Filled(e, ElemOuts(c, e, vw, cur, n), cur, n))
    case Array(len, e) =>
      (match Count(NamesIn(vw))
       case None => Err
       case Some(n) =>
         if n > len then Err else Filled(e, ElemOuts(c, e, vw, cur, n), cur, len))
    case _ => Err
  }

  /** What dst becomes when a leaf map is decoded into it. */
  function ApplyLeaves(c: Codec, t: Type, dst: Value, leaves: map<Path, Bytes>): Result<Value> {
    ApplyInto(c, t, MapView(leaves, []), dst)
  }

  /** What dst becomes once the difference between two trees is applied to it;
      for a tree and itself that is dst. */
  function ApplySince(c: Codec, t: Type, dst: Value, src: set<Hash>, was: Hash, now: Hash): Result<Value> {
    if now == Zero then Err
    else if was == now then Ok(dst)
    else if now !in src || !IsTree(now) then Err
    else ApplyInto(c, t, TreeView(src, now.obj.entries, Baseline(src, was)), dst)
  }

  // ----- What a tree means -----

  /** The value a tree decodes to, read off the tree itself: no view, no
      baseline, nothing there before. None within a result is a member the
      tree does not carry. */
  function DecodeMember(c: Codec, t: Type, leaf: bool, e: Option<Entry>): Result<Option<Value>>
    decreases t, 2
  {
    if e.None? || e.value.mode.Dir? == leaf then Ok(None)
    else if leaf then
      if !IsBlob(e.value.hash) || c.dec(t, e.value.hash.obj.content).None? then Err
      else Ok(Some(Whole(c.dec(t, e.value.hash.obj.content))))
    else if !IsTree(e.value.hash) then Err
    else
      match DecodeTree(c, t, e.value.hash.obj.entries)
      case Err => Err
      case Ok(v) => Ok(Some(v))
  }

  function OrZero(r: Result<Option<Value>>, t: Type, leaf: bool): Value {
    if r.Ok? && r.value.Some? then r.value.value else ZeroOf(t, leaf)
  }

  function FieldDecs(c: Codec, t: Type, es: seq<Entry>): (dec: seq<Result<Option<Value>>>)
    requires t.Struct?
    ensures |dec| == |t.fields|
    ensures forall i :: 0 <= i < |dec| ==>
      dec[i] == DecodeMember(c, t.fields[i].typ, IsLeaf(t.fields[i]), ByName(es, t.fields[i].name))
    decreases t, 0
  {
    seq(|t.fields|, i requires 0 <= i < |t.fields| =>
      DecodeMember(c, t.fields[i].typ, IsLeaf(t.fields[i]), ByName(es, t.fields[i].name)))
  }

  function ElemDecs(c: Codec, e: Type, es: seq<Entry>, n: nat): (dec: seq<Result<Option<Value>>>)
    ensures |dec| == n
    ensures forall i :: 0 <= i < n ==> dec[i] == DecodeMember(c, e, IsLeafType(e), ByName(es, Itoa(i)))
    decreases e, 3
  {
    seq(n, i requires 0 <= i < n => DecodeMember(c, e, IsLeafType(e), ByName(es, Itoa(i))))
  }

  function EntryDecs(c: Codec, e: Type, es: seq<Entry>): (dec: map<string, Result<Option<Value>>>)
    ensures dec.Keys == NamesOf(es)
    ensures forall n :: n in dec ==> dec[n] == DecodeMember(c, e, IsLeafType(e), ByName(es, n))
    decreases e, 3
  {
    map n | n in NamesOf(es) :: DecodeMember(c, e, IsLeafType(e), ByName(es, n))
  }

  function SetFields(fs: seq<Field>, dec: seq<Result<Option<Value>>>): Value
    requires |dec| == |fs|
  {
    Fields(seq(|fs|, i requires 0 <= i < |fs| => OrZero(dec[i], fs[i].typ, IsLeaf(fs[i]))))
  }

  function SetElems(e: Type, dec: seq<Result<Option<Value>>>, size: nat): Value {
    Elems(seq(size, i requires 0 <= i < size =>
      if i < |dec| then OrZero(dec[i], e, IsLeafType(e)) else ZeroOf(e, IsLeafType(e))))
  }

  function SetEntries(dec: map<string, Result<Option<Value>>>): Value {
    Entries(map n | n in dec && dec[n].Ok? && dec[n].value.Some? :: dec[n].value.value)
  }

  function Decoded(e: Type, dec: seq<Result<Option<Value>>>, size: nat): Result<Value> {
    if Err in dec then Err else Ok(SetElems(e, dec, size))
  }

  function DecodeTree(c: Codec, t: Type, es: seq<Entry>): Result<Value>
    decreases t, 1
  {
    match t
    case Pointer(e) =>
      (match DecodeTree(c, e, es)
       case Err => Err
       case Ok(v) => Ok(Ref(v)))
    case Struct(fs) =>
      var dec := FieldDecs(c, t, es);
      if Err in dec then Err else Ok(SetFields(fs, dec))
    case Map(e) =>
      var dec := EntryDecs(c, e, es);
      if Err in dec.Values then Err else Ok(SetEntries(dec))
    case Slice(e) =>
      (match Count(NamesOf(es))
       case None => Err
       case Some(n) =>
         Decoded(e, ElemDecs(c, e, es, n), n))
    case Array(len, e) =>
      (match Count(NamesOf(es))
       case None => Err
       case Some(n) =>
         if n > len then Err else Decoded(e, ElemDecs(c, e, es, n), len))
    case _ => Err
  }

  // ----- What a view shows -----

  function ListHash(es: seq<Entry>): Hash {
    Digest(Tree(es))
  }

  // A tree as a full build leaves it.
  ghost predicate FineTree(es: seq<Entry>) {
    WellFormed(ListHash(es)) && NoEmptyDirs(ListHash(es))
  }

  /** The view is of these entries: the newer of a pair of trees, or a flat map
      of exactly the leaves beneath them. */
  ghost predicate Shows(vw: View, es: seq<Entry>) {
    match vw
    case TreeView(_, now, _) => now == es
    case MapView(leaves, prefix) =>
      && FineTree(es)
      && forall q ::
           && (prefix + q in leaves <==> LeafAt(ListHash(es), q).Some?)
           && (LeafAt(ListHash(es), q).Some? ==>
                 IsBlob(LeafAt(ListHash(es), q).value.hash) &&
                 leaves[prefix + q] == LeafAt(ListHash(es), q).value.hash.obj.content)
  }

  // Everything the entries reach can be read.
  ghost predicate Readable(vw: View) {
    vw.TreeView? ==> forall x :: x in ReachAll(vw.now) && x.Digest? ==> x in vw.src
  }

  // cur holds what the baseline decodes to, where there is one.
  ghost predicate AtBaseline(c: Codec, t: Type, vw: View, cur: Value) {
    vw.TreeView? && vw.was.Some? ==> DecodeTree(c, t, vw.was.value) == Ok(cur)
  }

  ghost predicate MemberAtBaseline(c: Codec, t: Type, leaf: bool, vw: View, name: string, cur: Value) {
    vw.TreeView? && vw.was.Some? ==>
      var d := DecodeMember(c, t, leaf, ByName(vw.was.value, name));
      d.Ok? && (d.value.Some? ==> d.value.value == cur)
  }

  /** The outcome is what the tree says the member is. */
  ghost predicate Agrees(o: Outcome, d: Result<Option<Value>>, cur: Value, readable: bool) {
    match o
    case Fail => readable ==> d.Err?
    case Keep => d == Ok(Some(cur))
    case Clear => d == Ok(None)
    case Put(v) => d == Ok(Some(v))
  }

  lemma MapLeaf(leaves: map<Path, Bytes>, prefix: Path, es: seq<Entry>, name: string)
    requires Shows(MapView(leaves, prefix), es)
    ensures prefix + [name] in leaves <==> ByName(es, name).Some? && !ByName(es, name).value.mode.Dir?
    ensures prefix + [name] in leaves ==>
              IsBlob(ByName(es, name).value.hash) && leaves[prefix + [name]] == ByName(es, name).value.hash.obj.content
  {
    ByNameIsFind(es, name);
    assert LeafAt(ListHash(es), [name]) == LeafAt(ListHash(es), [name]);
    var e := Find(es, name);
    assert [name][1..] == [];
    assert prefix + [name] in leaves <==> LeafAt(ListHash(es), [name]).Some?;
  }

  // A directory beneath the entries shows in the map under its own prefix.
  lemma MapBelow(leaves: map<Path, Bytes>, prefix: Path, es: seq<Entry>, e: Entry)
    requires Shows(MapView(leaves, prefix), es) && e in es && e.mode.Dir?
    ensures IsTree(e.hash) && Shows(MapView(leaves, prefix + [e.name]), e.hash.obj.entries)
    ensures exists r :: r != [] && LeafAt(ListHash(es), [e.name] + r).Some?
  {
    var i :| 0 <= i < |es| && es[i] == e;
    assert KindMatches(es[i]) && HasLeaf(es[i].hash) && NoEmptyDirs(es[i].hash) && WellFormed(es[i].hash);
    assert ListHash(e.hash.obj.entries) == e.hash;
    var r :| LeafAt(e.hash, r).Some?;
    LeafAtEntry(ListHash(es), e, r);
    forall q
      ensures LeafAt(ListHash(es), [e.name] + q) == LeafAt(e.hash, q) && prefix + [e.name] + q == prefix + ([e.name] + q)
    {
      LeafAtEntry(ListHash(es), e, q);
    }
  }

  lemma StepDown(prefix: Path, name: string, r: Path)
    ensures prefix + ([name] + r) == prefix + [name] + r
    ensures r != [] ==> prefix + [name] < prefix + ([name] + r)
  {
  }

  lemma MapSubtree(leaves: map<Path, Bytes>, prefix: Path, es: seq<Entry>, name: string)
    requires Shows(MapView(leaves, prefix), es)
    ensures (exists p | p in leaves :: prefix + [name] < p) <==> ByName(es, name).Some? && ByName(es, name).value.mode.Dir?
    ensures ByName(es, name).Some? && ByName(es, name).value.mode.Dir? ==>
              var h := ByName(es, name).value.hash;
              IsTree(h) && Shows(MapView(leaves, prefix + [name]), h.obj.entries)
  {
    ByNameIsFind(es, name);
    var e := Find(es, name);
    if e.Some? && e.value.mode.Dir? {
      MapBelow(leaves, prefix, es, e.value);
      var r :| r != [] && LeafAt(ListHash(es), [name] + r).Some?;
      StepDown(prefix, name, r);
      assert prefix + ([name] + r) in leaves;
    }
    forall p | p in leaves && prefix + [name] < p
      ensures e.Some? && e.value.mode.Dir?
    {
      var q := p[|prefix|..];
      assert prefix + q == p;
      assert p[..|prefix| + 1] == prefix + [name];
      assert q[0] == p[..|prefix| + 1][|prefix|] == name;
      assert LeafAt(ListHash(es), q).Some?;
    }
  }

  lemma MapNames(leaves: map<Path, Bytes>, prefix: Path, es: seq<Entry>)
    requires Shows(MapView(leaves, prefix), es)
    ensures NamesIn(MapView(leaves, prefix)) == NamesOf(es)
  {
    var names := NamesIn(MapView(leaves, prefix));
    forall n ensures n in names <==> n in NamesOf(es) {
      MapLeaf(leaves, prefix, es, n);
      MapSubtree(leaves, prefix, es, n);
      ByNameMember(es, n);
      if n !in NamesOf(es) { Unnamed(es, n); }
      if n in NamesOf(es) {
        Named(es, n);
        if ByName(es, n).value.mode.Dir? {
          var p :| p in leaves && prefix + [n] < p;
          assert p[..|prefix| + 1] == prefix + [n];
          assert p[|prefix|] == p[..|prefix| + 1][|prefix|];
          assert prefix < p;
        } else {
          assert prefix < prefix + [n] && (prefix + [n])[|prefix|] == n;
        }
      }
      if n in names {
        var p :| p in leaves && prefix < p && p[|prefix|] == n;
        var q := p[|prefix|..];
        assert prefix + q == p && q[0] == n;
        assert LeafAt(ListHash(es), q).Some?;
        ByNameIsFind(es, n);
      }
    }
  }

  lemma Named(es: seq<Entry>, n: string)
    requires n in NamesOf(es)
    ensures ByName(es, n).Some?
  {
    if es != [] {
      NamesSplit(es);
      if n in NamesOf(es[1..]) { Named(es[1..], n); }
    }
  }

  // ----- Writing agrees with the tree -----

  lemma ReadableBelow(vw: View, e: Entry)
    requires vw.TreeView? && Readable(vw) && e in vw.now
    ensures e.hash.Digest? ==> e.hash in vw.src
    ensures IsTree(e.hash) ==> forall was :: Readable(TreeView(vw.src, e.hash.obj.entries, was))
  {
    var i :| 0 <= i < |vw.now| && vw.now[i] == e;
    assert e.hash in Reach(e.hash);
    if IsTree(e.hash) {
      forall x | x in ReachAll(e.hash.obj.entries) ensures x in ReachAll(vw.now) {
        assert x in Reach(e.hash);
      }
    }
  }

  lemma LeafAgrees(c: Codec, t: Type, vw: View, name: string, cur: Value, es: seq<Entry>)
    requires Shows(vw, es) && MemberAtBaseline(c, t, true, vw, name, cur)
    ensures Agrees(ApplyMember(c, t, true, vw, name, cur), DecodeMember(c, t, true, ByName(es, name)), cur, Readable(vw))
  {
    match vw
    case MapView(leaves, prefix) => MapLeaf(leaves, prefix, es, name);
    case TreeView(_, _, _) => TreeLeafAgrees(c, t, vw, name, cur);
  }

  lemma TreeLeafAgrees(c: Codec, t: Type, vw: View, name: string, cur: Value)
    requires vw.TreeView? && MemberAtBaseline(c, t, true, vw, name, cur)
    ensures Agrees(ApplyMember(c, t, true, vw, name, cur), DecodeMember(c, t, true, ByName(vw.now, name)), cur, Readable(vw))
  {
    ByNameMember(vw.now, name);
    var e, seen := ByName(vw.now, name), EntryIn(vw, name, false);
    if seen.Unchanged? { ByNameMember(vw.was.value, name); }
    if Readable(vw) && e.Some? { ReadableBelow(vw, e.value); }
  }

  lemma MapSubtreeAgrees(c: Codec, t: Type, leaves: map<Path, Bytes>, prefix: Path, name: string, cur: Value,
        es: seq<Entry>)
    requires Shows(MapView(leaves, prefix), es)
    ensures Agrees(ApplyMember(c, t, false, MapView(leaves, prefix), name, cur),
                   DecodeMember(c, t, false, ByName(es, name)), cur, true)
    decreases t, 2
  {
    MapSubtree(leaves, prefix, es, name);
    var e, seen := ByName(es, name), SubtreeIn(MapView(leaves, prefix), name);
    if e.Some? && e.value.mode.Dir? {
      assert seen == Changed(MapView(leaves, prefix + [name]));
      IntoAgrees(c, t, MapView(leaves, prefix + [name]), cur, e.value.hash.obj.entries);
    }
  }

  // A subtree that is missing, unchanged or not to be had needs no descent.
  lemma TreeSubtreeSettled(c: Codec, t: Type, vw: View, name: string, cur: Value)
    requires vw.TreeView? && MemberAtBaseline(c, t, false, vw, name, cur) && !SubtreeIn(vw, name).Changed?
    ensures Agrees(ApplyMember(c, t, false, vw, name, cur),
                   DecodeMember(c, t, false, ByName(vw.now, name)), cur, Readable(vw))
  {
    ByNameMember(vw.now, name);
    var e := ByName(vw.now, name);
    if vw.was.Some? { ByNameMember(vw.was.value, name); }
    if Readable(vw) && e.Some? { ReadableBelow(vw, e.value); }
  }

  lemma TreeSubtreeAgrees(c: Codec, t: Type, vw: View, name: string, cur: Value)
    requires vw.TreeView? && MemberAtBaseline(c, t, false, vw, name, cur)
    ensures Agrees(ApplyMember(c, t, false, vw, name, cur),
                   DecodeMember(c, t, false, ByName(vw.now, name)), cur, Readable(vw))
    decreases t, 2
  {
    var sub := SubtreeIn(vw, name);
    if sub.Changed? {
      var e := ByName(vw.now, name);
      ByNameMember(vw.now, name);
      SubBaseline(c, t, vw, name, cur);
      if Readable(vw) { ReadableBelow(vw, e.value); }
      IntoAgrees(c, t, sub.what, cur, e.value.hash.obj.entries);
    } else {
      TreeSubtreeSettled(c, t, vw, name, cur);
    }
  }

  lemma SubBaseline(c: Codec, t: Type, vw: View, name: string, cur: Value)
    requires vw.TreeView? && MemberAtBaseline(c, t, false, vw, name, cur) && SubtreeIn(vw, name).Changed?
    ensures AtBaseline(c, t, SubtreeIn(vw, name).what, cur)
    ensures ByName(vw.now, name).Some? && IsTree(ByName(vw.now, name).value.hash)
    ensures Shows(SubtreeIn(vw, name).what, ByName(vw.now, name).value.hash.obj.entries)
  {
  }

  lemma MemberAgrees(c: Codec, t: Type, leaf: bool, vw: View, name: string, cur: Value, es: seq<Entry>)
    requires Shows(vw, es) && MemberAtBaseline(c, t, leaf, vw, name, cur)
    ensures Agrees(ApplyMember(c, t, leaf, vw, name, cur), DecodeMember(c, t, leaf, ByName(es, name)), cur, Readable(vw))
    decreases t, 3
  {
    if leaf {
      LeafAgrees(c, t, vw, name, cur, es);
    } else {
      match vw
      case MapView(leaves, prefix) => MapSubtreeAgrees(c, t, leaves, prefix, name, cur, es);
      case TreeView(_, _, _) => TreeSubtreeAgrees(c, t, vw, name, cur);
    }
  }

  /** Writing from a view over anything, or over what the baseline decodes to,
      gives what the tree decodes to; and it only fails where the tree cannot
      be decoded, or cannot be read. */
  ghost predicate Same(got: Result<Value>, want: Result<Value>, readable: bool) {
    (got.Ok? ==> want == got) && (readable ==> want == got)
  }

  lemma {:induction false} IntoAgrees(c: Codec, t: Type, vw: View, cur: Value, es: seq<Entry>)
    requires Shows(vw, es) && AtBaseline(c, t, vw, cur)
    ensures Same(ApplyInto(c, t, vw, cur), DecodeTree(c, t, es), Readable(vw))
    decreases t, 1
  {
    match t
    case Pointer(e) => IntoAgrees(c, e, vw, if cur.Ref? then cur.target else ZeroOf(e, false), es);
    case Struct(fs) => StructAgrees(c, t, vw, cur, es);
    case Map(e) => MapAgrees(c, t, vw, cur, es);
    case Slice(e) => ElemsAgree(c, t, vw, cur, es);
    case Array(len, e) => ElemsAgree(c, t, vw, cur, es);
    case _ =>
  }

  lemma FieldBaseline(c: Codec, t: Type, was: seq<Entry>, cur: Value, i: nat)
    requires t.Struct? && i < |t.fields| && DecodeTree(c, t, was) == Ok(cur)
    ensures var f := t.fields[i];
            var d := DecodeMember(c, f.typ, IsLeaf(f), ByName(was, f.name));
            d.Ok? && (d.value.Some? ==> d.value.value == FieldOf(cur, t.fields, i))
  {
    var base := FieldDecs(c, t, was);
    assert base[i] in base;
  }

  lemma FieldAgrees(c: Codec, t: Type, vw: View, cur: Value, i: nat, es: seq<Entry>)
    requires t.Struct? && i < |t.fields| && Shows(vw, es) && AtBaseline(c, t, vw, cur)
    ensures var f := t.fields[i];
            Agrees(ApplyMember(c, f.typ, IsLeaf(f), vw, f.name, FieldOf(cur, t.fields, i)),
                   DecodeMember(c, f.typ, IsLeaf(f), ByName(es, f.name)), FieldOf(cur, t.fields, i), Readable(vw))
    decreases t.fields[i].typ, 4
  {
    var f := t.fields[i];
    if vw.TreeView? && vw.was.Some? { FieldBaseline(c, t, vw.was.value, cur, i); }
    MemberAgrees(c, f.typ, IsLeaf(f), vw, f.name, FieldOf(cur, t.fields, i), es);
  }

  lemma StructAgrees(c: Codec, t: Type, vw: View, cur: Value, es: seq<Entry>)
    requires t.Struct? && Shows(vw, es) && AtBaseline(c, t, vw, cur)
    ensures Same(ApplyInto(c, t, vw, cur), DecodeTree(c, t, es), Readable(vw))
    decreases t, 0
  {
    var fs := t.fields;
    var out, dec := FieldOuts(c, t, vw, cur), FieldDecs(c, t, es);
    forall i | 0 <= i < |fs| ensures Agrees(out[i], dec[i], FieldOf(cur, fs, i), Readable(vw)) {
      FieldAgrees(c, t, vw, cur, i, es);
    }
    FailsAlike(out, dec, Readable(vw));
    if Fail !in out {
      assert PutFields(fs, out, cur) == SetFields(fs, dec);
    }
  }

  // The whole fails just when some member does.
  lemma FailsAlike(out: seq<Outcome>, dec: seq<Result<Option<Value>>>, readable: bool)
    requires |out| == |dec|
    requires forall i :: 0 <= i < |out| ==> (out[i].Fail? && readable ==> dec[i].Err?) && (!out[i].Fail? ==> dec[i].Ok?)
    ensures Fail !in out ==> Err !in dec
    ensures readable ==> (Fail in out <==> Err in dec)
  {
    if Fail in out && readable {
      var i :| 0 <= i < |out| && out[i] == Fail;
      assert dec[i] in dec;
    }
  }

  lemma ShownNames(vw: View, es: seq<Entry>)
    requires Shows(vw, es)
    ensures NamesIn(vw) == NamesOf(es)
  {
    if vw.MapView? { MapNames(vw.leaves, vw.prefix, es); }
  }

  lemma EntryBaseline(c: Codec, t: Type, was: seq<Entry>, cur: Value, n: string)
    requires t.Map? && DecodeTree(c, t, was) == Ok(cur)
    ensures var d := DecodeMember(c, t.elem, IsLeafType(t.elem), ByName(was, n));
            d.Ok? && (d.value.Some? ==> n in EntriesOf(cur) && d.value.value == EntryOf(cur, t.elem, n))
  {
    var base := EntryDecs(c, t.elem, was);
    if n in base {
      assert base[n] in base.Values;
    } else {
      Unnamed(was, n);
    }
  }

  lemma EntryAgrees(c: Codec, t: Type, vw: View, cur: Value, n: string, es: seq<Entry>)
    requires t.Map? && Shows(vw, es) && AtBaseline(c, t, vw, cur)
    ensures var e := t.elem;
            var o := ApplyMember(c, e, IsLeafType(e), vw, n, EntryOf(cur, e, n));
            && Agrees(o, DecodeMember(c, e, IsLeafType(e), ByName(es, n)), EntryOf(cur, e, n), Readable(vw))
            && (o.Keep? ==> n in EntriesOf(cur))
    decreases t.elem, 4
  {
    var e := t.elem;
    if vw.TreeView? && vw.was.Some? { EntryBaseline(c, t, vw.was.value, cur, n); }
    MemberAgrees(c, e, IsLeafType(e), vw, n, EntryOf(cur, e, n), es);
    if ApplyMember(c, e, IsLeafType(e), vw, n, EntryOf(cur, e, n)).Keep? {
      KeptWas(c, e, vw, n, EntryOf(cur, e, n));
    }
  }

  lemma MapAgrees(c: Codec, t: Type, vw: View, cur: Value, es: seq<Entry>)
    requires t.Map? && Shows(vw, es) && AtBaseline(c, t, vw, cur)
    ensures Same(ApplyInto(c, t, vw, cur), DecodeTree(c, t, es), Readable(vw))
    decreases t, 0
  {
    var e := t.elem;
    var out, dec := EntryOuts(c, e, vw, cur), EntryDecs(c, e, es);
    ShownNames(vw, es);
    forall n | n in out
      ensures Agrees(out[n], dec[n], EntryOf(cur, e, n), Readable(vw))
      ensures out[n].Keep? ==> n in EntriesOf(cur)
    {
      EntryAgrees(c, t, vw, cur, n, es);
    }
    EntriesFailAlike(out, dec, cur, Readable(vw));
  }

  // What becomes of an entry is what it decodes to.
  ghost predicate EntryAlike(o: Outcome, d: Result<Option<Value>>, n: string, cur: Value) {
    match o
    case Fail => true
    case Keep => n in EntriesOf(cur) && d == Ok(Some(EntriesOf(cur)[n]))
    case Clear => d == Ok(None)
    case Put(v) => d == Ok(Some(v))
  }

  lemma EntriesFailAlike(out: map<string, Outcome>, dec: map<string, Result<Option<Value>>>, cur: Value, readable: bool)
    requires out.Keys == dec.Keys
    requires forall n :: n in out ==> EntryAlike(out[n], dec[n], n, cur) && (out[n].Fail? && readable ==> dec[n].Err?)
    ensures Fail !in out.Values ==> Err !in dec.Values && PutEntries(out, cur) == SetEntries(dec)
    ensures readable ==> (Fail in out.Values <==> Err in dec.Values)
  {
    if Fail !in out.Values {
      forall n | n in dec ensures !dec[n].Err? && !out[n].Fail? { assert out[n] in out.Values; }
      EntriesAlike(out, dec, cur);
    } else if readable {
      var n :| n in out && out[n] == Fail;
      assert dec[n] in dec.Values;
    }
  }

  lemma EntriesAlike(out: map<string, Outcome>, dec: map<string, Result<Option<Value>>>, cur: Value)
    requires out.Keys == dec.Keys
    requires forall n :: n in out ==> EntryAlike(out[n], dec[n], n, cur) && !out[n].Fail?
    ensures PutEntries(out, cur) == SetEntries(dec)
  {
    var put, settled := PutEntries(out, cur).entries, SetEntries(dec).entries;
    assert forall n :: n in put <==> n in settled;
    assert put == settled;
  }

  // Only a member the baseline has as well is left alone.
  lemma KeptWas(c: Codec, t: Type, vw: View, name: string, cur: Value)
    requires ApplyMember(c, t, IsLeafType(t), vw, name, cur).Keep?
    ensures vw.TreeView? && vw.was.Some? && ByName(vw.was.value, name).Some?
    ensures ByName(vw.was.value, name) == ByName(vw.now, name)
    ensures ByName(vw.now, name).value.mode.Dir? != IsLeafType(t)
  {
    ByNameMember(vw.was.value, name);
    ByNameMember(vw.now, name);
  }

  // No element past the end of a list has an entry.
  lemma CountedNames(es: seq<Entry>, n: nat, i: nat)
    requires Count(NamesOf(es)) == Some(n) && i >= n
    ensures ByName(es, Itoa(i)).None?
  {
    ItoaReadsBack(i);
    NumberItoa(i);
    assert forall m :: m in NamesOf(es) ==> Atoi(m) in UpTo(n);
    Unnamed(es, Itoa(i));
  }

  lemma ListDecoded(c: Codec, t: Type, was: seq<Entry>, cur: Value, n: nat)
    requires (t.Slice? || t.Array?) && DecodeTree(c, t, was) == Ok(cur) && Count(NamesOf(was)) == Some(n)
    ensures var size := if t.Slice? then n else t.len;
            n <= size && Decoded(t.elem, ElemDecs(c, t.elem, was, n), size) == Ok(cur)
  {
  }

  // What a list was decoded to holds, in order, what its entries decode to.
  lemma DecodedElem(e: Type, dec: seq<Result<Option<Value>>>, size: nat, cur: Value, i: nat)
    requires Decoded(e, dec, size) == Ok(cur) && i < |dec| <= size
    ensures dec[i].Ok? && (dec[i].value.Some? ==> dec[i].value.value == ElemOf(cur, e, i))
  {
    assert dec[i] in dec;
  }

  lemma ElemBaseline(c: Codec, t: Type, was: seq<Entry>, cur: Value, i: nat)
    requires (t.Slice? || t.Array?) && DecodeTree(c, t, was) == Ok(cur)
    ensures var d := DecodeMember(c, t.elem, IsLeafType(t.elem), ByName(was, Itoa(i)));
            d.Ok? && (d.value.Some? ==> d.value.value == ElemOf(cur, t.elem, i))
  {
    var n := Count(NamesOf(was)).value;
    if i < n {
      ListDecoded(c, t, was, cur, n);
      DecodedElem(t.elem, ElemDecs(c, t.elem, was, n), if t.Slice? then n else t.len, cur, i);
    } else {
      CountedNames(was, n, i);
    }
  }

  lemma ElemAgrees(c: Codec, t: Type, vw: View, cur: Value, i: nat, es: seq<Entry>)
    requires (t.Slice? || t.Array?) && Shows(vw, es) && AtBaseline(c, t, vw, cur)
    ensures var e := t.elem;
            Agrees(ApplyMember(c, e, IsLeafType(e), vw, Itoa(i), ElemOf(cur, e, i)),
                   DecodeMember(c, e, IsLeafType(e), ByName(es, Itoa(i))), ElemOf(cur, e, i), Readable(vw))
    decreases t.elem, 4
  {
    if vw.TreeView? && vw.was.Some? { ElemBaseline(c, t, vw.was.value, cur, i); }
    MemberAgrees(c, t.elem, IsLeafType(t.elem), vw, Itoa(i), ElemOf(cur, t.elem, i), es);
  }

  lemma ElemsAlike(e: Type, out: seq<Outcome>, dec: seq<Result<Option<Value>>>, cur: Value, size: nat)
    requires |out| == |dec|
    requires forall i :: 0 <= i < |out| ==> InPlace(out[i], e, IsLeafType(e), ElemOf(cur, e, i)) == OrZero(dec[i], e, IsLeafType(e))
    ensures PutElems(e, out, cur, size) == SetElems(e, dec, size)
  {
  }

  lemma ElemsAgree(c: Codec, t: Type, vw: View, cur: Value, es: seq<Entry>)
    requires (t.Slice? || t.Array?) && Shows(vw, es) && AtBaseline(c, t, vw, cur)
    ensures Same(ApplyInto(c, t, vw, cur), DecodeTree(c, t, es), Readable(vw))
    decreases t, 0
  {
    ShownNames(vw, es);
    var count := Count(NamesOf(es));
    if count.None? {
      Uncounted(c, t, vw, cur, es);
    } else {
      var size := if t.Slice? then count.value else t.len;
      ElemsAgreeUpTo(c, t, vw, cur, es, count.value, size);
      FromElems(c, t, vw, cur, es, count.value, size);
    }
  }

  lemma Uncounted(c: Codec, t: Type, vw: View, cur: Value, es: seq<Entry>)
    requires (t.Slice? || t.Array?) && Count(NamesIn(vw)) == Count(NamesOf(es)) == None
    ensures ApplyInto(c, t, vw, cur) == Err && DecodeTree(c, t, es) == Err
  {
  }

  // Counted alike, a list is what its elements are.
  lemma FromElems(c: Codec, t: Type, vw: View, cur: Value, es: seq<Entry>, n: nat, size: nat)
    requires t.Slice? || t.Array?
    requires Count(NamesIn(vw)) == Count(NamesOf(es)) == Some(n) && size == if t.Slice? then n else t.len
    ensures t.Array? && n > size ==> ApplyInto(c, t, vw, cur) == Err && DecodeTree(c, t, es) == Err
    ensures t.Slice? || n <= size ==>
              && ApplyInto(c, t, vw, cur) == Filled(t.elem, ElemOuts(c, t.elem, vw, cur, n), cur, size)
              && DecodeTree(c, t, es) == Decoded(t.elem, ElemDecs(c, t.elem, es, n), size)
  {
  }

  lemma ElemsAgreeUpTo(c: Codec, t: Type, vw: View, cur: Value, es: seq<Entry>, n: nat, size: nat)
    requires (t.Slice? || t.Array?) && Shows(vw, es) && AtBaseline(c, t, vw, cur)
    ensures var e := t.elem;
            var out, dec := ElemOuts(c, e, vw, cur, n), ElemDecs(c, e, es, n);
            Same(Filled(e, out, cur, size), Decoded(e, dec, size), Readable(vw))
    decreases t.elem, 5
  {
    var e := t.elem;
    var out, dec := ElemOuts(c, e, vw, cur, n), ElemDecs(c, e, es, n);
    forall i | 0 <= i < n
      ensures Agrees(out[i], dec[i], ElemOf(cur, e, i), Readable(vw))
    {
      ElemAgrees(c, t, vw, cur, i, es);
    }
    FilledAlike(e, out, dec, cur, size, Readable(vw));
  }

  lemma FilledAlike(e: Type, out: seq<Outcome>, dec: seq<Result<Option<Value>>>, cur: Value, size: nat, readable: bool)
    requires |out| == |dec| && forall i :: 0 <= i < |out| ==> Agrees(out[i], dec[i], ElemOf(cur, e, i), readable)
    ensures Same(Filled(e, out, cur, size), Decoded(e, dec, size), readable)
  {
    FailsAlike(out, dec, readable);
    if Fail !in out { ElemsAlike(e, out, dec, cur, size); }
  }

  // ----- What it comes to -----

  // Whatever the destination held, decoding a leaf map into it gives what
  // decoding the tree gives.
  lemma LeavesDecode(c: Codec, t: Type, dst: Value, leaves: map<Path, Bytes>, es: seq<Entry>)
    requires Shows(MapView(leaves, []), es)
    ensures ApplyLeaves(c, t, dst, leaves) == DecodeTree(c, t, es)
  {
    IntoAgrees(c, t, MapView(leaves, []), dst, es);
  }

  /** dst is at the older tree, or there is no baseline it could be at. */
  ghost predicate Grounded(c: Codec, t: Type, dst: Value, src: set<Hash>, was: Hash) {
    (IsTree(was) && DecodeTree(c, t, was.obj.entries) == Ok(dst)) || Baseline(src, was).None?
  }

  // When applying a difference ends where decoding the newer tree ends. From an
  // older tree it does, whenever it succeeds, and it succeeds when the source
  // holds the newer one, whatever it holds of the older. Between a tree and
  // itself nothing is read, so it does exactly when dst was there already.
  lemma SinceDecodes(c: Codec, t: Type, dst: Value, src: set<Hash>, was: Hash, now: Hash)
    requires IsTree(now) && (was != now ==> Grounded(c, t, dst, src, was))
    ensures was != now && ApplySince(c, t, dst, src, was, now).Ok? ==>
              ApplySince(c, t, dst, src, was, now) == DecodeTree(c, t, now.obj.entries)
    ensures was == now || Reach(now) - {Zero} <= src ==>
              (ApplySince(c, t, dst, src, was, now) == DecodeTree(c, t, now.obj.entries) <==>
               was != now || DecodeTree(c, t, now.obj.entries) == Ok(dst))
  {
    assert now in Reach(now);
    if was != now && now in src {
      var vw := TreeView(src, now.obj.entries, Baseline(src, was));
      IntoAgrees(c, t, vw, dst, now.obj.entries);
      if Reach(now) - {Zero} <= src {
        assert forall x :: x in ReachAll(vw.now) ==> x in Reach(now);
      }
    }
  }

  // ----- Values keep their types -----

  // No list is longer than its indices can be read.
  lemma CountFits(names: set<string>)
    requires Count(names).Some?
    ensures Count(names).value - 1 <= MaxInt64
  {
    var n := Count(names).value;
    if n > 0 {
      assert Some(n - 1) in UpTo(n);
      var name :| name in names && Atoi(name) == Some(n - 1);
    }
  }

  // A member's outcome leaves a value of its type where there was one.
  ghost predicate KeepsType(o: Outcome, t: Type, leaf: bool) {
    o.Put? ==> HasType(t, leaf, o.value)
  }

  lemma LeafPut(c: Codec, t: Type, vw: View, name: string, cur: Value)
    ensures KeepsType(ApplyMember(c, t, true, vw, name, cur), t, true)
  {
  }

  lemma OutcomeTyped(c: Codec, t: Type, leaf: bool, vw: View, name: string, cur: Value)
    requires Sized(t) && HasType(t, leaf, cur)
    ensures KeepsType(ApplyMember(c, t, leaf, vw, name, cur), t, leaf)
    decreases t, 2
  {
    if leaf {
      LeafPut(c, t, vw, name, cur);
    } else {
      var seen := SubtreeIn(vw, name);
      if seen.Changed? && ApplyInto(c, t, seen.what, cur).Ok? { IntoTyped(c, t, seen.what, cur); }
    }
  }

  /** Whatever view a value is filled from, it stays a value of its type: what the
      view lacks is cleared to a zero of the right kind. */
  lemma {:induction false} IntoTyped(c: Codec, t: Type, vw: View, cur: Value)
    requires Sized(t) && HasType(t, false, cur) && ApplyInto(c, t, vw, cur).Ok?
    ensures HasType(t, false, ApplyInto(c, t, vw, cur).value)
    decreases t, 1
  {
    match t
    case Pointer(e) =>
      if e != Scalar && e != Message {
        ZeroTyped(e, false);
        IntoTyped(c, e, vw, if cur.Ref? then cur.target else ZeroOf(e, false));
      }
    case Struct(fs) => FieldsTyped(c, t, vw, cur);
    case Map(e) => EntriesTyped(c, t, vw, cur);
    case Slice(e) => ElemsTyped(c, t, vw, cur, Count(NamesIn(vw)).value);
    case Array(n, e) => ElemsTyped(c, t, vw, cur, Count(NamesIn(vw)).value);
  }

  lemma FieldsTyped(c: Codec, t: Type, vw: View, cur: Value)
    requires t.Struct? && Sized(t) && HasType(t, false, cur)
    ensures HasType(t, false, PutFields(t.fields, FieldOuts(c, t, vw, cur), cur))
    decreases t, 0
  {
    var fs, out := t.fields, FieldOuts(c, t, vw, cur);
    forall i | 0 <= i < |fs|
      ensures HasType(fs[i].typ, IsLeaf(fs[i]), InPlace(out[i], fs[i].typ, IsLeaf(fs[i]), FieldOf(cur, fs, i)))
    {
      OutcomeTyped(c, fs[i].typ, IsLeaf(fs[i]), vw, fs[i].name, FieldOf(cur, fs, i));
      ZeroTyped(fs[i].typ, IsLeaf(fs[i]));
    }
  }

  lemma EntriesTyped(c: Codec, t: Type, vw: View, cur: Value)
    requires t.Map? && Sized(t) && HasType(t, false, cur)
    ensures HasType(t, false, PutEntries(EntryOuts(c, t.elem, vw, cur), cur))
    decreases t, 0
  {
    var e, out := t.elem, EntryOuts(c, t.elem, vw, cur);
    ZeroTyped(e, IsLeafType(e));
    forall n | n in out ensures KeepsType(out[n], e, IsLeafType(e)) {
      OutcomeTyped(c, e, IsLeafType(e), vw, n, EntryOf(cur, e, n));
    }
  }

  lemma ElemTyped(c: Codec, t: Type, vw: View, cur: Value, i: nat)
    requires (t.Slice? || t.Array?) && Sized(t) && HasType(t, false, cur)
    ensures var e := t.elem;
            var o := ApplyMember(c, e, IsLeafType(e), vw, Itoa(i), ElemOf(cur, e, i));
            HasType(e, IsLeafType(e), InPlace(o, e, IsLeafType(e), ElemOf(cur, e, i)))
    decreases t.elem, 3
  {
    var e := t.elem;
    ZeroTyped(e, IsLeafType(e));
    OutcomeTyped(c, e, IsLeafType(e), vw, Itoa(i), ElemOf(cur, e, i));
  }

  lemma ElemsTyped(c: Codec, t: Type, vw: View, cur: Value, n: nat)
    requires (t.Slice? || t.Array?) && Sized(t) && HasType(t, false, cur) && Count(NamesIn(vw)) == Some(n)
    ensures HasType(t, false, PutElems(t.elem, ElemOuts(c, t.elem, vw, cur, n), cur, if t.Slice? then n else t.len))
    decreases t, 0
  {
    var e, size := t.elem, if t.Slice? then n else t.len;
    var elems := PutElems(e, ElemOuts(c, e, vw, cur, n), cur, size).elems;
    CountFits(NamesIn(vw));
    ZeroTyped(e, IsLeafType(e));
    forall i | 0 <= i < size ensures HasType(e, IsLeafType(e), elems[i]) {
      if i < n { ElemTyped(c, t, vw, cur, i); }
    }
  }

  // The same of what a tree decodes to, and of a difference applied.
  lemma {:induction false} DecodeTyped(c: Codec, t: Type, es: seq<Entry>)
    requires Sized(t) && DecodeTree(c, t, es).Ok?
    ensures HasType(t, false, DecodeTree(c, t, es).value)
    decreases t
  {
    // Over a zero value, reading everything, decoding is filling.
    if t != Scalar && t != Message {
      ZeroTyped(t, false);
      var vw := TreeView(ReachAll(es), es, None);
      IntoAgrees(c, t, vw, ZeroOf(t, false), es);
      IntoTyped(c, t, vw, ZeroOf(t, false));
    }
  }

  lemma SinceTyped(c: Codec, t: Type, dst: Value, src: set<Hash>, was: Hash, now: Hash)
    requires Sized(t) && HasType(t, false, dst) && ApplySince(c, t, dst, src, was, now).Ok?
    ensures HasType(t, false, ApplySince(c, t, dst, src, was, now).value)
  {
    if was != now { IntoTyped(c, t, TreeView(src, now.obj.entries, Baseline(src, was)), dst); }
  }

  // ----- What has not moved is left alone -----

  /** The entry at a path, file or directory. */
  function EntryAt(es: seq<Entry>, p: Path): Option<Entry>
    decreases |p|
  {
    if p == [] then None
    else
      match ByName(es, p[0])
      case None => None
      case Some(e) =>
        if |p| == 1 then Some(e)
        else if e.mode.Dir? && IsTree(e.hash) then EntryAt(e.hash.obj.entries, p[1..]) else None
  }

  // For a file that is the leaf at the path.
  lemma {:induction false} EntryAtFile(es: seq<Entry>, p: Path)
    requires WellFormed(ListHash(es))
    ensures LeafAt(ListHash(es), p).Some? <==> EntryAt(es, p).Some? && !EntryAt(es, p).value.mode.Dir?
    ensures LeafAt(ListHash(es), p).Some? ==> EntryAt(es, p) == LeafAt(ListHash(es), p)
    decreases |p|
  {
    if p != [] {
      ByNameIsFind(es, p[0]);
      var e := ByName(es, p[0]);
      if e.Some? {
        ByNameMember(es, p[0]);
        var i :| 0 <= i < |es| && es[i] == e.value;
        assert ListHash(es).obj.entries[i] == e.value && KindMatches(e.value) && WellFormed(e.value.hash);
        if |p| > 1 && e.value.mode.Dir? { EntryAtFile(e.value.hash.obj.entries, p[1..]); }
        if |p| == 1 { assert p[1..] == []; }
      }
    }
  }

  // Every directory on the way to a path is there.
  ghost predicate WayHeld(src: set<Hash>, es: seq<Entry>, p: Path)
    decreases |p|
  {
    |p| > 1 ==>
      match ByName(es, p[0])
      case None => false
      case Some(e) => e.mode.Dir? && e.hash in src && IsTree(e.hash) && WayHeld(src, e.hash.obj.entries, p[1..])
  }

  /** The same file or directory stands at a path before and now, and the older
      tree can be read that far. */
  ghost predicate Unmoved(vw: View, p: Path, leaf: bool) {
    && vw.TreeView? && vw.was.Some? && WayHeld(vw.src, vw.was.value, p)
    && EntryAt(vw.now, p).Some? && EntryAt(vw.now, p) == EntryAt(vw.was.value, p)
    && EntryAt(vw.now, p).value.mode.Dir? != leaf
  }

  lemma UnmovedHere(c: Codec, t: Type, leaf: bool, vw: View, name: string, cur: Value)
    requires Unmoved(vw, [name], leaf)
    ensures ApplyMember(c, t, leaf, vw, name, cur) == Keep
  {
  }

  // Beneath a member: it is descended into with what is there now and before, or
  // left alone as a whole.
  lemma UnmovedBelow(c: Codec, t: Type, vw: View, p: Path, cur: Value, leaf: bool)
    requires |p| > 1 && Unmoved(vw, p, leaf)
    ensures var seen, o := SubtreeIn(vw, p[0]), ApplyMember(c, t, false, vw, p[0], cur);
            && (seen.Changed? && o != Fail ==>
                  Unmoved(seen.what, p[1..], leaf) && ApplyInto(c, t, seen.what, cur).Ok? &&
                  o == Put(ApplyInto(c, t, seen.what, cur).value))
            && (!seen.Changed? && o != Fail ==> o == Keep)
  {
  }

  // What becomes of a member with a way through it to p.
  ghost predicate HoldsStill(o: Outcome, t: Type, cur: Value, p: Path) {
    match o
    case Fail => true
    case Keep => true
    case Clear => false
    case Put(v) => MemberOn(t, v, p) == MemberOn(t, cur, p)
  }

  lemma MemberUnmoved(c: Codec, m: Member, vw: View, p: Path, leaf: bool)
    requires p != [] && Unmoved(vw, p, leaf)
    requires if |p| == 1 then m.leaf == leaf
             else !m.leaf && var below := MemberOn(m.typ, m.value, p[1..]); below.Some? && below.value.leaf == leaf
    ensures var o := ApplyMember(c, m.typ, m.leaf, vw, p[0], m.value);
            if |p| == 1 then o == Keep else HoldsStill(o, m.typ, m.value, p[1..])
    decreases m.typ, 2
  {
    if |p| == 1 {
      assert p == [p[0]];
      UnmovedHere(c, m.typ, m.leaf, vw, p[0], m.value);
    } else {
      UnmovedBelow(c, m.typ, vw, p, m.value, leaf);
      var seen := SubtreeIn(vw, p[0]);
      if seen.Changed? && ApplyMember(c, m.typ, false, vw, p[0], m.value) != Fail {
        UnmovedKept(c, m.typ, seen.what, m.value, p[1..], leaf);
      }
    }
  }

  /** Where the same file or directory stands at a path as before, what the value
      holds there is left as it is, whether or not it is what that file or
      directory says. */
  lemma {:induction false} UnmovedKept(c: Codec, t: Type, vw: View, cur: Value, p: Path, leaf: bool)
    requires p != [] && Unmoved(vw, p, leaf) && ApplyInto(c, t, vw, cur).Ok?
    requires MemberOn(t, cur, p).Some? && MemberOn(t, cur, p).value.leaf == leaf
    ensures MemberOn(t, ApplyInto(c, t, vw, cur).value, p) == MemberOn(t, cur, p)
    decreases t, 1
  {
    if t.Pointer? {
      UnmovedKept(c, t.elem, vw, cur.target, p, leaf);
    } else {
      var m := MemberAt(t, cur, p[0]).value;
      MemberUnmoved(c, m, vw, p, leaf);
      MemberAfter(c, t, vw, cur, p[0]);
    }
  }

  // There is nothing to apply from nowhere, not even to what came from nowhere,
  // nor from a tree that cannot be read.
  lemma SinceRefuses(c: Codec, t: Type, dst: Value, src: set<Hash>, was: Hash, now: Hash)
    ensures now == Zero ==> ApplySince(c, t, dst, src, was, now) == Err
    ensures was != now && (now !in src || !IsTree(now)) ==> ApplySince(c, t, dst, src, was, now) == Err
    ensures was == now && now != Zero ==> ApplySince(c, t, dst, src, was, now) == Ok(dst)
  {
  }

  // So a difference leaves alone, at any depth, what has not moved.
  lemma SinceKept(c: Codec, t: Type, dst: Value, src: set<Hash>, was: Hash, now: Hash, p: Path, leaf: bool)
    requires p != [] && IsTree(was) && IsTree(now) && was in src && WayHeld(src, was.obj.entries, p)
    requires EntryAt(now.obj.entries, p).Some? && EntryAt(now.obj.entries, p) == EntryAt(was.obj.entries, p)
    requires MemberOn(t, dst, p).Some? && MemberOn(t, dst, p).value.leaf == leaf
    requires EntryAt(now.obj.entries, p).value.mode.Dir? != leaf && ApplySince(c, t, dst, src, was, now).Ok?
    ensures MemberOn(t, ApplySince(c, t, dst, src, was, now).value, p) == MemberOn(t, dst, p)
  {
    if was != now { UnmovedKept(c, t, TreeView(src, now.obj.entries, Baseline(src, was)), dst, p, leaf); }
  }

  // The member of a name afterwards is what became of it.
  lemma MemberAfter(c: Codec, t: Type, vw: View, cur: Value, name: string)
    requires !t.Pointer? && ApplyInto(c, t, vw, cur).Ok? && MemberAt(t, cur, name).Some?
    requires vw.TreeView? && ByName(vw.now, name).Some?
    ensures var m := MemberAt(t, cur, name).value;
            var o := ApplyMember(c, m.typ, m.leaf, vw, name, m.value);
            && o != Fail
            && (o.Keep? ==> MemberAt(t, ApplyInto(c, t, vw, cur).value, name) == Some(m))
            && (o.Put? ==> MemberAt(t, ApplyInto(c, t, vw, cur).value, name) == Some(m.(value := o.value)))
  {
    match t
    case Struct(fs) => FieldAfter(c, t, vw, cur, FieldFrom(fs, name, 0));
    case Map(e) => EntryAfter(c, t, vw, cur, name);
    case Slice(e) => ElemAfter(c, t, vw, cur, IndexFrom(name, |cur.elems|, 0));
    case Array(n, e) => ElemAfter(c, t, vw, cur, IndexFrom(name, |cur.elems|, 0));
  }

  lemma FieldAfter(c: Codec, t: Type, vw: View, cur: Value, i: nat)
    requires t.Struct? && ApplyInto(c, t, vw, cur).Ok? && cur.Fields? && i < |t.fields| && i < |cur.fields|
    ensures var f := t.fields[i];
            var o := ApplyMember(c, f.typ, IsLeaf(f), vw, f.name, cur.fields[i]);
            && o != Fail && ApplyInto(c, t, vw, cur).value.Fields? && |ApplyInto(c, t, vw, cur).value.fields| == |t.fields|
            && ApplyInto(c, t, vw, cur).value.fields[i] == InPlace(o, f.typ, IsLeaf(f), cur.fields[i])
  {
    var out := FieldOuts(c, t, vw, cur);
    assert out[i] in out;
  }

  lemma EntryAfter(c: Codec, t: Type, vw: View, cur: Value, name: string)
    requires t.Map? && ApplyInto(c, t, vw, cur).Ok? && cur.Entries? && name in cur.entries
    requires vw.TreeView? && ByName(vw.now, name).Some?
    ensures var o := ApplyMember(c, t.elem, IsLeafType(t.elem), vw, name, cur.entries[name]);
            && o != Fail && ApplyInto(c, t, vw, cur).value.Entries?
            && (o.Keep? ==> MemberAt(t, ApplyInto(c, t, vw, cur).value, name) == MemberAt(t, cur, name))
            && (o.Put? ==> MemberAt(t, ApplyInto(c, t, vw, cur).value, name) == Some(Member(t.elem, IsLeafType(t.elem), o.value)))
  {
    var out := EntryOuts(c, t.elem, vw, cur);
    NamedIn(vw.now, name);
    assert out[name] in out.Values;
  }

  lemma {:induction false} NamedIn(es: seq<Entry>, name: string)
    requires ByName(es, name).Some?
    ensures name in NamesOf(es)
  {
    ByNameMember(es, name);
  }

  lemma ElemAfter(c: Codec, t: Type, vw: View, cur: Value, i: nat)
    requires (t.Slice? || t.Array?) && ApplyInto(c, t, vw, cur).Ok? && cur.Elems? && i < |cur.elems|
    requires vw.TreeView? && ByName(vw.now, Itoa(i)).Some?
    ensures var o := ApplyMember(c, t.elem, IsLeafType(t.elem), vw, Itoa(i), cur.elems[i]);
            && o != Fail
            && (o.Keep? ==> MemberAt(t, ApplyInto(c, t, vw, cur).value, Itoa(i)) == MemberAt(t, cur, Itoa(i)))
            && (o.Put? ==> MemberAt(t, ApplyInto(c, t, vw, cur).value, Itoa(i)) == Some(Member(t.elem, IsLeafType(t.elem), o.value)))
  {
    var v, n := ApplyInto(c, t, vw, cur).value, Count(NamesIn(vw)).value;
    var out := ElemOuts(c, t.elem, vw, cur, n);
    NamedIn(vw.now, Itoa(i));
    NameCounted(NamesIn(vw), i);
    assert out[i] in out;
    ElemNamed(t, v, i);
    ElemNamed(t, cur, i);
  }

  // Whatever reads as a number below the count is one of the names' numbers.
  lemma NameCounted(names: set<string>, i: nat)
    requires Count(names).Some? && Itoa(i) in names
    ensures i < Count(names).value
  {
    assert Atoi(Itoa(i)) in Numbers(names);
    NumberItoa(i);
  }
}
