// The push protocol as a relation over its steps: stores that grow, refs that
// move and are swept, connections that are loaded, pushed to, acknowledged and
// parked, clients that interpret what they are sent. Four pieces of the server
// are single steps here, each though it takes more than one lock: taking an
// acknowledgement, SetHead, Sweep and Publish.

module Protocol {
  import opened Basics
  import opened Git
  import opened Select
  import opened Heads
  import opened Paths

  /** A ref's entry at the server. Entries are told apart by identity, so a ref
      published, given up and published again is two of them; only a listed one
      can be moved or swept. */
  datatype RefEntry = RefEntry(listed: bool, published: bool, store: Option<nat>, pointer: Pointer)

  /** An update on its way to a client: the head it announces and its pack. */
  datatype Update = Update(head: Head, objects: set<Hash>)

  /** Where the goroutine serving a connection stands. */
  datatype Phase =
    | Joining
    | Serving
    | Loaded(store: nat, head: Head)
    | Awaiting(store: nat, head: Head)
    | Parked(head: Head)
    | Gone

  /** One connection, both ends of it: the baseline the server records, its
      wake-up signal and one-slot buffer of acknowledgements, what is on the
      wire each way, and the client's graph and last interpreted head. A client
      that is not honest registers and acknowledges whatever it likes. */
  datatype Sub = Sub(
    entry: nat, honest: bool, synced: Hash, phase: Phase, token: bool, slot: Option<Hash>,
    up: seq<Hash>, down: seq<Update>, graph: set<Hash>, seen: Option<Head>)

  datatype State = State(stores: map<nat, set<Hash>>, refs: map<nat, RefEntry>, subs: map<nat, Sub>)

  const Start := State(map[], map[], map[])

  datatype Step =
    | NewStore(id: nat, objects: set<Hash>)
    | AddObjects(id: nat, objects: set<Hash>)
    | Publish(e: nat, store: nat, head: Head)
    | Enter(e: nat)
    | Prepared(e: nat, store: nat, head: Head)
    | Unlist(e: nat)
    | SetHead(e: nat, head: Head)
    | Sweep(store: nat, heads: map<nat, Head>)
    | Connect(c: nat, e: nat, honest: bool, synced: Hash, graph: set<Hash>)
    | Check(c: nat)
    | Load(c: nat)
    | Push(c: nat, out: seq<Hash>)
    | Refuse(c: nat)
    | Interpret(c: nat)
    | Claim(c: nat, hash: Hash)
    | ReadAck(c: nat)
    | TakeAck(c: nat)
    | Wake(c: nat)
    | Disconnect(c: nat)
    | Break(c: nat, part: set<Hash>)

  // ----- What the pieces read -----

  /** The store holds h, or there is nothing to hold. */
  predicate Held(stores: map<nat, set<Hash>>, store: nat, h: Hash) {
    h == Zero || (store in stores && h in stores[store])
  }

  // A head an application may give a ref: nowhere, or a tree in its store.
  predicate Fits(stores: map<nat, set<Hash>>, store: nat, h: Hash) {
    Held(stores, store, h) && (h != Zero ==> IsTree(h))
  }

  // The graph holds all of the tree at h.
  ghost predicate HasAll(graph: set<Hash>, h: Hash) {
    h != Zero ==> Reach(h) <= graph
  }

  predicate Member(c: Sub, e: nat) {
    c.entry == e && c.phase != Gone
  }

  // The baseline if it is held, and otherwise none.
  function Kept(h: Hash, held: set<Hash>): Hash {
    if h in held then h else Zero
  }

  // What SelectSince needs of the store it is asked of.
  predicate Selectable(held: set<Hash>, from: Hash, goal: Hash) {
    (from == Zero || Reads(held, from)) && Reads(held, goal)
  }

  // ----- Steps of the application -----

  function Woken(subs: map<nat, Sub>, e: nat): (r: map<nat, Sub>)
    ensures r.Keys == subs.Keys
    ensures forall c :: c in subs ==> r[c] == if Member(subs[c], e) then subs[c].(token := true) else subs[c]
  {
    map c | c in subs :: if Member(subs[c], e) then subs[c].(token := true) else subs[c]
  }

  predicate Swept(refs: map<nat, RefEntry>, e: nat) {
    e in refs && refs[e].listed && refs[e].published
  }

  function HeadAfter(refs: map<nat, RefEntry>, heads: map<nat, Head>, e: nat): Head
    requires e in refs
  {
    if e in heads then heads[e] else refs[e].pointer.head
  }

  /** What Sweep checks before it changes anything. */
  predicate Sweepable(s: State, store: nat, heads: map<nat, Head>) {
    && store in s.stores
    && (forall e :: e in heads ==> Swept(s.refs, e))
    && (forall e :: e in s.refs && Swept(s.refs, e) ==> Held(s.stores, store, HeadAfter(s.refs, heads, e).hash))
    && (forall e :: e in heads && e in s.refs ==> Advances(s.refs[e].pointer, heads[e]))
  }

  function SweptRef(r: RefEntry, store: nat, moving: Option<Head>): RefEntry {
    r.(store := Some(store), pointer := if moving.Some? then Move(r.pointer, moving.value) else r.pointer)
  }

  // A baseline that names a tree, and not one of these.
  predicate Dropped(synced: Hash, held: set<Hash>) {
    synced != Zero && synced !in held
  }

  // A subscriber whose tree the new store dropped starts over; it is woken for
  // that, or for its ref moving, and for nothing else.
  function Rebased(synced: Hash, held: set<Hash>): Hash {
    if Dropped(synced, held) then Zero else synced
  }

  predicate Roused(token: bool, synced: Hash, held: set<Hash>, moved: bool) {
    token || moved || Dropped(synced, held)
  }

  function SweptSub(c: Sub, held: set<Hash>, moved: bool): Sub {
    c.(synced := Rebased(c.synced, held), token := Roused(c.token, c.synced, held, moved))
  }

  function Lookup(heads: map<nat, Head>, e: nat): Option<Head> {
    if e in heads then Some(heads[e]) else None
  }

  function SweptRefs(refs: map<nat, RefEntry>, store: nat, heads: map<nat, Head>): (r: map<nat, RefEntry>)
    ensures r.Keys == refs.Keys
    ensures forall e :: e in refs ==> r[e] == if Swept(refs, e) then SweptRef(refs[e], store, Lookup(heads, e)) else refs[e]
  {
    map e | e in refs :: if Swept(refs, e) then SweptRef(refs[e], store, Lookup(heads, e)) else refs[e]
  }

  function SweptSubs(s: State, held: set<Hash>, heads: map<nat, Head>): (r: map<nat, Sub>)
    ensures r.Keys == s.subs.Keys
    ensures forall c :: c in s.subs ==>
              r[c] == var u := s.subs[c]; if u.phase != Gone && Swept(s.refs, u.entry) then SweptSub(u, held, u.entry in heads) else u
  {
    map c | c in s.subs ::
      var u := s.subs[c]; if u.phase != Gone && Swept(s.refs, u.entry) then SweptSub(u, held, u.entry in heads) else u
  }

  // ----- Steps of one connection -----

  function Checked(c: Sub, held: set<Hash>): Sub {
    c.(synced := Kept(c.synced, held), phase := Serving)
  }

  function Pushed(c: Sub, out: seq<Hash>): Sub
    requires c.phase.Loaded?
  {
    c.(down := c.down + [Update(c.phase.head, set h | h in out)], phase := Awaiting(c.phase.store, c.phase.head))
  }

  // The client takes in a whole update before it acknowledges it.
  function Interpreted(c: Sub): Sub
    requires c.down != []
  {
    c.(graph := c.graph + c.down[0].objects, seen := Some(c.down[0].head), up := c.up + [c.down[0].head.hash],
       down := c.down[1..])
  }

  // An acknowledgement arriving while one is unread is dropped.
  function AckRead(c: Sub): Sub
    requires c.up != []
  {
    c.(slot := if c.slot.None? then Some(c.up[0]) else c.slot, up := c.up[1..])
  }

  // Only an acknowledgement of the pushed head ends the wait, and the baseline
  // moves with it if the ref still has the store the push came from.
  function AckTaken(c: Sub, current: Option<nat>): Sub
    requires c.phase.Awaiting? && c.slot.Some?
  {
    if c.slot.value != c.phase.head.hash then c.(slot := None)
    else
      c.(slot := None, phase := Parked(c.phase.head),
         synced := if current == Some(c.phase.store) then c.phase.head.hash else c.synced)
  }

  // ----- The relation -----

  // What an application promises: stores in which nothing is missing, heads
  // that are in their ref's store, and, of an honest client, a registered tree
  // it really holds.
  ghost predicate Enabled(s: State, step: Step) {
    match step
    case NewStore(id, objects) => id !in s.stores && Closed(objects) && Zero !in objects
    case AddObjects(id, objects) => id in s.stores && Closed(s.stores[id] + objects) && Zero !in objects
    case Publish(e, store, head) => e !in s.refs && store in s.stores && Fits(s.stores, store, head.hash)
    case Enter(e) => e !in s.refs
    case Prepared(e, store, head) =>
      && e in s.refs && s.refs[e].store == None && store in s.stores
      && Allows(s.refs[e].pointer, head) && Fits(s.stores, store, Move(s.refs[e].pointer, head).head.hash)
    case Unlist(e) => e in s.refs && s.refs[e].listed
    case SetHead(e, head) =>
      && e in s.refs && s.refs[e].listed && Advances(s.refs[e].pointer, head)
      && (s.refs[e].store.Some? ==> Fits(s.stores, s.refs[e].store.value, head.hash))
    case Sweep(store, heads) =>
      Sweepable(s, store, heads) && forall e :: e in heads && heads[e].hash != Zero ==> IsTree(heads[e].hash)
    case Connect(c, e, honest, synced, graph) =>
      && c !in s.subs && e in s.refs && s.refs[e].listed
      && (honest ==> HasAll(graph, synced) && (synced != Zero ==> IsTree(synced)))
    case Claim(c, hash) => c in s.subs && !s.subs[c].honest
    case Disconnect(c) => c in s.subs
    case Break(c, part) =>
      c in s.subs && s.subs[c].phase.Gone? && s.subs[c].down != [] && part <= s.subs[c].down[0].objects
    case _ => step.c in s.subs && s.subs[step.c].entry in s.refs && CanServe(s, step)
  }

  // The steps that are one connection's own.
  predicate Serves(step: Step) {
    || step.Check? || step.Load? || step.Push? || step.Refuse?
    || step.Interpret? || step.ReadAck? || step.TakeAck? || step.Wake?
  }

  ghost predicate CanServe(s: State, step: Step)
    requires Serves(step)
    requires step.c in s.subs && s.subs[step.c].entry in s.refs
  {
    var c := s.subs[step.c];
    var r := s.refs[c.entry];
    match step
    case Check(_) => c.phase.Joining? && r.store.Some? && r.store.value in s.stores
    case Load(_) => c.phase.Serving? && r.store.Some?
    case Push(_, out) =>
      && c.phase.Loaded? && c.phase.store in s.stores
      && (if c.phase.head.hash == Zero then out == []
          else Selectable(s.stores[c.phase.store], c.synced, c.phase.head.hash) && Complete(c.synced, c.phase.head.hash, out))
    case Refuse(_) =>
      && c.phase.Loaded? && c.phase.store in s.stores
      && c.phase.head.hash != Zero && !Selectable(s.stores[c.phase.store], c.synced, c.phase.head.hash)
    case Interpret(_) => c.down != []
    case ReadAck(_) => c.up != [] && c.phase != Gone
    case TakeAck(_) => c.phase.Awaiting? && c.slot.Some?
    case Wake(_) => c.phase.Parked? && c.token
  }

  function After(s: State, step: Step): State
    requires Enabled(s, step)
  {
    match step
    case NewStore(id, objects) => s.(stores := s.stores[id := objects])
    case AddObjects(id, objects) => s.(stores := s.stores[id := s.stores[id] + objects])
    case Publish(e, store, head) => s.(refs := s.refs[e := RefEntry(true, true, Some(store), Move(Nowhere, head))])
    case Enter(e) => s.(refs := s.refs[e := RefEntry(true, false, None, Nowhere)])
    case Prepared(e, store, head) =>
      s.(refs := s.refs[e := s.refs[e].(store := Some(store), pointer := Move(s.refs[e].pointer, head))])
    case Unlist(e) => s.(refs := s.refs[e := s.refs[e].(listed := false)])
    case SetHead(e, head) =>
      s.(refs := s.refs[e := s.refs[e].(pointer := Move(s.refs[e].pointer, head))], subs := Woken(s.subs, e))
    case Sweep(store, heads) =>
      s.(refs := SweptRefs(s.refs, store, heads), subs := SweptSubs(s, s.stores[store], heads))
    case Connect(c, e, honest, synced, graph) =>
      s.(subs := s.subs[c := Sub(e, honest, synced, Joining, false, None, [], [], graph, None)])
    case Claim(c, hash) => s.(subs := s.subs[c := s.subs[c].(up := s.subs[c].up + [hash])])
    case Disconnect(c) => s.(subs := s.subs[c := s.subs[c].(phase := Gone)])
    case Break(c, part) => s.(subs := s.subs[c := s.subs[c].(down := [], graph := s.subs[c].graph + part)])
    case _ => s.(subs := s.subs[step.c := Served(s, step)])
  }

  function Served(s: State, step: Step): Sub
    requires Serves(step)
    requires step.c in s.subs && s.subs[step.c].entry in s.refs && CanServe(s, step)
  {
    var c := s.subs[step.c];
    var r := s.refs[c.entry];
    match step
    case Check(_) => Checked(c, s.stores[r.store.value])
    case Load(_) => c.(phase := Loaded(r.store.value, r.pointer.head))
    case Push(_, out) => Pushed(c, out)
    case Refuse(_) => c.(phase := Gone)
    case Interpret(_) => Interpreted(c)
    case ReadAck(_) => AckRead(c)
    case TakeAck(_) => AckTaken(c, r.store)
    case Wake(_) => c.(phase := Serving, token := false)
  }

  ghost predicate Run(s: State, steps: seq<Step>)
    decreases |steps|
  {
    steps == [] || (Enabled(s, steps[0]) && Run(After(s, steps[0]), steps[1..]))
  }

  ghost function Final(s: State, steps: seq<Step>): State
    requires Run(s, steps)
    decreases |steps|
  {
    if steps == [] then s else Final(After(s, steps[0]), steps[1..])
  }

  lemma {:induction false} Extends(s: State, steps: seq<Step>, step: Step)
    requires Run(s, steps) && Enabled(Final(s, steps), step)
    ensures Run(s, steps + [step]) && Final(s, steps + [step]) == After(Final(s, steps), step)
    decreases |steps|
  {
    if steps == [] {
      assert (steps + [step])[1..] == [];
    } else {
      Extends(After(s, steps[0]), steps[1..], step);
      assert (steps + [step])[1..] == steps[1..] + [step];
    }
  }

  // ----- What a step changes, and what it leaves -----

  // A move of the head wakes whoever is connected to that ref, and touches nobody
  // else.
  lemma SetHeadTouches(s: State, e: nat, head: Head)
    requires Enabled(s, SetHead(e, head))
    ensures var t := After(s, SetHead(e, head));
            && t.stores == s.stores && t.subs.Keys == s.subs.Keys && t.refs.Keys == s.refs.Keys
            && t.refs[e] == s.refs[e].(pointer := t.refs[e].pointer) && t.refs[e].pointer.head == head
            && (forall k :: k in s.refs && k != e ==> t.refs[k] == s.refs[k])
            && (forall c :: c in s.subs && s.subs[c].entry == e && s.subs[c].phase != Gone ==> t.subs[c] == s.subs[c].(token := true))
            && (forall c :: c in s.subs && (s.subs[c].entry != e || s.subs[c].phase == Gone) ==> t.subs[c] == s.subs[c])
  {
  }

  // A sweep may be made exactly when every ref named is listed and published,
  // newer heads are named for them, and every listed and published ref comes to a
  // head the new store holds.
  lemma SweepAllowed(s: State, store: nat, heads: map<nat, Head>)
    ensures Enabled(s, Sweep(store, heads)) <==>
              && store in s.stores
              && (forall e :: e in heads ==>
                    && e in s.refs && s.refs[e].listed && s.refs[e].published && Advances(s.refs[e].pointer, heads[e])
                    && (heads[e].hash != Zero ==> IsTree(heads[e].hash)))
              && (forall e :: e in s.refs && s.refs[e].listed && s.refs[e].published ==>
                    (if e in heads then heads[e].hash else s.refs[e].pointer.head.hash) in s.stores[store] + {Zero})
  {
  }

  // It touches the listed and published refs and whoever is connected to them: a
  // baseline the new store lacks is dropped, and those are woken, as are the
  // followers of a ref that is named.
  lemma SweepTouches(s: State, store: nat, heads: map<nat, Head>, c: nat)
    requires Enabled(s, Sweep(store, heads)) && c in s.subs
    ensures var u, t := s.subs[c], After(s, Sweep(store, heads));
            var lost := u.synced != Zero && u.synced !in s.stores[store];
            && t.stores == s.stores && t.subs.Keys == s.subs.Keys && t.refs.Keys == s.refs.Keys
            && (u.phase != Gone && u.entry in s.refs && s.refs[u.entry].listed && s.refs[u.entry].published ==>
                  t.subs[c] == u.(synced := if lost then Zero else u.synced, token := u.token || lost || u.entry in heads))
            && (u.phase == Gone || u.entry !in s.refs || !s.refs[u.entry].listed || !s.refs[u.entry].published ==> t.subs[c] == u)
            && forall e :: e in s.refs ==>
                 if s.refs[e].listed && s.refs[e].published then
                   && t.refs[e].store == Some(store) && t.refs[e].pointer.head == if e in heads then heads[e] else s.refs[e].pointer.head
                 else t.refs[e] == s.refs[e]
  {
  }

  // An acknowledgement that arrives while one is unread is lost.
  lemma AckReadTouches(s: State, c: nat)
    requires Enabled(s, ReadAck(c))
    ensures var u, t := s.subs[c], After(s, ReadAck(c)).subs[c];
            && t == u.(slot := t.slot, up := u.up[1..])
            && (u.slot.Some? ==> t.slot == u.slot) && (u.slot.None? ==> t.slot == Some(u.up[0]))
  {
  }

  // ----- What every reachable state has -----

  ghost predicate RefOk(stores: map<nat, set<Hash>>, r: RefEntry) {
    && (r.published ==> r.store.Some?)
    && (r.store.Some? ==> r.store.value in stores && Fits(stores, r.store.value, r.pointer.head.hash))
  }

  // The baseline is in the store the ref has now.
  predicate Based(stores: map<nat, set<Hash>>, r: RefEntry, c: Sub) {
    r.store.Some? && Held(stores, r.store.value, c.synced)
  }

  // Whoever has read a head that has moved since is about to be told.
  predicate UpToDate(r: RefEntry, c: Sub, head: Head) {
    c.token || head == r.pointer.head
  }

  ghost predicate ServedOk(stores: map<nat, set<Hash>>, r: RefEntry, c: Sub) {
    match c.phase
    case Joining => true
    case Serving => Based(stores, r, c)
    case Loaded(store, head) =>
      && Based(stores, r, c) && UpToDate(r, c, head)
      && store in stores && Fits(stores, store, head.hash) && Held(stores, store, c.synced)
    case Awaiting(store, head) =>
      Based(stores, r, c) && UpToDate(r, c, head) && store in stores && Fits(stores, store, head.hash)
    case Parked(head) => Based(stores, r, c) && UpToDate(r, c, head)
    case Gone => true
  }

  // The one update in hand is on its way out, or its acknowledgement is on its
  // way back; the client has interpreted what it acknowledges.
  predicate Outstanding(c: Sub, head: Head) {
    || (|c.down| == 1 && c.down[0].head == head && c.up == [] && c.slot == None)
    || (c.down == [] && c.up == [head.hash] && c.slot == None && c.seen == Some(head))
    || (c.down == [] && c.up == [] && c.slot == Some(head.hash) && c.seen == Some(head))
  }

  predicate Quiet(c: Sub) {
    c.down == [] && c.up == [] && c.slot == None
  }

  predicate TrafficOk(c: Sub) {
    match c.phase
    case Awaiting(_, head) => Outstanding(c, head)
    case Parked(head) => Quiet(c) && c.seen == Some(head)
    case Gone => |c.down| <= 1
    case _ => Quiet(c)
  }

  ghost predicate HonestOk(c: Sub) {
    && TrafficOk(c)
    && HasAll(c.graph, c.synced) && (c.synced != Zero ==> IsTree(c.synced))
    && (c.seen.Some? ==> HasAll(c.graph, c.seen.value.hash))
    && (|c.down| == 1 ==> HasAll(c.graph + c.down[0].objects, c.down[0].head.hash))
  }

  ghost predicate SubOk(s: State, c: Sub) {
    && c.entry in s.refs
    && ServedOk(s.stores, s.refs[c.entry], c)
    && (c.honest ==> HonestOk(c))
  }

  ghost predicate Inv(s: State) {
    && (forall id :: id in s.stores ==> Closed(s.stores[id]) && Zero !in s.stores[id])
    && (forall e :: e in s.refs ==> RefOk(s.stores, s.refs[e]))
    && (forall c :: c in s.subs ==> SubOk(s, s.subs[c]))
  }

  // Every step keeps it, so every run does.
  lemma {:induction false} RunKeeps(s: State, steps: seq<Step>)
    requires Inv(s) && Run(s, steps)
    ensures Inv(Final(s, steps))
    decreases |steps|
  {
    if steps != [] {
      StepKeeps(s, steps[0]);
      RunKeeps(After(s, steps[0]), steps[1..]);
    }
  }

  lemma StepKeeps(s: State, step: Step)
    requires Inv(s) && Enabled(s, step)
    ensures Inv(After(s, step))
  {
    if Serves(step) {
      OwnStepKeeps(s, step);
    } else if OfClient(step) {
      ClientKeeps(s, step);
    } else if OfRef(step) {
      RefsKeep(s, step);
    } else if step.Sweep? {
      SweepKeeps(s, step);
    } else {
      StoresKeep(s, step);
    }
  }

  predicate OfClient(step: Step) {
    step.Connect? || step.Claim? || step.Disconnect? || step.Break?
  }

  predicate OfRef(step: Step) {
    step.Publish? || step.Enter? || step.Prepared? || step.Unlist? || step.SetHead?
  }

  lemma OwnStepKeeps(s: State, step: Step)
    requires Inv(s) && Serves(step) && Enabled(s, step)
    ensures Inv(After(s, step))
  {
    ServedKeeps(s, step);
    OneChanges(s, step.c, Served(s, step));
  }

  lemma OneChanges(s: State, c: nat, u: Sub)
    requires Inv(s) && c in s.subs && SubOk(s, u)
    ensures Inv(s.(subs := s.subs[c := u]))
  {
    var t := s.(subs := s.subs[c := u]);
    forall d | d in t.subs ensures SubOk(t, t.subs[d]) {
      assert SubOk(s, t.subs[d]);
    }
  }

  lemma StoresKeep(s: State, step: Step)
    requires Inv(s) && Enabled(s, step) && (step.NewStore? || step.AddObjects?)
    ensures Inv(After(s, step))
  {
    var t := After(s, step);
    assert forall id :: id in s.stores ==> id in t.stores && s.stores[id] <= t.stores[id];
    forall e | e in t.refs ensures RefOk(t.stores, t.refs[e]) {
      assert RefOk(s.stores, s.refs[e]);
    }
    forall c | c in t.subs ensures SubOk(t, t.subs[c]) {
      assert SubOk(s, s.subs[c]);
    }
  }

  lemma RefsKeep(s: State, step: Step)
    requires Inv(s) && Enabled(s, step) && OfRef(step)
    ensures Inv(After(s, step))
  {
    var t := After(s, step);
    assert RefOk(t.stores, t.refs[step.e]);
    forall c | c in t.subs ensures SubOk(t, t.subs[c]) {
      assert SubOk(s, s.subs[c]);
    }
  }

  lemma ClientKeeps(s: State, step: Step)
    requires Inv(s) && Enabled(s, step) && OfClient(step)
    ensures Inv(After(s, step))
  {
    var t := After(s, step);
    forall c | c in t.subs ensures SubOk(t, t.subs[c]) {
      assert c in s.subs ==> SubOk(s, s.subs[c]);
    }
  }

  lemma SweptRefOk(s: State, step: Step, e: nat)
    requires Inv(s) && Enabled(s, step) && step.Sweep? && e in s.refs
    ensures RefOk(s.stores, After(s, step).refs[e])
  {
    assert RefOk(s.stores, s.refs[e]);
  }

  lemma SweptSubOk(s: State, step: Step, c: nat)
    requires Inv(s) && Enabled(s, step) && step.Sweep? && c in s.subs
    ensures SubOk(After(s, step), After(s, step).subs[c])
  {
    assert SubOk(s, s.subs[c]);
  }

  // Whatever the old store, and however a push and its acknowledgement stand
  // to it, every baseline left is in the new one.
  lemma SweepKeeps(s: State, step: Step)
    requires Inv(s) && Enabled(s, step) && step.Sweep?
    ensures Inv(After(s, step))
  {
    var t := After(s, step);
    assert t.stores == s.stores && t.refs.Keys == s.refs.Keys && t.subs.Keys == s.subs.Keys;
    forall e | e in t.refs ensures RefOk(t.stores, t.refs[e]) {
      SweptRefOk(s, step, e);
    }
    forall c | c in t.subs ensures SubOk(t, t.subs[c]) {
      SweptSubOk(s, step, c);
    }
  }

  lemma PushKeeps(s: State, step: Step)
    requires Inv(s) && Enabled(s, step) && step.Push?
    ensures SubOk(s, Served(s, step))
  {
    assert SubOk(s, s.subs[step.c]);
  }

  lemma AckTakenOk(s: State, c: Sub)
    requires SubOk(s, c) && c.phase.Awaiting? && c.slot.Some?
    ensures SubOk(s, AckTaken(c, s.refs[c.entry].store))
  {
  }

  // Only an acknowledgement of what was pushed ends the wait, and then the
  // baseline is what was pushed if the ref has the store it was pushed from.
  lemma AckMoves(s: State, c: nat)
    requires Enabled(s, TakeAck(c))
    ensures var u, t := s.subs[c], After(s, TakeAck(c)).subs[c];
            && t.slot == None
            && (u.slot.value != u.phase.head.hash ==> t.phase == u.phase && t.synced == u.synced)
            && (u.slot.value == u.phase.head.hash ==> t.phase == Parked(u.phase.head))
            && (u.slot.value == u.phase.head.hash && s.refs[u.entry].store == Some(u.phase.store) ==> t.synced == u.phase.head.hash)
            && (s.refs[u.entry].store != Some(u.phase.store) ==> t.synced == u.synced)
  {
  }

  lemma TakeAckKeeps(s: State, step: Step)
    requires Inv(s) && Enabled(s, step) && step.TakeAck?
    ensures SubOk(s, Served(s, step))
  {
    AckTakenOk(s, s.subs[step.c]);
  }

  lemma ServedKeeps(s: State, step: Step)
    requires Inv(s) && Serves(step) && Enabled(s, step)
    ensures SubOk(s, Served(s, step))
  {
    if step.Push? {
      PushKeeps(s, step);
    } else if step.TakeAck? {
      TakeAckKeeps(s, step);
    } else {
      QuietlyKeeps(s, step);
    }
  }

  lemma QuietlyKeeps(s: State, step: Step)
    requires Inv(s) && Enabled(s, step)
    requires Serves(step) && !step.Push? && !step.TakeAck?
    ensures SubOk(s, Served(s, step))
  {
    assert SubOk(s, s.subs[step.c]);
  }

  // ----- What it means -----

  // A client that joins in good faith always holds, in full, the last state it
  // interpreted and the one the server counts on: every object of them, and so
  // the content of every leaf. Sweeps overtaking acknowledgements, replaced
  // stores, bursts and dropped connections included.
  lemma NeverShort(steps: seq<Step>, c: nat)
    requires Run(Start, steps) && c in Final(Start, steps).subs && Final(Start, steps).subs[c].honest
    ensures var u := Final(Start, steps).subs[c];
            && HasAll(u.graph, u.synced)
            && (u.seen.Some? ==> HasAll(u.graph, u.seen.value.hash))
            && (u.seen.Some? ==> forall p :: LeafAt(u.seen.value.hash, p).Some? ==> LeafAt(u.seen.value.hash, p).value.hash in u.graph)
  {
    RunKeeps(Start, steps);
    var u := Final(Start, steps).subs[c];
    assert SubOk(Final(Start, steps), u);
    if u.seen.Some? {
      forall p | LeafAt(u.seen.value.hash, p).Some? ensures LeafAt(u.seen.value.hash, p).value.hash in u.graph {
        LeafReached(u.seen.value.hash, p);
      }
    }
  }

  // Whoever is connected, the server never counts on a baseline, and never has
  // a head, that the ref's store lacks. What its store may still refuse to
  // compare is a blob a client registered as its baseline, and it refuses that
  // whenever there is anything to push.
  lemma BaselinesHeld(steps: seq<Step>, c: nat)
    requires Run(Start, steps) && c in Final(Start, steps).subs
    ensures var s := Final(Start, steps);
            var u := s.subs[c];
            && u.entry in s.refs
            && (!u.phase.Joining? && !u.phase.Gone? ==>
                  Based(s.stores, s.refs[u.entry], u) && Fits(s.stores, s.refs[u.entry].store.value, s.refs[u.entry].pointer.head.hash))
            && (Enabled(s, Refuse(c)) <==> u.phase.Loaded? && u.phase.head.hash != Zero && IsBlob(u.synced))
            && (Enabled(s, Refuse(c)) ==> !u.honest)
  {
    RunKeeps(Start, steps);
    assert SubOk(Final(Start, steps), Final(Start, steps).subs[c]);
  }

  // A subscriber with nothing left to do is at its ref's head.
  lemma NoLostWakeUp(steps: seq<Step>, c: nat)
    requires Run(Start, steps) && c in Final(Start, steps).subs
    requires var u := Final(Start, steps).subs[c]; u.honest && u.phase.Parked? && !u.token
    ensures var s := Final(Start, steps); s.subs[c].entry in s.refs && s.subs[c].seen == Some(s.refs[s.subs[c].entry].pointer.head)
  {
    RunKeeps(Start, steps);
    assert SubOk(Final(Start, steps), Final(Start, steps).subs[c]);
  }

  // The acknowledgement being waited for always finds its slot free, and no
  // other ever arrives.
  lemma AckNeverDropped(steps: seq<Step>, c: nat)
    requires Run(Start, steps) && c in Final(Start, steps).subs
    requires var u := Final(Start, steps).subs[c]; u.honest && !u.phase.Gone?
    ensures var u := Final(Start, steps).subs[c];
            && (u.up != [] ==> u.phase.Awaiting? && u.up == [u.phase.head.hash] && u.slot == None)
            && (u.slot.Some? ==> u.phase.Awaiting? && u.slot.value == u.phase.head.hash)
  {
    RunKeeps(Start, steps);
    assert SubOk(Final(Start, steps), Final(Start, steps).subs[c]);
  }

  // ----- Left alone, a connection catches up -----

  // How many steps of its own a connection is from being parked with nothing
  // pending.
  function Distance(c: Sub): nat {
    (match c.phase
     case Joining => 6
     case Serving => 5
     case Loaded(_, _) => 4
     case Awaiting(_, _) => if c.down != [] then 3 else if c.up != [] then 2 else 1
     case Parked(_) => 0
     case Gone => 0) + if c.token then 6 else 0
  }

  // Its ref is prepared, or it is past needing that.
  predicate Live(s: State, c: nat) {
    && c in s.subs && s.subs[c].honest && !s.subs[c].phase.Gone?
    && s.subs[c].entry in s.refs && s.refs[s.subs[c].entry].store.Some?
  }

  lemma SelectionExists(held: set<Hash>, from: Hash, goal: Hash) returns (out: seq<Hash>)
    requires Closed(held) && Selectable(held, from, goal)
    ensures Complete(from, goal, out)
  {
    PickedSucceeds(held, {}, from, goal, true, []);
    out := Picked(held, {}, from, goal, true, []).value;
    if from == Zero {
      WalkIsExact(held, {}, goal);
    } else {
      ComparedIsComplete(held, from, goal);
    }
  }

  lemma Forward(s: State, c: nat) returns (step: Step)
    requires Inv(s) && Live(s, c) && Distance(s.subs[c]) > 0
    ensures Serves(step) && step.c == c && Enabled(s, step) && !step.Refuse?
  {
    var u := s.subs[c];
    assert SubOk(s, u);
    match u.phase
    case Joining => step := Check(c);
    case Serving => step := Load(c);
    case Loaded(store, head) =>
      var out: seq<Hash> := [];
      if head.hash != Zero {
        out := SelectionExists(s.stores[store], u.synced, head.hash);
      }
      step := Push(c, out);
    case Awaiting(_, _) => step := if u.down != [] then Interpret(c) else if u.up != [] then ReadAck(c) else TakeAck(c);
    case Parked(_) => step := Wake(c);
  }

  // Any step of its own takes a connection closer.
  lemma Closer(s: State, c: nat, step: Step)
    requires Inv(s) && Live(s, c) && Serves(step) && step.c == c && Enabled(s, step) && !step.Refuse?
    ensures Live(After(s, step), c) && Distance(After(s, step).subs[c]) < Distance(s.subs[c])
    ensures After(s, step).refs == s.refs && After(s, step).subs[c].entry == s.subs[c].entry
  {
    assert SubOk(s, s.subs[c]);
  }

  /** What the connection is to push or await comes from the store its ref has
      now, so the acknowledgement will count. */
  predicate Counts(r: RefEntry, c: Sub) {
    || c.token
    || match c.phase
       case Joining => true
       case Serving => true
       case Loaded(store, _) => r.store == Some(store)
       case Awaiting(store, _) => r.store == Some(store)
       case Parked(_) => c.synced == r.pointer.head.hash
       case Gone => false
  }

  // The acknowledgement of what was pushed counts exactly if it was to.
  lemma AckCounts(stores: map<nat, set<Hash>>, r: RefEntry, c: Sub)
    requires ServedOk(stores, r, c) && c.honest && HonestOk(c) && c.phase.Awaiting? && c.slot.Some?
    ensures var t := AckTaken(c, r.store);
            && (Counts(r, c) ==> Counts(r, t)) && (!Counts(r, c) ==> t.synced == c.synced)
            && (!Counts(r, c) && Counts(r, t) ==> c.synced == r.pointer.head.hash)
  {
  }

  // A step of its own leaves that as it is, and the baseline where it does not.
  lemma CountsStill(s: State, c: nat, step: Step)
    requires Inv(s) && Live(s, c) && Serves(step) && step.c == c && Enabled(s, step) && !step.Refuse?
    ensures var r, u, t := s.refs[s.subs[c].entry], s.subs[c], Served(s, step);
            && (Counts(r, u) ==> Counts(r, t)) && (!Counts(r, u) ==> t.synced == u.synced)
            && (!Counts(r, u) && Counts(r, t) ==> u.synced == r.pointer.head.hash)
  {
    assert SubOk(s, s.subs[c]);
    if step.TakeAck? { AckCounts(s.stores, s.refs[s.subs[c].entry], s.subs[c]); }
  }

  /** These are the connection's own steps, and they bring its client to the
      ref's head, which it then holds in full. */
  ghost predicate BringsUp(s: State, c: nat, steps: seq<Step>)
    requires Live(s, c)
  {
    && Run(s, steps) && (forall i :: 0 <= i < |steps| ==> Serves(steps[i]) && steps[i].c == c)
    && Final(s, steps).refs == s.refs && c in Final(s, steps).subs
    && var head := s.refs[s.subs[c].entry].pointer.head;
       Final(s, steps).subs[c].seen == Some(head) && HasAll(Final(s, steps).subs[c].graph, head.hash)
  }

  lemma BringsUpFirst(s: State, c: nat, step: Step, rest: seq<Step>)
    requires Live(s, c) && Serves(step) && step.c == c && Enabled(s, step) && Live(After(s, step), c)
    requires After(s, step).refs == s.refs && After(s, step).subs[c].entry == s.subs[c].entry
    requires BringsUp(After(s, step), c, rest)
    ensures BringsUp(s, c, [step] + rest)
  {
    assert ([step] + rest)[1..] == rest;
  }

  // From any reachable state, at most twelve steps of its own bring an honest
  // client to its ref's head, as long as nothing moves it meanwhile; and the
  // server's baseline is that head too, unless what it pushed last came from a
  // store that has been replaced.
  lemma {:induction false} CatchesUp(s: State, c: nat) returns (steps: seq<Step>)
    requires Inv(s) && Live(s, c)
    ensures |steps| <= Distance(s.subs[c]) <= 12 && BringsUp(s, c, steps)
    ensures Final(s, steps).subs[c].synced ==
            if Counts(s.refs[s.subs[c].entry], s.subs[c]) then s.refs[s.subs[c].entry].pointer.head.hash else s.subs[c].synced
    decreases Distance(s.subs[c])
  {
    assert SubOk(s, s.subs[c]);
    if Distance(s.subs[c]) == 0 {
      steps := [];
    } else {
      var step := Forward(s, c);
      Closer(s, c, step);
      CountsStill(s, c, step);
      StepKeeps(s, step);
      var rest := CatchesUp(After(s, step), c);
      BringsUpFirst(s, c, step, rest);
      steps := [step] + rest;
    }
  }

  // So after any run, every honest client still connected to a ref that is
  // prepared can be brought to the ref's head by the steps of its connection.
  lemma ReachesHead(steps: seq<Step>, c: nat) returns (more: seq<Step>)
    requires Run(Start, steps) && c in Final(Start, steps).subs
    requires var s := Final(Start, steps);
             var u := s.subs[c];
             u.honest && u.phase != Gone && u.entry in s.refs && s.refs[u.entry].store.Some?
    ensures var s := Final(Start, steps);
            var head := s.refs[s.subs[c].entry].pointer.head;
            && |more| <= 12 && Run(s, more) && (forall i :: 0 <= i < |more| ==> Serves(more[i]) && more[i].c == c)
            && c in Final(s, more).subs
            && var t := Final(s, more).subs[c];
               t.seen == Some(head) && (head.hash != Zero ==> Reach(head.hash) <= t.graph)
  {
    RunKeeps(Start, steps);
    more := CatchesUp(Final(Start, steps), c);
  }
}
