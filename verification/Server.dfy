// The server's own objects: subscribers, ref entries and the map of refs, and
// the operations an application moves and sweeps them with.

module Server {
  import opened Basics
  import opened Git
  import opened Heads
  import opened Protocol
  import Lines

  /** One connected client, as far as the server keeps it: what it last
      acknowledged and its wake-up signal. */
  class Subscriber {
    const entry: Ref
    var synced: Hash
    var notify: bool

    constructor (e: Ref, h: Hash)
      ensures entry == e && synced == h && !notify
    {
      entry, synced, notify := e, h, false;
    }

    /** Records that everything up to hash, pushed from store, was interpreted,
        unless the ref's store has been replaced since. */
    method Ack(store: nat, hash: Hash)
      modifies this`synced
      ensures synced == if entry.point.store == Some(store) then hash else old(synced)
    {
      if Some(store) != entry.point.store {
        return;
      }
      synced := hash;
    }

    method Reset()
      modifies this`synced
      ensures synced == Zero
    {
      synced := Zero;
    }

    method Wake()
      modifies this`notify
      ensures notify
    {
      if !notify {
        notify := true;
      }
    }
  }

  /** A ref's entry: where it points, and who follows it. */
  class Ref {
    const point: RefState
    var published: bool
    var retiring: bool
    var members: set<Subscriber>

    constructor (p: bool)
      ensures fresh(point) && point.At() == Nowhere && point.store == None
      ensures published == p && !retiring && members == {}
    {
      point := new RefState();
      published, retiring, members := p, false, {};
    }
  }

  /** How a subscriber stands: its baseline, and whether it is woken. */
  datatype Stance = Stance(synced: Hash, notify: bool)

  /** How an entry stands, with all who follow it. */
  datatype Standing = Standing(store: Option<nat>, pointer: Pointer, subs: map<Subscriber, Stance>)

  function StanceOf(c: Subscriber): Stance
    reads c
  {
    Stance(c.synced, c.notify)
  }

  function Stances(members: set<Subscriber>): (r: map<Subscriber, Stance>)
    reads members
    ensures r.Keys == members && forall c :: c in members ==> r[c] == StanceOf(c)
  {
    map c | c in members :: StanceOf(c)
  }

  function Stand(e: Ref): Standing
    reads e, e.point, e.members
  {
    Standing(e.point.store, e.point.At(), Stances(e.members))
  }

  // A subscriber after a sweep, exactly as the protocol's own step has it.
  function SweptStance(s: Stance, held: set<Hash>, moved: bool): Stance {
    Stance(Rebased(s.synced, held), Roused(s.notify, s.synced, held, moved))
  }

  function SweptStances(subs: map<Subscriber, Stance>, held: set<Hash>, moved: bool): (r: map<Subscriber, Stance>)
    ensures r.Keys == subs.Keys && forall c :: c in subs ==> r[c] == SweptStance(subs[c], held, moved)
  {
    map c | c in subs :: SweptStance(subs[c], held, moved)
  }

  function SweptStanding(s: Standing, store: nat, held: set<Hash>, named: Option<Head>): Standing {
    Standing(Some(store), if named.Some? then Move(s.pointer, named.value) else s.pointer,
             SweptStances(s.subs, held, named.Some?))
  }

  // Those that stand to lose the tree they hold.
  function Losing(subs: map<Subscriber, Stance>, held: set<Hash>): set<Subscriber> {
    set c | c in subs && Dropped(subs[c].synced, held)
  }

  // An entry whose head has moved, everyone following it woken.
  function MovedStanding(s: Standing, head: Head): Standing {
    s.(pointer := Move(s.pointer, head), subs := WokenStances(s.subs))
  }

  function WokenStances(subs: map<Subscriber, Stance>): (r: map<Subscriber, Stance>)
    ensures r.Keys == subs.Keys && forall c :: c in subs ==> r[c] == subs[c].(notify := true)
  {
    map c | c in subs :: subs[c].(notify := true)
  }

  function Naming(heads: map<string, Head>, n: string): Option<Head> {
    if n in heads then Some(heads[n]) else None
  }

  datatype Outcome = Unknown | Unusable | Taken | NotPublished | Refuses | Stands | Done

  class Server {
    var refs: map<string, Ref>

    /** No two refs share an entry, a pointer or a subscriber. */
    ghost predicate Valid()
      reads this, refs.Values
    {
      && (forall m, n :: m in refs && n in refs && m != n ==> refs[m] != refs[n] && refs[m].point != refs[n].point)
      && (forall n, c :: n in refs && c in refs[n].members ==> c.entry == refs[n])
    }

    constructor ()
      ensures Valid() && refs == map[]
    {
      refs := map[];
    }

    /** The entry of a ref somebody may read or move. */
    function Living(ref: string): Option<Ref>
      reads this, refs.Values
    {
      if ref in refs && !refs[ref].retiring then Some(refs[ref]) else None
    }

    // What moving a ref may change: its pointer and its subscribers.
    ghost function Following(ref: string): set<object>
      reads this, refs.Values
    {
      match Living(ref)
      case None => {}
      case Some(e) => {e.point} + e.members
    }

    /** Points ref at head and wakes everyone following it, if head may move
        it; nothing changes otherwise. */
    method SetHead(ref: string, head: Head) returns (r: Outcome)
      modifies Following(ref)
      ensures r == Unknown <==> ref !in refs || refs[ref].retiring
      ensures Living(ref).Some? ==>
                var e := Living(ref).value;
                && r == (if !Allows(old(e.point.At()), head) then Refuses
                         else if Advances(old(e.point.At()), head) then Done else Stands)
                && Stand(e) == if r == Done then MovedStanding(old(Stand(e)), head) else old(Stand(e))
    {
      var e := Living(ref);
      if e.None? {
        return Unknown;
      }
      r := MoveAndWake(e.value, head);
    }

    /** Lists a new ref with its store and head, or says why not. */
    method Publish(ref: string, store: nat, head: Head) returns (r: Outcome)
      requires Valid()
      modifies this`refs
      ensures Valid()
      ensures r == if !Lines.ValidRef(ref) then Unusable else if ref in old(refs) then Taken else Done
      ensures r != Done ==> refs == old(refs)
      ensures r == Done ==>
                && ref in refs && refs == old(refs)[ref := refs[ref]] && fresh(refs[ref])
                && refs[ref].published && !refs[ref].retiring && refs[ref].members == {}
                && refs[ref].point.store == Some(store) && refs[ref].point.At() == Move(Nowhere, head)
    {
      if !Lines.ValidRef(ref) {
        return Unusable;
      }
      var e := new Ref(true);
      e.point.SetStore(store);
      if ref in refs {
        return Taken;
      }
      refs := refs[ref := e];
      var _ := e.point.MoveHead(head);
      return Done;
    }

    /** Gives a published ref up; its subscribers' connections are to be
        closed. */
    method Unpublish(ref: string) returns (r: Outcome, closing: set<Subscriber>)
      requires Valid()
      modifies this`refs
      ensures Valid()
      ensures r == if ref !in old(refs) then Unknown else if !old(refs)[ref].published then NotPublished else Done
      ensures r != Done ==> refs == old(refs) && closing == {}
      ensures r == Done ==> refs == old(refs) - {ref} && closing == old(refs)[ref].members
    {
      if ref !in refs {
        return Unknown, {};
      }
      if !refs[ref].published {
        return NotPublished, {};
      }
      closing := refs[ref].members;
      refs := refs - {ref};
      return Done, closing;
    }

    predicate Published(n: string)
      reads this, refs.Values
    {
      n in refs && refs[n].published
    }

    function HeadOf(heads: map<string, Head>, n: string): Head
      requires n in refs
      reads this, refs[n], refs[n].point
    {
      if n in heads then heads[n] else refs[n].point.head
    }

    // What a published ref must come to for a sweep to go ahead.
    predicate Fit(held: set<Hash>, heads: map<string, Head>, n: string)
      requires n in refs
      reads this, refs[n], refs[n].point
    {
      && (HeadOf(heads, n).hash == Zero || HeadOf(heads, n).hash in held)
      && (n in heads ==> Advances(refs[n].point.At(), heads[n]))
    }

    // Every ref named is published and living.
    ghost predicate AllKnown(heads: map<string, Head>)
      reads this, refs.Values
    {
      forall n :: n in heads ==> Living(n).Some? && Published(n)
    }

    ghost predicate AllFit(held: set<Hash>, heads: map<string, Head>)
      reads this, refs.Values, set n | n in refs :: refs[n].point
    {
      forall n :: Published(n) ==> Fit(held, heads, n)
    }

    ghost predicate MaySweep(held: set<Hash>, heads: map<string, Head>)
      reads this, refs.Values, set n | n in refs :: refs[n].point
    {
      AllKnown(heads) && AllFit(held, heads)
    }

    function PublishedRefs(): (r: map<string, Ref>)
      reads this, refs.Values
      ensures forall n :: n in r <==> Published(n)
      ensures forall n :: n in r ==> n in refs && r[n] == refs[n]
    {
      map n | n in refs && refs[n].published :: refs[n]
    }

    /** All or nothing. It is refused exactly over a ref named that is not living
        and published, a head to come that the store lacks, or a named head that
        does not advance its ref. Otherwise every published ref is at a head its
        new store can serve, whoever lost the tree they held is reset and
        counted, and those and the followers of a named ref are woken. */
    method Sweep(store: nat, held: set<Hash>, heads: map<string, Head>) returns (r: Result<nat>)
      requires Valid()
      modifies Frames(PublishedRefs())
      ensures r.Err? <==>
                || old(exists n :: n in heads && (n !in refs || refs[n].retiring || !refs[n].published))
                || old(exists n :: n in refs && refs[n].published &&
                         (if n in heads then heads[n].hash else refs[n].point.head.hash) !in held + {Zero})
                || old(exists n :: n in heads && n in refs && refs[n].published && refs[n].point.installed &&
                         (refs[n].point.sequenced != (heads[n].sequence != 0) ||
                          (refs[n].point.sequenced && heads[n].sequence <= refs[n].point.head.sequence)))
      ensures r.Err? ==> Standings(old(PublishedRefs())) == old(Standings(PublishedRefs()))
      ensures r.Ok? ==> Standings(old(PublishedRefs())) == SweptBut(old(Standings(PublishedRefs())), {}, store, held, heads)
      ensures r.Ok? ==>
                forall n :: n in old(refs) && old(refs[n].published) ==>
                  var point := old(refs[n].point);
                  && point.store == Some(store)
                  && point.head == (if n in heads then heads[n] else old(refs[n].point.head))
                  && point.head.hash in held + {Zero}
      ensures r.Ok? ==>
                forall n, c :: n in old(refs) && old(refs[n].published) && c in old(refs[n].members) ==>
                  var lost := old(c.synced) != Zero && old(c.synced) !in held;
                  && c.synced == (if lost then Zero else old(c.synced))
                  && c.notify == (old(c.notify) || lost || n in heads)
      ensures r.Ok? ==>
                r.value == old(|set n, c | n in refs && refs[n].published && c in refs[n].members &&
                                           c.synced != Zero && c.synced !in held :: c|)
    {
      ghost var es, all := PublishedRefs(), Standings(PublishedRefs());
      MaySweepMeans(held, heads);
      LosingMeans(held);
      r := SweepPublished(store, held, heads);
      if r.Ok? {
        SweptEntries(es, all, store, held, heads);
      }
    }

    // Checks everything, and only then installs anything.
    method SweepPublished(store: nat, held: set<Hash>, heads: map<string, Head>) returns (r: Result<nat>)
      requires Valid()
      modifies Frames(PublishedRefs())
      ensures r.Ok? <==> old(MaySweep(held, heads))
      ensures r.Err? ==> Standings(old(PublishedRefs())) == old(Standings(PublishedRefs()))
      ensures r.Ok? ==> Standings(old(PublishedRefs())) == SweptBut(old(Standings(PublishedRefs())), {}, store, held, heads)
      ensures r.Ok? ==> r.value == |LosingBut(old(Standings(PublishedRefs())), {}, held)|
      ensures r.Ok? ==> forall n :: n in old(PublishedRefs()) && n in heads ==>
                          Advances(old(Standings(PublishedRefs()))[n].pointer, heads[n])
    {
      var ok := Check(held, heads);
      if !ok {
        return Err;
      }
      PublishedApart();
      var lost := InstallAll(PublishedRefs(), store, held, heads);
      return Ok(lost);
    }

    lemma LosingMeans(held: set<Hash>)
      ensures LosingBut(Standings(PublishedRefs()), {}, held) ==
              set n, c | n in refs && refs[n].published && c in refs[n].members && c.synced != Zero && c.synced !in held :: c
    {
      var es, all := PublishedRefs(), Standings(PublishedRefs());
      forall c
        ensures c in LosingBut(all, {}, held) <==>
                exists n :: n in refs && refs[n].published && c in refs[n].members && c.synced != Zero && c.synced !in held
      {
        if c in LosingBut(all, {}, held) {
          var n :| n in all && c in Losing(all[n].subs, held);
          assert n in es && all[n] == Stand(es[n]) && all[n].subs[c] == StanceOf(c);
        }
        if n :| n in refs && refs[n].published && c in refs[n].members && c.synced != Zero && c.synced !in held {
          assert n in es && all[n] == Stand(es[n]) && c in all[n].subs && all[n].subs[c] == StanceOf(c);
          assert c in Losing(all[n].subs, held);
        }
      }
    }

    lemma MaySweepMeans(held: set<Hash>, heads: map<string, Head>)
      ensures !MaySweep(held, heads) <==>
                || (exists n :: n in heads && (n !in refs || refs[n].retiring || !refs[n].published))
                || (exists n :: n in refs && refs[n].published &&
                      (if n in heads then heads[n].hash else refs[n].point.head.hash) !in held + {Zero})
                || (exists n :: n in heads && n in refs && refs[n].published && refs[n].point.installed &&
                      (refs[n].point.sequenced != (heads[n].sequence != 0) ||
                       (refs[n].point.sequenced && heads[n].sequence <= refs[n].point.head.sequence)))
    {
      assert AllKnown(heads) <==> forall n :: n in heads ==> n in refs && !refs[n].retiring && refs[n].published;
      assert AllFit(held, heads) <==> forall n :: n in refs && refs[n].published ==> Fit(held, heads, n);
    }

    /** Decides MaySweep, changing nothing. */
    method Check(held: set<Hash>, heads: map<string, Head>) returns (ok: bool)
      ensures ok <==> old(MaySweep(held, heads))
      ensures ok ==> forall n :: n in PublishedRefs() && n in heads ==> Advances(PublishedRefs()[n].point.At(), heads[n])
      ensures PublishedRefs() == old(PublishedRefs()) && Standings(PublishedRefs()) == old(Standings(PublishedRefs()))
    {
      var todo := heads.Keys;
      while todo != {}
        invariant todo <= heads.Keys
        invariant forall n :: n in heads && n !in todo ==> Living(n).Some? && Published(n)
      {
        var n :| n in todo;
        if Living(n).None? || !refs[n].published {
          assert !AllKnown(heads);
          return false;
        }
        todo := todo - {n};
      }
      todo := refs.Keys;
      while todo != {}
        invariant todo <= refs.Keys
        invariant forall n :: Published(n) && n !in todo ==> Fit(held, heads, n)
      {
        var n :| n in todo;
        todo := todo - {n};
        if refs[n].published {
          var head := HeadOf(heads, n);
          if (head.hash != Zero && head.hash !in held) || (n in heads && refs[n].point.WouldMove(head) != Moves) {
            assert Published(n) && !Fit(held, heads, n);
            return false;
          }
        }
      }
      assert forall n :: n in PublishedRefs() && n in heads ==> Fit(held, heads, n);
      return true;
    }

    lemma PublishedApart()
      requires Valid()
      ensures Apart(PublishedRefs())
    {
      var es := PublishedRefs();
      forall m, n | m in es && n in es && m != n ensures es[m].members !! es[n].members {
        assert forall c :: c in es[m].members ==> c.entry == refs[m];
        assert forall c :: c in es[n].members ==> c.entry == refs[n];
      }
    }
  }

  method WakeAll(following: set<Subscriber>)
    modifies following
    ensures Stances(following) == WokenStances(old(Stances(following)))
  {
    var todo := following;
    ghost var all := Stances(following);
    while todo != {}
      invariant todo <= following
      invariant forall c :: c in following ==> StanceOf(c) == if c in todo then all[c] else all[c].(notify := true)
    {
      var c :| c in todo;
      c.Wake();
      todo := todo - {c};
    }
  }

  /** Moves one entry's head, if it may, and wakes those who followed it
      before. */
  method MoveAndWake(e: Ref, head: Head) returns (r: Outcome)
    modifies e.point, e.members
    ensures r == if !Allows(old(e.point.At()), head) then Refuses
                 else if Advances(old(e.point.At()), head) then Done else Stands
    ensures Stand(e) == if r == Done then MovedStanding(old(Stand(e)), head) else old(Stand(e))
  {
    var following := e.members;
    var v := e.point.MoveHead(head);
    if v == Refused {
      return Refuses;
    }
    if v == NotAdvancing {
      return Stands;
    }
    WakeAll(following);
    return Done;
  }

  // Entries that share no pointer and no subscriber.
  ghost predicate Apart(es: map<string, Ref>)
    reads es.Values
  {
    forall m, n :: m in es && n in es && m != n ==>
      es[m] != es[n] && es[m].point != es[n].point && es[m].members !! es[n].members
  }

  // What a sweep may change: the pointers of these and their subscribers.
  ghost function Frames(es: map<string, Ref>): set<object>
    reads es.Values
  {
    (set n | n in es :: es[n].point as object) + (set n, c | n in es && c in es[n].members :: c as object)
  }

  ghost function Standings(es: map<string, Ref>): (r: map<string, Standing>)
    reads es.Values, Frames(es)
    ensures r.Keys == es.Keys && forall n :: n in es ==> r[n] == Stand(es[n])
  {
    map n | n in es :: Stand(es[n])
  }

  // With those still to be swept standing as they did.
  ghost function SweptBut(all: map<string, Standing>, todo: set<string>, store: nat, held: set<Hash>,
        heads: map<string, Head>)
    : (r: map<string, Standing>)
    ensures r.Keys == all.Keys
    ensures forall n :: n in all ==> r[n] == if n in todo then all[n] else SweptStanding(all[n], store, held, Naming(heads, n))
  {
    map n | n in all :: if n in todo then all[n] else SweptStanding(all[n], store, held, Naming(heads, n))
  }

  // The subscribers that lose the tree they hold, those still to be swept
  // aside.
  ghost function LosingBut(all: map<string, Standing>, todo: set<string>, held: set<Hash>): set<Subscriber> {
    set n, c | n in all && n !in todo && c in Losing(all[n].subs, held) :: c
  }

  ghost predicate Disjoint(all: map<string, Standing>) {
    forall m, n :: m in all && n in all && m != n ==> all[m].subs.Keys !! all[n].subs.Keys
  }

  // Where each entry is at the end of a sweep, and all who follow it.
  lemma SweptEntries(es: map<string, Ref>, all: map<string, Standing>, store: nat, held: set<Hash>, heads: map<string, Head>)
    requires Standings(es) == SweptBut(all, {}, store, held, heads)
    requires forall n :: n in es && n in heads ==> Advances(all[n].pointer, heads[n])
    ensures forall n :: n in es ==>
              && es[n].point.store == Some(store)
              && es[n].point.head == if n in heads then heads[n] else all[n].pointer.head
    ensures forall n, c :: n in es && c in es[n].members ==>
              c in all[n].subs && SweptOf(c, all[n].subs[c], held, n in heads)
  {
    forall n | n in es
      ensures es[n].point.store == Some(store)
      ensures es[n].point.head == if n in heads then heads[n] else all[n].pointer.head
      ensures forall c :: c in es[n].members ==> c in all[n].subs && SweptOf(c, all[n].subs[c], held, n in heads)
    {
      assert Stand(es[n]) == SweptStanding(all[n], store, held, Naming(heads, n));
      assert Stances(es[n].members) == SweptStances(all[n].subs, held, n in heads);
    }
  }

  ghost predicate SweptOf(c: Subscriber, was: Stance, held: set<Hash>, named: bool)
    reads c
  {
    var lost := was.synced != Zero && was.synced !in held;
    c.synced == (if lost then Zero else was.synced) && c.notify == (was.notify || lost || named)
  }

  lemma SweepsOne(all: map<string, Standing>, todo: set<string>, n: string, store: nat, held: set<Hash>,
        heads: map<string, Head>)
    requires n in all && n in todo
    ensures SweptBut(all, todo - {n}, store, held, heads) ==
            SweptBut(all, todo, store, held, heads)[n := SweptStanding(all[n], store, held, Naming(heads, n))]
  {
  }

  lemma LosesOne(all: map<string, Standing>, todo: set<string>, n: string, held: set<Hash>)
    requires Disjoint(all) && n in all && n in todo
    ensures |LosingBut(all, todo - {n}, held)| == |LosingBut(all, todo, held)| + |Losing(all[n].subs, held)|
  {
    var before, more := LosingBut(all, todo, held), Losing(all[n].subs, held);
    assert LosingBut(all, todo - {n}, held) == before + more;
    forall c | c in before ensures c !in more {
      var m :| m in all && m !in todo && c in Losing(all[m].subs, held);
      assert all[m].subs.Keys !! all[n].subs.Keys;
    }
    assert before * more == {};
  }

  // Sweeping one ref leaves the others, which are apart from it, standing.
  method InstallBeside(es: map<string, Ref>, n: string, store: nat, held: set<Hash>, named: Option<Head>)
    returns (lost: nat)
    requires Apart(es) && n in es && (named.Some? ==> Advances(es[n].point.At(), named.value))
    modifies es[n].point, es[n].members
    ensures Stand(es[n]) == SweptStanding(old(Stand(es[n])), store, held, named)
    ensures lost == |Losing(old(Stand(es[n])).subs, held)|
    ensures forall m :: m in es && m != n ==> Stand(es[m]) == old(Stand(es[m]))
  {
    lost := SweepRef(es[n], store, held, named);
  }

  // One of these at a time: the others stand as they did.
  method InstallOne(es: map<string, Ref>, n: string, store: nat, held: set<Hash>,
        named: Option<Head>) returns (lost: nat)
    requires Apart(es) && n in es && (named.Some? ==> Advances(es[n].point.At(), named.value))
    modifies es[n].point, es[n].members
    ensures Standings(es) == old(Standings(es))[n := SweptStanding(old(Stand(es[n])), store, held, named)]
    ensures lost == |Losing(old(Stand(es[n])).subs, held)|
    ensures Apart(es)
  {
    ghost var all := Standings(es);
    lost := InstallBeside(es, n, store, held, named);
    ghost var after := Standings(es);
    forall m | m in es ensures after[m] == all[n := Stand(es[n])][m] {
      assert m != n ==> Stand(es[m]) == all[m];
    }
    assert after == all[n := Stand(es[n])];
  }

  method InstallAll(es: map<string, Ref>, store: nat, held: set<Hash>, heads: map<string, Head>) returns (lost: nat)
    requires Apart(es) && forall n :: n in es && n in heads ==> Advances(es[n].point.At(), heads[n])
    modifies Frames(es)
    ensures Standings(es) == SweptBut(old(Standings(es)), {}, store, held, heads)
    ensures lost == |LosingBut(old(Standings(es)), {}, held)|
  {
    lost := 0;
    var todo := es.Keys;
    ghost var all := Standings(es);
    while todo != {}
      invariant todo <= es.Keys && Apart(es)
      invariant Standings(es) == SweptBut(all, todo, store, held, heads)
      invariant lost == |LosingBut(all, todo, held)|
    {
      var n :| n in todo;
      SweepsOne(all, todo, n, store, held, heads);
      LosesOne(all, todo, n, held);
      var more := InstallOne(es, n, store, held, Naming(heads, n));
      lost := lost + more;
      todo := todo - {n};
    }
  }

  method SweepMember(c: Subscriber, held: set<Hash>, moved: bool) returns (dropped: bool)
    modifies c
    ensures StanceOf(c) == SweptStance(old(StanceOf(c)), held, moved) && dropped == Dropped(old(c.synced), held)
  {
    dropped := c.synced != Zero && c.synced !in held;
    if dropped {
      c.Reset();
    }
    if moved || dropped {
      c.Wake();
    }
  }

  method SweepMembers(members: set<Subscriber>, held: set<Hash>, moved: bool) returns (lost: nat)
    modifies members
    ensures Stances(members) == SweptStances(old(Stances(members)), held, moved)
    ensures lost == |Losing(old(Stances(members)), held)|
  {
    lost := 0;
    var todo := members;
    ghost var all, losing: set<Subscriber> := Stances(members), {};
    while todo != {}
      invariant todo <= members
      invariant forall c :: c in todo ==> StanceOf(c) == all[c]
      invariant forall c :: c in members && c !in todo ==> StanceOf(c) == SweptStance(all[c], held, moved)
      invariant forall c :: c in losing <==> c in members && c !in todo && Dropped(all[c].synced, held)
      invariant lost == |losing|
    {
      var c :| c in todo;
      var dropped := SweepMember(c, held, moved);
      if dropped {
        lost := lost + 1;
        losing := losing + {c};
      }
      todo := todo - {c};
    }
    assert losing == Losing(all, held);
  }

  /** Puts the store, and the head if one is named, in place for one ref, and
      says how many subscribers lost the tree they held. */
  method SweepRef(e: Ref, store: nat, held: set<Hash>, named: Option<Head>) returns (lost: nat)
    requires named.Some? ==> Advances(e.point.At(), named.value)
    modifies e.point, e.members
    ensures Stand(e) == SweptStanding(old(Stand(e)), store, held, named)
    ensures lost == |Losing(old(Stand(e)).subs, held)|
  {
    var moved := false;
    if named.Some? {
      moved := e.point.Install(store, named.value);
    } else {
      e.point.SetStore(store);
    }
    lost := SweepMembers(e.members, held, moved);
  }
}
