// Where a ref points, and which heads may move it.

module Heads {
  import opened Basics
  import opened Git

  /** A head: a tree's hash, and a position in its ref's order. Zero is no
      position. */
  datatype Head = Head(hash: Hash, sequence: nat)

  /** What a ref remembers about its head: the kind is fixed by the first one
      installed. */
  datatype Pointer = Pointer(head: Head, sequenced: bool, installed: bool)

  const Nowhere := Pointer(Head(Zero, 0), false, false)

  predicate Sequenced(h: Head) {
    h.sequence != 0
  }

  // Once a head is installed, only heads sequenced as it was are allowed.
  predicate Allows(p: Pointer, h: Head) {
    p.installed ==> p.sequenced == Sequenced(h)
  }

  // A head the ref would take as newer.
  predicate Advances(p: Pointer, h: Head) {
    Allows(p, h) && (p.installed && p.sequenced ==> h.sequence > p.head.sequence)
  }

  function Move(p: Pointer, h: Head): Pointer {
    if !p.installed then Pointer(h, Sequenced(h), true)
    else if Advances(p, h) then p.(head := h) else p
  }

  // ----- The ref's own state -----

  datatype Verdict = Refused | NotAdvancing | Moves

  class RefState {
    // Which store is behind the ref, by identity; none until one is installed.
    var store: Option<nat>
    var head: Head
    var sequenced: bool
    var installed: bool

    function At(): Pointer
      reads this
    {
      Pointer(head, sequenced, installed)
    }

    constructor ()
      ensures At() == Nowhere && store == None
    {
      store, head, sequenced, installed := None, Head(Zero, 0), false, false;
    }

    /** Points the ref at h if h may move it. */
    method MoveHead(h: Head) returns (v: Verdict)
      modifies this`head, this`sequenced, this`installed
      ensures At() == Move(old(At()), h)
      ensures v == if !Allows(old(At()), h) then Refused else if Advances(old(At()), h) then Moves else NotAdvancing
    {
      if !installed {
        head, sequenced, installed := h, h.sequence != 0, true;
        return Moves;
      }
      if sequenced != (h.sequence != 0) {
        return Refused;
      }
      if sequenced && h.sequence <= head.sequence {
        return NotAdvancing;
      }
      head := h;
      return Moves;
    }

    /** The verdict MoveHead would come to. */
    function WouldMove(h: Head): (v: Verdict)
      reads this
      ensures v == if !Allows(At(), h) then Refused else if Advances(At(), h) then Moves else NotAdvancing
    {
      if installed && sequenced != (h.sequence != 0) then Refused
      else if installed && sequenced && h.sequence <= head.sequence then NotAdvancing
      else Moves
    }

    /** Always takes the new store; takes the head by MoveHead's rule, and says
        whether it did. */
    method Install(s: nat, h: Head) returns (moved: bool)
      modifies this
      ensures store == Some(s) && At() == Move(old(At()), h)
      ensures moved <==> Advances(old(At()), h)
    {
      store := Some(s);
      var v := MoveHead(h);
      return v == Moves;
    }

    method SetStore(s: nat)
      modifies this`store
      ensures store == Some(s)
    {
      store := Some(s);
    }
  }

  // ----- Any order, any repeats -----

  function Deliver(p: Pointer, hs: seq<Head>): Pointer
    decreases |hs|
  {
    if hs == [] then p else Deliver(Move(p, hs[0]), hs[1..])
  }

  // Equal ordinals mean equal heads: what an ordinal's owner promises.
  ghost predicate Coherent(hs: seq<Head>) {
    forall i, j :: 0 <= i < |hs| && 0 <= j < |hs| && hs[i].sequence == hs[j].sequence ==> hs[i] == hs[j]
  }

  // h is the last head of its kind in hs.
  ghost predicate LastOfKind(hs: seq<Head>, i: nat, sequenced: bool)
    requires i < |hs|
  {
    && Sequenced(hs[i]) == sequenced
    && forall j :: i < j < |hs| ==> Sequenced(hs[j]) != sequenced
  }

  // Where a ref of one kind ends, whatever it is delivered: a sequenced one at
  // nothing older than anything it was given, an unsequenced one at the last
  // head of its kind.
  lemma {:induction false} DeliverReaches(p: Pointer, hs: seq<Head>)
    requires p.installed && p.sequenced == Sequenced(p.head)
    ensures Deliver(p, hs).installed && Deliver(p, hs).sequenced == p.sequenced == Sequenced(Deliver(p, hs).head)
    ensures Deliver(p, hs).head == p.head || Deliver(p, hs).head in hs
    ensures Deliver(p, hs).head.sequence >= p.head.sequence
    ensures p.sequenced ==> forall h :: h in hs ==> h.sequence <= Deliver(p, hs).head.sequence
    ensures !p.sequenced ==> forall i :: 0 <= i < |hs| && LastOfKind(hs, i, false) ==> Deliver(p, hs).head == hs[i]
    decreases |hs|
  {
    if hs != [] {
      DeliverReaches(Move(p, hs[0]), hs[1..]);
      var q := Deliver(p, hs);
      assert hs == [hs[0]] + hs[1..];
      if !p.sequenced {
        forall i | 0 <= i < |hs| && LastOfKind(hs, i, false) ensures q.head == hs[i] {
          if i > 0 {
            assert hs[1..][i - 1] == hs[i];
            assert LastOfKind(hs[1..], i - 1, false);
          } else {
            OtherKindIgnored(Move(p, hs[0]), hs[1..]);
          }
        }
      }
    }
  }

  lemma {:induction false} OtherKindIgnored(p: Pointer, hs: seq<Head>)
    requires p.installed && forall h :: h in hs ==> Sequenced(h) != p.sequenced
    ensures Deliver(p, hs) == p
    decreases |hs|
  {
    if hs != [] { OtherKindIgnored(Move(p, hs[0]), hs[1..]); }
  }

  // However a sequenced ref's heads are delivered, it ends at the newest.
  lemma NewestWins(hs: seq<Head>)
    requires hs != [] && Sequenced(hs[0]) && Coherent(hs)
    ensures Deliver(Nowhere, hs).head in hs
    ensures forall h :: h in hs && (forall k :: k in hs ==> k.sequence <= h.sequence) ==> Deliver(Nowhere, hs).head == h
  {
    var p := Move(Nowhere, hs[0]);
    DeliverReaches(p, hs[1..]);
    var q := Deliver(Nowhere, hs);
    assert q.head in hs;
    assert hs == [hs[0]] + hs[1..];
    forall h | h in hs && (forall k :: k in hs ==> k.sequence <= h.sequence) ensures q.head == h {
      var i :| 0 <= i < |hs| && hs[i] == h;
      var j :| 0 <= j < |hs| && hs[j] == q.head;
      assert h.sequence <= q.head.sequence;
    }
  }

  // Two deliveries of the same heads, in any order with any repeats, agree.
  lemma DeliveriesAgree(hs: seq<Head>, ks: seq<Head>)
    requires hs != [] && ks != [] && Sequenced(hs[0]) && Sequenced(ks[0]) && Coherent(hs)
    requires forall h :: h in hs <==> h in ks
    ensures Deliver(Nowhere, hs).head == Deliver(Nowhere, ks).head
  {
    forall i, j | 0 <= i < |ks| && 0 <= j < |ks| && ks[i].sequence == ks[j].sequence ensures ks[i] == ks[j] {
      assert ks[i] in hs && ks[j] in hs;
      var a :| 0 <= a < |hs| && hs[a] == ks[i];
      var b :| 0 <= b < |hs| && hs[b] == ks[j];
    }
    NewestWins(hs);
    NewestWins(ks);
    DeliverReaches(Move(Nowhere, hs[0]), hs[1..]);
    assert hs == [hs[0]] + hs[1..];
    assert Deliver(Nowhere, hs).head in ks;
  }

  // h is the first of those with the highest sequence in hs.
  ghost predicate FirstNewest(hs: seq<Head>, i: nat)
    requires i < |hs|
  {
    && (forall j :: 0 <= j < |hs| ==> hs[j].sequence <= hs[i].sequence)
    && (forall j :: 0 <= j < i ==> hs[j].sequence < hs[i].sequence)
  }

  // Even where heads share a sequence: of those that share the highest, the one
  // delivered first stands.
  lemma {:induction false} FirstStands(p: Pointer, hs: seq<Head>, i: nat)
    requires p.installed && p.sequenced && Sequenced(p.head) && i < |hs| && FirstNewest(hs, i)
    ensures Deliver(p, hs).head == if hs[i].sequence > p.head.sequence then hs[i] else p.head
    decreases |hs|
  {
    if i == 0 {
      NoneNewer(Move(p, hs[0]), hs[1..]);
    } else {
      assert hs[1..][i - 1] == hs[i];
      FirstStands(Move(p, hs[0]), hs[1..], i - 1);
    }
  }

  lemma {:induction false} NoneNewer(p: Pointer, hs: seq<Head>)
    requires p.installed && p.sequenced && forall h :: h in hs ==> h.sequence <= p.head.sequence
    ensures Deliver(p, hs) == p
    decreases |hs|
  {
    if hs != [] { NoneNewer(Move(p, hs[0]), hs[1..]); }
  }

  // ----- What one connection is told -----

  /** What happens at a ref in view of one connection: a head delivered by the
      application or by a preparation, or the head announced. */
  datatype Event = Delivery(head: Head) | Announcement

  function Announced(p: Pointer, es: seq<Event>): seq<nat>
    decreases |es|
  {
    if es == [] then []
    else
      match es[0]
      case Delivery(h) => Announced(Move(p, h), es[1..])
      case Announcement => [p.head.sequence] + Announced(p, es[1..])
  }

  // Nothing is announced before the ref is ready, and by then it has a head.
  predicate Ready(p: Pointer, es: seq<Event>)
    decreases |es|
  {
    if es == [] then true
    else
      match es[0]
      case Delivery(h) => Ready(Move(p, h), es[1..])
      case Announcement => p.installed && Ready(p, es[1..])
  }

  // The sequences announced over one connection never decrease, whatever is
  // delivered meanwhile, refused heads and late preparations included.
  lemma {:induction false} AnnouncementsAscend(p: Pointer, es: seq<Event>)
    requires Ready(p, es) && (p.installed ==> p.sequenced == Sequenced(p.head))
    ensures forall i, j :: 0 <= i < j < |Announced(p, es)| ==> Announced(p, es)[i] <= Announced(p, es)[j]
    ensures p.installed ==> forall n :: n in Announced(p, es) ==> p.head.sequence <= n
    ensures p.installed ==> forall n :: n in Announced(p, es) ==> (n == 0 <==> !p.sequenced)
    decreases |es|
  {
    if es != [] {
      match es[0]
      case Delivery(h) => AnnouncementsAscend(Move(p, h), es[1..]);
      case Announcement =>
        AnnouncementsAscend(p, es[1..]);
        var rest := Announced(p, es[1..]);
        assert forall j :: 0 <= j < |rest| ==> rest[j] in rest;
    }
  }

  // The heads delivered, in turn.
  function Deliveries(es: seq<Event>): seq<Head> {
    if es == [] then []
    else (if es[0].Delivery? then [es[0].head] else []) + Deliveries(es[1..])
  }

  // Each announcement is of the head the ref has come to by then.
  lemma {:induction false} AnnouncesLast(p: Pointer, es: seq<Event>)
    ensures Announced(p, es + [Announcement]) == Announced(p, es) + [Deliver(p, Deliveries(es)).head.sequence]
    ensures forall h :: Announced(p, es + [Delivery(h)]) == Announced(p, es)
    decreases |es|
  {
    if es == [] {
      assert forall e: Event :: es + [e] == [e] && [e][1..] == [];
    } else {
      assert forall e: Event :: (es + [e])[1..] == es[1..] + [e];
      match es[0]
      case Delivery(h) =>
        AnnouncesLast(Move(p, h), es[1..]);
        assert ([h] + Deliveries(es[1..]))[1..] == Deliveries(es[1..]);
      case Announcement =>
        AnnouncesLast(p, es[1..]);
        assert [] + Deliveries(es[1..]) == Deliveries(es[1..]);
    }
  }

  // Ready is a head before the first announcement.
  lemma {:induction false} ReadyMeans(p: Pointer, es: seq<Event>)
    ensures Ready(p, es) <==>
              p.installed || forall i :: 0 <= i < |es| && es[i].Announcement? ==> exists j :: 0 <= j < i && es[j].Delivery?
    decreases |es|
  {
    if es != [] {
      match es[0]
      case Delivery(h) =>
        ReadyMeans(Move(p, h), es[1..]);
        assert Move(p, h).installed;
        forall i | 0 <= i < |es| && es[i].Announcement? ensures exists j :: 0 <= j < i && es[j].Delivery? { assert es[0].Delivery?; }
      case Announcement =>
        ReadyMeans(p, es[1..]);
        assert es[0].Announcement?;
    }
  }
}
