// A whole subscription on the wire: a server that may name itself, then its
// updates, each announced by a line and followed by its pack.

module Session {
  import opened Basics
  import opened Decimal
  import opened Lines
  import opened Framing

  datatype Pushed = Pushed(hash: Sum, objects: int, sequence: nat, pack: string)

  function Announcing(u: Pushed): ServerMessage {
    Update(u.hash, u.objects, u.sequence)
  }

  predicate Sendable(u: Pushed) {
    0 <= u.objects <= MaxInt64 && u.sequence <= MaxUint64
  }

  function Framed(u: Pushed): seq<string>
    requires Sendable(u)
  {
    [Tell(Announcing(u)) + "\n"] + (Chunks(u.pack) + [""])
  }

  function FramedAll(us: seq<Pushed>): seq<string>
    requires forall i :: 0 <= i < |us| ==> Sendable(us[i])
  {
    if us == [] then [] else Framed(us[0]) + FramedAll(us[1..])
  }

  /** What a server that calls itself id sends for these updates. */
  function Sent(id: string, us: seq<Pushed>): seq<string>
    requires forall i :: 0 <= i < |us| ==> Sendable(us[i])
  {
    (if id == "" then [] else [Tell(Announce(id)) + "\n"]) + FramedAll(us)
  }

  /** What a client makes of what it receives: the last name the server gave
      and every update with its pack, or nothing if any of it is malformed, a
      refusal, or cut short. */
  function Understood(packets: seq<string>, id: string): Option<(string, seq<Pushed>)>
    decreases |packets|
  {
    if packets == [] then Some((id, []))
    else
      match NextServer(packets[0])
      case Got(Announce(name)) => Understood(packets[1..], name)
      case Got(Update(hash, objects, sequence)) =>
        AfterIsLess(packets[1..]);
        if !Ended(packets[1..]) then None
        else
          (match Understood(AfterPack(packets[1..]), id)
           case None => None
           case Some(rest) => Some((rest.0, [Pushed(hash, objects, sequence, PackOf(packets[1..]))] + rest.1)))
      case _ => None
  }

  lemma {:induction false} AfterIsLess(packets: seq<string>)
    ensures |AfterPack(packets)| <= |packets|
    decreases |packets|
  {
    if packets != [] && packets[0] != "" {
      AfterIsLess(packets[1..]);
    }
  }

  // ----- Round trip -----

  lemma UnlineLine(line: string)
    ensures Unline(line + "\n") == line
  {
  }

  lemma UpdateArrives(u: Pushed)
    requires Sendable(u)
    ensures NextServer(Tell(Announcing(u)) + "\n") == Got(Announcing(u))
  {
    UnlineLine(Tell(Announcing(u)));
    UpdateReadsBack(u.hash, u.objects, u.sequence);
    UpdateFields(u.hash, u.objects, u.sequence);
  }

  lemma NameArrives(id: string)
    requires id != "" && ' ' !in id
    ensures NextServer(Tell(Announce(id)) + "\n") == Got(Announce(id))
  {
    UnlineLine(Tell(Announce(id)));
    AnnounceReadsBack(id);
  }

  // One update at the front.
  lemma UpdateUnderstood(u: Pushed, rest: seq<string>, id: string)
    requires Sendable(u)
    ensures Understood(Framed(u) + rest, id) ==
            match Understood(rest, id)
            case None => None
            case Some(more) => Some((more.0, [u] + more.1))
  {
    UpdateArrives(u);
    PackReadsBack(u.pack, rest);
    var line, body := Tell(Announcing(u)) + "\n", Chunks(u.pack) + [""] + rest;
    assert Framed(u) + rest == [line] + body;
    LineUnderstood(line, u, body, id);
  }

  lemma LineUnderstood(line: string, u: Pushed, body: seq<string>, id: string)
    requires NextServer(line) == Got(Announcing(u)) && Ended(body) && PackOf(body) == u.pack
    ensures |AfterPack(body)| <= |body|
    ensures Understood([line] + body, id) ==
            match Understood(AfterPack(body), id)
            case None => None
            case Some(more) => Some((more.0, [u] + more.1))
  {
    AfterIsLess(body);
    assert ([line] + body)[1..] == body;
  }

  lemma {:induction false} UpdatesUnderstood(us: seq<Pushed>, id: string)
    requires forall i :: 0 <= i < |us| ==> Sendable(us[i])
    ensures Understood(FramedAll(us), id) == Some((id, us))
    decreases |us|
  {
    if us != [] {
      UpdateUnderstood(us[0], FramedAll(us[1..]), id);
      UpdatesUnderstood(us[1..], id);
      assert us == [us[0]] + us[1..];
    }
  }

  // The server's name at the front.
  lemma NameUnderstood(id: string, rest: seq<string>)
    requires id != "" && ' ' !in id
    ensures Understood([Tell(Announce(id)) + "\n"] + rest, "") == Understood(rest, id)
  {
    NameArrives(id);
    assert ([Tell(Announce(id)) + "\n"] + rest)[1..] == rest;
  }

  // Any session is understood as it was sent: every message, every pack, and
  // nothing of one taken for the next.
  lemma SessionUnderstood(id: string, us: seq<Pushed>)
    requires ValidId(id)
    requires forall i :: 0 <= i < |us| ==> 0 <= us[i].objects <= MaxInt64 && us[i].sequence <= MaxUint64
    ensures Understood(Sent(id, us), "") == Some((id, us))
  {
    UpdatesUnderstood(us, id);
    if id != "" {
      NameUnderstood(id, FramedAll(us));
    } else {
      assert Sent(id, us) == FramedAll(us);
    }
  }

  // ----- Cut short, or refused -----

  // No packet of a pack is the flush that ends it, so without that it has no end.
  lemma {:induction false} NotEnded(packets: seq<string>)
    requires forall i :: 0 <= i < |packets| ==> packets[i] != ""
    ensures !Ended(packets)
    decreases |packets|
  {
    if packets != [] { NotEnded(packets[1..]); }
  }

  lemma LineCut(line: string, u: Pushed, body: seq<string>, id: string)
    requires NextServer(line) == Got(Announcing(u)) && !Ended(body)
    ensures Understood([line] + body, id) == None
  {
    assert ([line] + body)[1..] == body;
  }

  // An update of which some packets are missing at the end.
  lemma UpdateCut(u: Pushed, k: nat, id: string)
    requires Sendable(u) && 0 < k < |Framed(u)|
    ensures Understood(Framed(u)[..k], id) == None
  {
    var line, body := Tell(Announcing(u)) + "\n", Chunks(u.pack)[..k - 1];
    UpdateArrives(u);
    PackCost(u.pack);
    NotEnded(body);
    assert Framed(u)[..k] == [line] + body;
    LineCut(line, u, body, id);
  }

  // What is understood of the rest, with some updates understood already.
  function Onward(us: seq<Pushed>, rest: Option<(string, seq<Pushed>)>): Option<(string, seq<Pushed>)> {
    match rest
    case None => None
    case Some(more) => Some((more.0, us + more.1))
  }

  lemma OnwardOne(us: seq<Pushed>, u: Pushed, rest: Option<(string, seq<Pushed>)>)
    ensures Onward(us, Onward([u], rest)) == Onward(us + [u], rest)
  {
    if rest.Some? {
      assert us + ([u] + rest.value.1) == us + [u] + rest.value.1;
    }
  }

  // Whatever follows them, the updates in front are understood first.
  lemma {:induction false} TailUnderstood(us: seq<Pushed>, tail: seq<string>, id: string)
    requires forall i :: 0 <= i < |us| ==> Sendable(us[i])
    ensures Understood(FramedAll(us) + tail, id) == Onward(us, Understood(tail, id))
    decreases |us|
  {
    if us == [] {
      assert [] + tail == tail;
      OnwardNone(Understood(tail, id));
    } else {
      TailUnderstood(us[1..], tail, id);
      TailFirst(us, tail, id);
      OnwardFirst(us, Understood(tail, id));
    }
  }

  lemma TailFirst(us: seq<Pushed>, tail: seq<string>, id: string)
    requires us != [] && forall i :: 0 <= i < |us| ==> Sendable(us[i])
    ensures Understood(FramedAll(us) + tail, id) == Onward([us[0]], Understood(FramedAll(us[1..]) + tail, id))
  {
    FramedFirst(us, tail);
    UpdateUnderstood(us[0], FramedAll(us[1..]) + tail, id);
  }

  lemma Regroup(a: seq<string>, b: seq<string>, c: seq<string>)
    ensures (a + b) + c == a + (b + c)
  {
  }

  lemma FramedFirst(us: seq<Pushed>, tail: seq<string>)
    requires us != [] && forall i :: 0 <= i < |us| ==> Sendable(us[i])
    ensures FramedAll(us) + tail == Framed(us[0]) + (FramedAll(us[1..]) + tail)
  {
    Regroup(Framed(us[0]), FramedAll(us[1..]), tail);
  }

  lemma OnwardNone(rest: Option<(string, seq<Pushed>)>)
    ensures Onward([], rest) == rest
  {
    if rest.Some? { assert [] + rest.value.1 == rest.value.1; }
  }

  lemma OnwardFirst(us: seq<Pushed>, rest: Option<(string, seq<Pushed>)>)
    requires us != []
    ensures Onward([us[0]], Onward(us[1..], rest)) == Onward(us, rest)
  {
    if rest.Some? { assert [us[0]] + (us[1..] + rest.value.1) == us + rest.value.1; }
  }

  lemma {:induction false} FramedSplit(us: seq<Pushed>, j: nat)
    requires j <= |us| && forall i :: 0 <= i < |us| ==> Sendable(us[i])
    ensures FramedAll(us) == FramedAll(us[..j]) + FramedAll(us[j..])
    decreases j
  {
    if j == 0 {
      assert us[..0] == [] && us[0..] == us;
    } else {
      FramedSplit(us[1..], j - 1);
      assert us[..j][0] == us[0] && us[..j][1..] == us[1..][..j - 1] && us[1..][j - 1..] == us[j..];
      Regroup(Framed(us[0]), FramedAll(us[1..][..j - 1]), FramedAll(us[j..]));
    }
  }

  // The updates of which all packets are among the first k, and the packets over.
  lemma {:induction false} Located(us: seq<Pushed>, k: nat) returns (j: nat, m: nat)
    requires (forall i :: 0 <= i < |us| ==> Sendable(us[i])) && k <= |FramedAll(us)|
    ensures j <= |us| && k == |FramedAll(us[..j])| + m && (m > 0 ==> j < |us| && m < |Framed(us[j])|)
    decreases |us|
  {
    if us == [] || k < |Framed(us[0])| {
      j, m := 0, k;
      assert us[..0] == [];
    } else {
      j, m := Located(us[1..], k - |Framed(us[0])|);
      j := j + 1;
      assert us[..j][0] == us[0] && us[..j][1..] == us[1..][..j - 1];
    }
  }

  lemma FramedGrows(us: seq<Pushed>, i: nat, j: nat)
    requires i < j <= |us| && forall i :: 0 <= i < |us| ==> Sendable(us[i])
    ensures |FramedAll(us[..i])| + |Framed(us[i])| <= |FramedAll(us[..j])| && |Framed(us[i])| > 0
  {
    FramedSplit(us[..j], i);
    assert us[..j][..i] == us[..i] && us[..j][i..][0] == us[i];
  }

  lemma PrefixOf(a: seq<string>, b: seq<string>, c: seq<string>, m: nat)
    requires m <= |b|
    ensures (a + (b + c))[..|a| + m] == a + b[..m]
  {
  }

  // Cut anywhere, what was sent is understood exactly if it was cut between two
  // updates, and then it is the updates before.
  lemma CutShort(us: seq<Pushed>, k: nat, id: string)
    requires (forall i :: 0 <= i < |us| ==> Sendable(us[i])) && k <= |FramedAll(us)|
    ensures forall j :: 0 <= j <= |us| && k == |FramedAll(us[..j])| ==> Understood(FramedAll(us)[..k], id) == Some((id, us[..j]))
    ensures Understood(FramedAll(us)[..k], id).Some? ==> exists j :: 0 <= j <= |us| && k == |FramedAll(us[..j])|
  {
    var j, m := Located(us, k);
    forall i | 0 <= i <= |us| && k == |FramedAll(us[..i])| ensures i == j && m == 0 {
      if i < j { FramedGrows(us, i, j); } else if j < i { FramedGrows(us, j, i); }
    }
    if m > 0 { CutInside(us, k, j, m, id); } else { CutBetween(us, k, j, id); }
  }

  lemma CutBetween(us: seq<Pushed>, k: nat, j: nat, id: string)
    requires (forall i :: 0 <= i < |us| ==> Sendable(us[i])) && j <= |us| && k == |FramedAll(us[..j])|
    ensures k <= |FramedAll(us)| && Understood(FramedAll(us)[..k], id) == Some((id, us[..j]))
  {
    UpdatesUnderstood(us[..j], id);
    FramedSplit(us, j);
    assert FramedAll(us)[..k] == FramedAll(us[..j]);
  }

  lemma CutInside(us: seq<Pushed>, k: nat, j: nat, m: nat, id: string)
    requires (forall i :: 0 <= i < |us| ==> Sendable(us[i])) && k <= |FramedAll(us)|
    requires j < |us| && 0 < m < |Framed(us[j])| && k == |FramedAll(us[..j])| + m
    ensures Understood(FramedAll(us)[..k], id) == None
  {
    FramedInside(us, k, j, m);
    UpdateCut(us[j], m, id);
    TailUnderstood(us[..j], Framed(us[j])[..m], id);
  }

  lemma FramedInside(us: seq<Pushed>, k: nat, j: nat, m: nat)
    requires (forall i :: 0 <= i < |us| ==> Sendable(us[i])) && k <= |FramedAll(us)|
    requires j < |us| && m < |Framed(us[j])| && k == |FramedAll(us[..j])| + m
    ensures FramedAll(us)[..k] == FramedAll(us[..j]) + Framed(us[j])[..m]
  {
    FramedSplit(us, j);
    assert us[j..][0] == us[j] && us[j..][1..] == us[j + 1..];
    PrefixOf(FramedAll(us[..j]), Framed(us[j]), FramedAll(us[j + 1..]), m);
  }

  // A session whose server gave its name is cut as its updates are.
  lemma NamedCut(id: string, us: seq<Pushed>, k: nat)
    requires id != "" && ' ' !in id && (forall i :: 0 <= i < |us| ==> Sendable(us[i])) && k <= |FramedAll(us)|
    ensures |Sent(id, us)| == 1 + |FramedAll(us)|
    ensures Understood(Sent(id, us)[..k + 1], "") == Understood(FramedAll(us)[..k], id)
  {
    var front := [Tell(Announce(id)) + "\n"];
    assert Sent(id, us)[..k + 1] == front + FramedAll(us)[..k];
    NameUnderstood(id, FramedAll(us)[..k]);
  }

  // So a session cut anywhere is understood exactly if nothing of it arrived, or
  // the server's name and some number of whole updates.
  lemma SessionCut(id: string, us: seq<Pushed>, k: nat)
    requires ValidId(id) && (forall i :: 0 <= i < |us| ==> Sendable(us[i])) && k <= |Sent(id, us)|
    ensures Understood(Sent(id, us)[..k], "").Some? <==> k == 0 || exists j :: 0 <= j <= |us| && k == |Sent(id, us[..j])|
    ensures forall j :: 0 <= j <= |us| && k == |Sent(id, us[..j])| ==> Understood(Sent(id, us)[..k], "") == Some((id, us[..j]))
  {
    var named := if id == "" then 0 else 1;
    forall j | 0 <= j <= |us| ensures |Sent(id, us[..j])| == named + |FramedAll(us[..j])| {}
    assert us[..|us|] == us && us[..0] == [];
    if k >= named {
      CutSession(id, us, k, k - named);
    } else {
      assert Sent(id, us)[..k] == [];
    }
  }

  lemma CutSession(id: string, us: seq<Pushed>, k: nat, m: nat)
    requires ValidId(id) && (forall i :: 0 <= i < |us| ==> Sendable(us[i])) && m <= |FramedAll(us)| && k <= |Sent(id, us)|
    requires k == m + (if id == "" then 0 else 1)
    ensures Understood(Sent(id, us)[..k], "").Some? <==> exists j :: 0 <= j <= |us| && m == |FramedAll(us[..j])|
    ensures forall j :: 0 <= j <= |us| && m == |FramedAll(us[..j])| ==> Understood(Sent(id, us)[..k], "") == Some((id, us[..j]))
  {
    CutShort(us, m, id);
    if id == "" { assert Sent(id, us) == FramedAll(us); } else { NamedCut(id, us, m); }
  }

  lemma RefusalArrives(code: string, message: string, rest: seq<string>, id: string)
    requires ' ' !in code
    ensures Understood([Tell(Refusal(code, message)) + "\n"] + rest, id) == None
  {
    UnlineLine(Tell(Refusal(code, message)));
    RefusalReadsBack(code, message);
  }

  // After a refusal nothing that came before counts.
  lemma RefusalEnds(us: seq<Pushed>, id: string, code: string, message: string, rest: seq<string>)
    requires (forall i :: 0 <= i < |us| ==> Sendable(us[i])) && ' ' !in code
    ensures Understood(FramedAll(us) + ([Tell(Refusal(code, message)) + "\n"] + rest), id) == None
  {
    RefusalArrives(code, message, rest, id);
    TailUnderstood(us, [Tell(Refusal(code, message)) + "\n"] + rest, id);
  }

  // ----- Both ends -----

  // The bytes of a pack in the pieces they were produced in.
  function Assembled(pieces: seq<string>): string {
    if pieces == [] then "" else pieces[0] + Assembled(pieces[1..])
  }

  /** Sends one update, its pack written piece by piece. */
  method SendUpdate(conn: Conn, u: Pushed, pieces: seq<string>)
    requires Sendable(u) && Assembled(pieces) == u.pack
    modifies conn`sent
    ensures conn.sent == old(conn.sent) + Framed(u)
  {
    conn.WriteLine(Tell(Announcing(u)));
    WritePack(conn, u.pack, pieces);
    Regroup(old(conn.sent), [Tell(Announcing(u)) + "\n"], Chunks(u.pack) + [""]);
  }

  method WritePack(conn: Conn, ghost pack: string, pieces: seq<string>)
    requires Assembled(pieces) == pack
    modifies conn`sent
    ensures conn.sent == old(conn.sent) + (Chunks(pack) + [""])
  {
    var w := new PackWriter(conn);
    ghost var left := pieces;
    var i := 0;
    while i < |pieces|
      invariant 0 <= i <= |pieces| && left == pieces[i..] && w.Valid() && w.conn == conn
      invariant w.before == old(conn.sent)
      invariant w.pack + Assembled(left) == pack
    {
      Glued(w.pack, left[0], Assembled(left[1..]));
      w.Write(pieces[i]);
      left := left[1..];
      i := i + 1;
    }
    assert w.pack + "" == w.pack;
    w.Close();
  }

  lemma Glued(a: string, b: string, c: string)
    ensures (a + b) + c == a + (b + c)
  {
  }

  /** Sends updates one after the other. */
  method SendUpdates(conn: Conn, us: seq<Pushed>, pieces: seq<seq<string>>)
    requires forall i :: 0 <= i < |us| ==> Sendable(us[i])
    requires |pieces| == |us| && forall i :: 0 <= i < |us| ==> Assembled(pieces[i]) == us[i].pack
    modifies conn`sent
    ensures conn.sent == old(conn.sent) + FramedAll(us)
  {
    var i := 0;
    ghost var left := us;
    while i < |us|
      invariant 0 <= i <= |us| && left == us[i..]
      invariant conn.sent + FramedAll(left) == old(conn.sent) + FramedAll(us)
    {
      ghost var before := conn.sent;
      SendUpdate(conn, us[i], pieces[i]);
      Regroup(before, Framed(us[i]), FramedAll(left[1..]));
      left := left[1..];
      i := i + 1;
    }
    assert conn.sent + [] == conn.sent;
  }

  /** Serves a session; the packs may be produced in any pieces. */
  method Send(conn: Conn, id: string, us: seq<Pushed>, pieces: seq<seq<string>>)
    requires forall i :: 0 <= i < |us| ==> Sendable(us[i])
    requires |pieces| == |us| && forall i :: 0 <= i < |us| ==> Assembled(pieces[i]) == us[i].pack
    modifies conn`sent
    ensures conn.sent == old(conn.sent) + Sent(id, us)
  {
    if id != "" {
      conn.WriteLine(Tell(Announce(id)));
    }
    SendUpdates(conn, us, pieces);
    Regroup(old(conn.sent), if id == "" then [] else [Tell(Announce(id)) + "\n"], FramedAll(us));
  }

  /** Reads the pack that follows an update line. */
  method ReceivePack(conn: Conn, sizes: nat -> nat) returns (ok: bool, pack: string)
    requires forall i: nat :: sizes(i) > 0
    modifies conn`incoming
    ensures ok == old(Ended(conn.incoming)) && |conn.incoming| <= old(|conn.incoming|)
    ensures ok ==> pack == old(PackOf(conn.incoming)) && conn.incoming == old(AfterPack(conn.incoming))
  {
    AfterIsLess(conn.incoming);
    var reader := new PackReader(conn);
    ok, pack := reader.Drain(sizes);
  }

  /** Receives a session to its end, reading packs through buffers of any
      sizes. */
  method Receive(conn: Conn, sizes: nat -> nat) returns (r: Option<(string, seq<Pushed>)>)
    requires forall i: nat :: sizes(i) > 0
    modifies conn`incoming
    ensures r == Understood(old(conn.incoming), "")
  {
    var id, us: seq<Pushed> := "", [];
    assert forall more: seq<Pushed> :: us + more == more;
    while true
      invariant Understood(old(conn.incoming), "") == Onward(us, Understood(conn.incoming, id))
      decreases |conn.incoming|
    {
      var m := conn.ReadServerMessage();
      match m
      case End =>
        assert us + [] == us;
        return Some((id, us));
      case Malformed => return None;
      case Got(Refusal(_, _)) => return None;
      case Got(Announce(name)) => id := name;
      case Got(Update(hash, objects, sequence)) =>
        var ok, pack := ReceivePack(conn, sizes);
        if !ok {
          return None;
        }
        OnwardOne(us, Pushed(hash, objects, sequence, pack), Understood(conn.incoming, id));
        us := us + [Pushed(hash, objects, sequence, pack)];
    }
  }
}
