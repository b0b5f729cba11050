// A client that keeps a bounded history: before it interprets an update it
// drops every object that none of the states it keeps can reach.

module Client {
  import opened Basics
  import opened Git
  import opened Select
  import opened Mark
  import opened Graph

  /** An update as it arrives: the hash announced and the objects packed. */
  datatype Message = Message(hash: Hash, pack: seq<Object>)

  /** What the application is told of one update. */
  datatype Report = Report(hash: Hash, previous: Hash)

  // The states kept, newest last, once an update to h is done with.
  function Window(heads: seq<Hash>, h: Hash, history: nat): seq<Hash> {
    if heads != [] && heads[|heads| - 1] == h then heads
    else
      var more := heads + [h];
      if |more| > history then more[|more| - history..] else more
  }

  function Newest(heads: seq<Hash>): Hash {
    if heads == [] then Zero else heads[|heads| - 1]
  }

  function Windows(heads: seq<Hash>, ms: seq<Message>, history: nat): seq<Hash>
    decreases |ms|
  {
    if ms == [] then heads else Windows(Window(heads, ms[0].hash, history), ms[1..], history)
  }

  ghost function Packed(pack: seq<Object>): set<Hash> {
    set i | 0 <= i < |pack| :: Digest(pack[i])
  }

  // The pack brings a client that holds the baseline to h and carries nothing
  // foreign to h.
  ghost predicate Bridges(base: Hash, m: Message) {
    && Base(m.hash) <= Base(base) + Packed(m.pack)
    && Packed(m.pack) <= Base(m.hash)
    && (m.hash != Zero ==> IsTree(m.hash) && Sound(m.hash))
  }

  // The objects selected, in the order they are sent.
  function Contents(out: seq<Hash>): (pack: seq<Object>)
    requires Zero !in out
    ensures |pack| == |out| && forall i :: 0 <= i < |out| ==> Digest(pack[i]) == out[i]
  {
    if out == [] then [] else assert out[0] in out; [out[0].obj] + Contents(out[1..])
  }

  lemma ContentsPacked(out: seq<Hash>)
    requires Zero !in out
    ensures Packed(Contents(out)) == set h | h in out
  {
    forall h | h in out ensures h in Packed(Contents(out)) {
      var i :| 0 <= i < |out| && out[i] == h;
      assert Digest(Contents(out)[i]) == h;
    }
  }

  // What a server selects for a head, or the nothing it sends for a ref that
  // points nowhere, brings its client there.
  lemma SelectionBridges(from: Hash, goal: Hash, out: seq<Hash>)
    requires if goal == Zero then out == [] else IsTree(goal) && Sound(goal) && Complete(from, goal, out)
    ensures Zero !in out && Bridges(from, Message(goal, Contents(out)))
  {
    if goal != Zero { ReachNotZero(goal); }
    ContentsPacked(out);
  }

  // The baseline the server counted on is one the client keeps.
  predicate Kept(base: Hash, heads: seq<Hash>) {
    base == Zero || base in heads
  }

  // The window never forgets the newest state, nor holds more than it may.
  lemma WindowKeeps(heads: seq<Hash>, h: Hash, history: nat)
    requires history >= 1 && |heads| <= history
    ensures var w := Window(heads, h, history);
            && 1 <= |w| <= history && w[|w| - 1] == h
            && forall x :: x in w ==> x == h || x in heads
  {
    var more := heads + [h];
    assert more[|more| - 1] == h;
    assert forall x :: x in more ==> x == h || x in heads;
  }

  // The states told, each once for as long as it is the last one told.
  function Turns(hs: seq<Hash>): seq<Hash> {
    if hs == [] then []
    else
      var before := Turns(hs[..|hs| - 1]);
      if before != [] && before[|before| - 1] == hs[|hs| - 1] then before else before + [hs[|hs| - 1]]
  }

  function HashesOf(ms: seq<Message>): seq<Hash> {
    seq(|ms|, i requires 0 <= i < |ms| => ms[i].hash)
  }

  lemma TurnsMore(hs: seq<Hash>, h: Hash)
    ensures Turns(hs + [h]) == var t := Turns(hs); if t != [] && t[|t| - 1] == h then t else t + [h]
  {
    assert (hs + [h])[..|hs|] == hs;
  }

  // The last n of these, or all of them.
  function Last(hs: seq<Hash>, n: nat): seq<Hash> {
    if |hs| <= n then hs else hs[|hs| - n..]
  }

  lemma LastWindow(all: seq<Hash>, h: Hash, history: nat)
    requires history >= 1
    ensures Window(Last(all, history), h, history) ==
            Last(if all != [] && all[|all| - 1] == h then all else all + [h], history)
  {
  }

  lemma LastTold(heads: seq<Hash>, ms: seq<Message>, i: nat, history: nat)
    requires history >= 1 && i + 1 == |ms|
    ensures Window(Last(Turns(heads + HashesOf(ms[..i])), history), ms[i].hash, history) == Last(Turns(heads + HashesOf(ms)), history)
  {
    var told := heads + HashesOf(ms[..i]);
    TurnsMore(told, ms[i].hash);
    assert told + [ms[i].hash] == heads + HashesOf(ms);
    LastWindow(Turns(told), ms[i].hash, history);
  }

  // What is kept is the last of the states told, as many as there is room for
  // and repeats of the last one aside.
  lemma {:induction false} WindowsAreLast(heads: seq<Hash>, ms: seq<Message>, history: nat)
    requires history >= 1 && |heads| <= history && Turns(heads) == heads
    ensures Windows(heads, ms, history) == Last(Turns(heads + HashesOf(ms)), history)
    decreases |ms|
  {
    if ms == [] {
      assert heads + HashesOf(ms) == heads;
    } else {
      var i := |ms| - 1;
      WindowsAreLast(heads, ms[..i], history);
      WindowsSplit(heads, ms, i, history);
      assert ms[..i + 1] == ms;
      LastTold(heads, ms, i, history);
    }
  }

  class Client {
    const graph: Graph
    const history: nat
    var heads: seq<Hash>
    var previous: Hash

    ghost predicate Valid()
      reads this, graph
    {
      && graph.Valid() && history >= 1
      && |heads| <= history && Sane(heads)
      && Union(heads) <= graph.Held()
      && previous == Newest(heads)
    }

    /** Resumes from the tree at synced, which is in g. */
    constructor (synced: Hash, g: Graph, n: nat)
      requires n >= 1 && g.Valid() && (synced != Zero ==> IsTree(synced) && Sound(synced)) && Base(synced) <= g.Held()
      ensures Valid() && graph == g && history == n
      ensures previous == synced && heads == if synced == Zero then [] else [synced]
    {
      graph, history, previous := g, n, synced;
      heads := if synced == Zero then [] else [synced];
      new;
      assert [synced][0] == synced;
    }

    /** Drops what no kept state reaches, once there is one to keep. */
    method Sweep() returns (ok: bool)
      requires Valid()
      modifies graph
      ensures ok && graph.Valid() && Valid()
      ensures graph.Held() == if heads == [] then old(graph.Held()) else Union(heads)
    {
      if |heads| > 0 {
        var swept := graph.Retain(heads);
        return swept.Ok?;
      }
      return true;
    }

    /** Takes in one update: the sweep, the objects, the window. */
    method Take(m: Message, ghost base: Hash) returns (r: Result<Report>)
      requires Valid() && Bridges(base, m) && Kept(base, heads)
      modifies this, graph
      ensures Valid() && r == Ok(Report(m.hash, old(previous)))
      ensures previous == m.hash && heads == Window(old(heads), m.hash, history) != []
      ensures graph.Held() == (if old(heads) == [] then old(graph.Held()) else Union(old(heads))) + Base(m.hash)
      ensures Base(old(previous)) <= graph.Held()
    {
      var ok := Sweep();
      if !ok {
        return Err;
      }
      Taken(heads, history, base, m, graph.Held());
      Interpret(m.pack);
      r := Ok(Report(m.hash, previous));
      previous := m.hash;
      Remember(m.hash);
    }

    /** Adds a state to those kept, dropping the oldest of too many. */
    method Remember(h: Hash)
      modifies this`heads
      ensures heads == Window(old(heads), h, history)
    {
      if |heads| == 0 || heads[|heads| - 1] != h {
        heads := heads + [h];
        if |heads| > history {
          heads := heads[|heads| - history..];
        }
      }
    }

    method Interpret(pack: seq<Object>)
      requires graph.Valid()
      modifies graph
      ensures graph.Valid() && graph.Held() == old(graph.Held()) + Packed(pack)
    {
      var i := 0;
      while i < |pack|
        invariant 0 <= i <= |pack| && graph.Valid()
        invariant graph.Held() == old(graph.Held()) + Packed(pack[..i])
        decreases |pack| - i
      {
        var o := pack[i];
        match o {
          case Blob(content) => graph.OnBlob(Digest(o), content);
          case Tree(entries) => graph.OnTree(Digest(o), entries);
        }
        PackedGrows(pack, i);
        i := i + 1;
      }
      assert pack[..i] == pack;
    }

    /** Takes in updates for as long as they come. The states are what the
        graph holds as each is reported. */
    method Consume(ms: seq<Message>, ghost bases: seq<Hash>)
      returns (reports: seq<Report>, ghost states: seq<set<Hash>>)
      requires Valid() && |bases| == |ms|
      requires forall i :: 0 <= i < |ms| ==> Serving(heads, history, ms, i, bases[i])
      modifies this, graph
      ensures Valid() && heads == Windows(old(heads), ms, history)
      ensures |reports| == |states| == |ms|
      ensures AllTold(old(heads), old(previous), old(graph.Held()), history, ms, reports, states)
    {
      reports, states := [], [];
      ghost var first, begun, given := heads, previous, graph.Held();
      var i := 0;
      while i < |ms|
        invariant 0 <= i <= |ms| && |reports| == |states| == i
        invariant Valid() && heads == Windows(first, ms[..i], history)
        invariant previous == Previous(begun, ms, i)
        invariant if i == 0 then graph.Held() == given else heads != []
        invariant AllTold(first, begun, given, history, ms, reports, states)
        decreases |ms| - i
      {
        assert Serving(first, history, ms, i, bases[i]);
        WindowsSplit(first, ms, i, history);
        assert i == 0 ==> ms[..i] == [];
        var r := Take(ms[i], bases[i]);
        AllToldMore(first, begun, given, history, ms, reports, states, r.value, graph.Held());
        reports := reports + [r.value];
        states := states + [graph.Held()];
        i := i + 1;
      }
      assert ms[..i] == ms;
    }
  }

  // The i-th update is one the server took from a baseline the client kept.
  ghost predicate Serving(heads: seq<Hash>, history: nat, ms: seq<Message>, i: nat, base: Hash)
    requires i < |ms|
  {
    Bridges(base, ms[i]) && Kept(base, Windows(heads, ms[..i], history))
  }

  function Previous(first: Hash, ms: seq<Message>, i: nat): Hash
    requires i <= |ms|
  {
    if i == 0 then first else ms[i - 1].hash
  }

  /** The i-th report names the state before it, and both are there in full;
      beyond them the graph holds what the kept states reach and nothing else,
      or, before there is one, what it was given. */
  ghost predicate Told(heads: seq<Hash>, first: Hash, given: set<Hash>, history: nat,
                       ms: seq<Message>, i: nat, report: Report, state: set<Hash>)
    requires i < |ms|
  {
    var kept := Windows(heads, ms[..i], history);
    && report == Report(ms[i].hash, Previous(first, ms, i))
    && state == (if i == 0 && heads == [] then given else Union(kept)) + Base(ms[i].hash)
    && Base(report.previous) <= state
  }

  ghost predicate AllTold(heads: seq<Hash>, first: Hash, given: set<Hash>, history: nat,
                          ms: seq<Message>, reports: seq<Report>, states: seq<set<Hash>>)
    requires |reports| == |states| <= |ms|
  {
    forall i :: 0 <= i < |reports| ==> Told(heads, first, given, history, ms, i, reports[i], states[i])
  }

  lemma AllToldMore(heads: seq<Hash>, first: Hash, given: set<Hash>, history: nat,
                    ms: seq<Message>, reports: seq<Report>, states: seq<set<Hash>>, report: Report, state: set<Hash>)
    requires |reports| == |states| < |ms| && AllTold(heads, first, given, history, ms, reports, states)
    requires Told(heads, first, given, history, ms, |reports|, report, state)
    ensures AllTold(heads, first, given, history, ms, reports + [report], states + [state])
  {
  }

  // Whatever the next head, a client is brought to it in full exactly when it
  // still holds the baseline the difference was taken from.
  lemma BaselineIsEnough(floor: set<Hash>, base: Hash)
    requires base != Zero ==> IsTree(base) && Sound(base)
    ensures (forall m :: Bridges(base, m) ==> Base(m.hash) <= floor + Packed(m.pack)) <==> Base(base) <= floor
  {
    var same := Message(base, []);
    assert Packed(same.pack) == {};
    assert Bridges(base, same);
    assert floor + Packed(same.pack) == floor;
    if Base(base) <= floor {
      forall m | Bridges(base, m) ensures Base(m.hash) <= floor + Packed(m.pack) {
        Bridged(floor, base, m);
      }
    }
  }

  lemma Bridged(floor: set<Hash>, base: Hash, m: Message)
    requires Bridges(base, m) && Base(base) <= floor
    ensures floor + Packed(m.pack) == floor + Base(m.hash)
  {
  }

  // What an update leaves of a graph that held the kept states.
  lemma Taken(heads: seq<Hash>, history: nat, base: Hash, m: Message, floor: set<Hash>)
    requires history >= 1 && |heads| <= history && Sane(heads) && Union(heads) <= floor
    requires Bridges(base, m) && Kept(base, heads)
    ensures var w := Window(heads, m.hash, history);
            1 <= |w| <= history && Newest(w) == m.hash && Sane(w) && Union(w) <= floor + Base(m.hash)
    ensures floor + Packed(m.pack) == floor + Base(m.hash)
    ensures Base(Newest(heads)) <= floor
  {
    BaseKept(base, heads);
    BaseKept(Newest(heads), heads);
    WindowKeeps(heads, m.hash, history);
    WindowUnion(heads, m.hash, history);
    Bridged(floor, base, m);
  }

  lemma PackedGrows(pack: seq<Object>, i: nat)
    requires i < |pack|
    ensures Packed(pack[..i + 1]) == Packed(pack[..i]) + {Digest(pack[i])}
  {
    var a, b := pack[..i], pack[..i + 1];
    forall h ensures h in Packed(b) <==> h in Packed(a) || h == Digest(pack[i]) {
      if h in Packed(b) {
        var k :| 0 <= k < |b| && Digest(b[k]) == h;
        assert k < i ==> a[k] == b[k];
      }
      if h in Packed(a) {
        var k :| 0 <= k < |a| && Digest(a[k]) == h;
        assert b[k] == a[k];
      }
      assert b[i] == pack[i];
    }
  }

  lemma BaseKept(base: Hash, heads: seq<Hash>)
    requires Kept(base, heads)
    ensures Base(base) <= Union(heads)
  {
    if base != Zero {
      var i :| 0 <= i < |heads| && heads[i] == base;
    }
  }

  lemma WindowUnion(heads: seq<Hash>, h: Hash, history: nat)
    requires history >= 1 && |heads| <= history && Sane(heads) && Sane([h])
    ensures Union(Window(heads, h, history)) <= Union(heads) + Base(h)
    ensures Sane(Window(heads, h, history))
  {
    var w := Window(heads, h, history);
    WindowKeeps(heads, h, history);
    assert [h][0] == h;
    forall i | 0 <= i < |w| && w[i] != Zero ensures IsTree(w[i]) && Sound(w[i]) && Reach(w[i]) <= Union(heads) + Base(h) {
      assert w[i] in w;
      if w[i] != h {
        BaseKept(w[i], heads);
      }
    }
  }

  lemma {:induction false} WindowsSplit(heads: seq<Hash>, ms: seq<Message>, i: nat, history: nat)
    requires i < |ms|
    ensures Windows(heads, ms[..i + 1], history) == Window(Windows(heads, ms[..i], history), ms[i].hash, history)
    decreases |ms|
  {
    if i > 0 {
      WindowsSplit(Window(heads, ms[0].hash, history), ms[1..], i - 1, history);
      assert ms[..i + 1][1..] == ms[1..][..i];
      assert ms[..i][1..] == ms[1..][..i - 1];
    } else {
      assert ms[..1][1..] == [];
    }
  }
}
