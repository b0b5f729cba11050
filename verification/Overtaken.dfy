// Two runs: one in which a sweep overtakes an acknowledgement, and what it costs
// a client that keeps no more than its newest state; and one in which a push is
// refused.

module Overtaken {
  import opened Basics
  import opened Git
  import opened Select
  import opened Mark
  import opened Heads
  import opened Protocol
  import C = Client

  const X := Digest(Blob([]))
  const Y := Digest(Blob([1]))
  const OLD := Digest(Tree([Entry("a", Regular, X)]))
  const MID := Digest(Tree([Entry("c", Regular, Y)]))
  const NEW := Digest(Tree([Entry("a", Regular, X), Entry("c", Regular, Y)]))
  const ALL := {X, Y, OLD, MID, NEW}

  // A client resumes from OLD, is pushed MID, and interprets it; before its
  // acknowledgement is taken a sweep installs a store that holds OLD still.
  const RUN := [
    NewStore(0, ALL), NewStore(1, ALL), Publish(0, 0, Head(MID, 0)),
    Connect(0, 0, true, OLD, {OLD, X}), Check(0), Load(0), Push(0, [MID, Y]), Interpret(0),
    Sweep(1, map[]), ReadAck(0), TakeAck(0)]

  lemma Reaches()
    ensures Reach(X) == {X} && Reach(Y) == {Y}
    ensures Reach(OLD) == {OLD, X} && Reach(MID) == {MID, Y} && Reach(NEW) == {NEW, X, Y}
    ensures Closed(ALL)
  {
    forall x ensures x in Reach(OLD) <==> x in {OLD, X} {
      assert X in Reach(OLD.obj.entries[0].hash);
    }
    forall x ensures x in Reach(MID) <==> x in {MID, Y} {
      assert Y in Reach(MID.obj.entries[0].hash);
    }
    forall x ensures x in Reach(NEW) <==> x in {NEW, X, Y} {
      assert X in Reach(NEW.obj.entries[0].hash);
      assert Y in Reach(NEW.obj.entries[1].hash);
    }
  }

  lemma SelectsMid()
    ensures Complete(OLD, MID, [MID, Y])
  {
    Reaches();
    var out := [MID, Y];
    assert MID.obj.entries[0].hash == Y;
    assert Names(out[0], out[1]);
    assert NamedBefore(out, 1);
  }

  lemma SelectsNew()
    ensures Complete(OLD, NEW, [NEW, Y])
  {
    Reaches();
    var out := [NEW, Y];
    assert NEW.obj.entries[1].hash == Y;
    assert Names(out[0], out[1]);
    assert NamedBefore(out, 1);
  }

  const SERVED := RefEntry(true, true, Some(0), Pointer(Head(MID, 0), false, true))
  const SWEPT := SERVED.(store := Some(1))
  const STORES := map[0 := ALL, 1 := ALL]
  const JOINED := Sub(0, true, OLD, Joining, false, None, [], [], {OLD, X}, None)
  const WAITING := JOINED.(phase := Awaiting(0, Head(MID, 0)))
  const LEFT := JOINED.(phase := Parked(Head(MID, 0)), graph := {OLD, X, MID, Y}, seen := Some(Head(MID, 0)))

  function At(r: RefEntry, c: Sub): State {
    State(STORES, map[0 := r], map[0 := c])
  }

  // One more step of a run, ending where it should.
  lemma Steps(run: seq<Step>, i: nat, a: State, b: State)
    requires i < |run| && Run(Start, run[..i]) && Final(Start, run[..i]) == a
    requires Enabled(a, run[i]) && After(a, run[i]) == b
    ensures Run(Start, run[..i + 1]) && Final(Start, run[..i + 1]) == b
  {
    Extends(Start, run[..i], run[i]);
    assert run[..i + 1] == run[..i] + [run[i]];
  }

  const PUBLISHED := State(STORES, map[0 := SERVED], map[])

  const STOCKED := State(STORES, map[], map[])

  lemma Stocks()
    ensures Run(Start, RUN[..2]) && Final(Start, RUN[..2]) == STOCKED
  {
    Reaches();
    var one := Start.(stores := map[0 := ALL]);
    assert RUN[..0] == [];
    Steps(RUN, 0, Start, one);
    assert map[0 := ALL][1 := ALL] == STORES;
    Steps(RUN, 1, one, STOCKED);
  }

  lemma Publishes()
    ensures Run(Start, RUN[..3]) && Final(Start, RUN[..3]) == PUBLISHED
  {
    Stocks();
    Steps(RUN, 2, STOCKED, PUBLISHED);
  }

  lemma Joins()
    ensures Run(Start, RUN[..4]) && Final(Start, RUN[..4]) == At(SERVED, JOINED)
  {
    Publishes();
    Reaches();
    Steps(RUN, 3, PUBLISHED, At(SERVED, JOINED));
  }

  const READ := LEFT.(phase := Awaiting(0, Head(MID, 0)))

  // A step of the connection's own leaves everything else alone.
  lemma Serving(r: RefEntry, c: Sub, step: Step, d: Sub)
    requires Serves(step) && step.c == 0 && c.entry == 0
    requires CanServe(At(r, c), step) && Served(At(r, c), step) == d
    ensures Enabled(At(r, c), step) && After(At(r, c), step) == At(r, d)
  {
  }

  lemma Loads()
    ensures Run(Start, RUN[..6]) && Final(Start, RUN[..6]) == At(SERVED, JOINED.(phase := Loaded(0, Head(MID, 0))))
  {
    Joins();
    var serving, loaded := JOINED.(phase := Protocol.Serving), JOINED.(phase := Loaded(0, Head(MID, 0)));
    Serving(SERVED, JOINED, Check(0), serving);
    Steps(RUN, 4, At(SERVED, JOINED), At(SERVED, serving));
    Serving(SERVED, serving, Load(0), loaded);
    Steps(RUN, 5, At(SERVED, serving), At(SERVED, loaded));
  }

  const SENT := WAITING.(down := [Update(Head(MID, 0), {MID, Y})])

  lemma Sends()
    ensures var loaded := JOINED.(phase := Loaded(0, Head(MID, 0)));
            Enabled(At(SERVED, loaded), Push(0, [MID, Y])) && After(At(SERVED, loaded), Push(0, [MID, Y])) == At(SERVED, SENT)
  {
    SelectsMid();
    var loaded := JOINED.(phase := Loaded(0, Head(MID, 0)));
    assert (set h | h in [MID, Y]) == {MID, Y};
    assert Pushed(loaded, [MID, Y]) == SENT;
    Serving(SERVED, loaded, Push(0, [MID, Y]), SENT);
  }

  lemma Receives()
    ensures Enabled(At(SERVED, SENT), Interpret(0)) && After(At(SERVED, SENT), Interpret(0)) == At(SERVED, READ.(up := [MID]))
  {
    assert {OLD, X} + {MID, Y} == {OLD, X, MID, Y};
    assert SENT.down[1..] == [];
    Serving(SERVED, SENT, Interpret(0), READ.(up := [MID]));
  }

  lemma Pushes()
    ensures Run(Start, RUN[..7]) && Final(Start, RUN[..7]) == At(SERVED, SENT)
  {
    Loads();
    Sends();
    Steps(RUN, 6, At(SERVED, JOINED.(phase := Loaded(0, Head(MID, 0)))), At(SERVED, SENT));
  }

  lemma Interprets()
    ensures Run(Start, RUN[..8]) && Final(Start, RUN[..8]) == At(SERVED, READ.(up := [MID]))
  {
    Pushes();
    Receives();
    Steps(RUN, 7, At(SERVED, SENT), At(SERVED, READ.(up := [MID])));
  }

  lemma Sweeps()
    ensures Run(Start, RUN[..9]) && Final(Start, RUN[..9]) == At(SWEPT, READ.(up := [MID]))
  {
    Interprets();
    var arriving := READ.(up := [MID]);
    var t := After(At(SERVED, arriving), Sweep(1, map[]));
    assert t.refs == map[0 := SWEPT];
    assert t.subs == map[0 := arriving];
    Steps(RUN, 8, At(SERVED, arriving), At(SWEPT, arriving));
  }

  // The baseline the server is left with is not the last state its client
  // interpreted, and nothing is on its way that would mend it.
  lemma SweepOvertakesAck()
    ensures Run(Start, RUN) && Final(Start, RUN) == At(SWEPT, LEFT)
    ensures LEFT.honest && LEFT.synced == OLD && LEFT.seen == Some(Head(MID, 0)) && LEFT.phase.Parked? && Quiet(LEFT)
  {
    Sweeps();
    var arriving, arrived := READ.(up := [MID]), READ.(slot := Some(MID));
    Serving(SWEPT, arriving, ReadAck(0), arrived);
    Steps(RUN, 9, At(SWEPT, arriving), At(SWEPT, arrived));
    Serving(SWEPT, arrived, TakeAck(0), LEFT);
    Steps(RUN, 10, At(SWEPT, arrived), At(SWEPT, LEFT));
    assert RUN[..11] == RUN;
  }

  // The run goes on to push the next head as a difference from that baseline.
  // A client that accumulates has it in full; one that kept its newest state
  // alone has dropped the rest of the baseline, and is left short of an object
  // the new head names.
  lemma HistoryFallsShort()
    ensures Fits(STORES, 1, NEW) && Selectable(STORES[1], LEFT.synced, NEW) && Complete(LEFT.synced, NEW, [NEW, Y])
    ensures HasAll(LEFT.graph + {NEW, Y}, NEW)
    ensures C.Bridges(OLD, C.Message(NEW, [NEW.obj, Y.obj])) && !C.Kept(OLD, C.Window([OLD], MID, 1))
    ensures !(Base(NEW) <= Union(C.Window([OLD], MID, 1)) + C.Packed([NEW.obj, Y.obj]))
  {
    Reaches();
    SelectsNew();
    var pack := [NEW.obj, Y.obj];
    assert Digest(pack[0]) == NEW && Digest(pack[1]) == Y;
    assert C.Packed(pack) == {NEW, Y};
    var w := C.Window([OLD], MID, 1);
    assert w == [MID];
    assert Union(w) == Reach(MID) by {
      assert forall x :: x in Reach(w[0]) ==> x in Union(w);
    }
    ClosedHoldsAll(ALL, NEW);
    assert X in Base(NEW);
  }

  // ----- A push that is refused -----

  // A client registers a blob the store holds as the state it has.
  const BLOB_RUN := [
    NewStore(0, ALL), Publish(0, 0, Head(MID, 0)), Connect(0, 0, false, X, {}), Check(0), Load(0), Refuse(0)]

  const ONE := map[0 := ALL]
  const CLAIMING := Sub(0, false, X, Joining, false, None, [], [], {}, None)

  function With(c: Sub): State {
    State(ONE, map[0 := SERVED], map[0 := c])
  }

  lemma ServingOne(c: Sub, step: Step, d: Sub)
    requires Serves(step) && step.c == 0 && c.entry == 0
    requires CanServe(With(c), step) && Served(With(c), step) == d
    ensures Enabled(With(c), step) && After(With(c), step) == With(d)
  {
  }

  const ONE_REF := State(ONE, map[0 := SERVED], map[])
  const CLAIMED := CLAIMING.(phase := Loaded(0, Head(MID, 0)))

  lemma PublishesOne()
    ensures Run(Start, BLOB_RUN[..2]) && Final(Start, BLOB_RUN[..2]) == ONE_REF
  {
    Reaches();
    var stocked := State(ONE, map[], map[]);
    assert BLOB_RUN[..0] == [];
    Steps(BLOB_RUN, 0, Start, stocked);
    Steps(BLOB_RUN, 1, stocked, ONE_REF);
  }

  lemma Claims()
    ensures Run(Start, BLOB_RUN[..3]) && Final(Start, BLOB_RUN[..3]) == With(CLAIMING)
  {
    PublishesOne();
    Steps(BLOB_RUN, 2, ONE_REF, With(CLAIMING));
  }

  lemma ClaimLoaded()
    ensures Run(Start, BLOB_RUN[..5]) && Final(Start, BLOB_RUN[..5]) == With(CLAIMED)
  {
    Claims();
    var serving := CLAIMING.(phase := Protocol.Serving);
    ServingOne(CLAIMING, Check(0), serving);
    Steps(BLOB_RUN, 3, With(CLAIMING), With(serving));
    ServingOne(serving, Load(0), CLAIMED);
    Steps(BLOB_RUN, 4, With(serving), With(CLAIMED));
  }

  // Its baseline passes the check on joining, being held, and cannot be
  // compared when there is something to push: the connection ends there.
  lemma BlobRefused()
    ensures Run(Start, BLOB_RUN[..5]) && Enabled(Final(Start, BLOB_RUN[..5]), Refuse(0))
    ensures Run(Start, BLOB_RUN) && Final(Start, BLOB_RUN) == With(CLAIMING.(phase := Gone))
  {
    ClaimLoaded();
    ServingOne(CLAIMED, Refuse(0), CLAIMED.(phase := Gone));
    Steps(BLOB_RUN, 5, With(CLAIMED), With(CLAIMING.(phase := Gone)));
    assert BLOB_RUN[..6] == BLOB_RUN;
  }
}
