// The two-mode stream: message lines, and packs as runs of chunks closed by an
// empty packet. A packet is its payload; only a flush is empty.

module Framing {
  import opened Basics
  import opened Lines

  const ChunkSize := 32 * 1024

  // What one packet may carry.
  const MaxPayload := 65516

  // ----- A pack as packets -----

  function Whole(pack: string): (chunks: seq<string>)
    ensures forall i :: 0 <= i < |chunks| ==> |chunks[i]| == ChunkSize
    decreases |pack|
  {
    if |pack| < ChunkSize then [] else [pack[..ChunkSize]] + Whole(pack[ChunkSize..])
  }

  function Left(pack: string): (rest: string)
    ensures |rest| < ChunkSize
    decreases |pack|
  {
    if |pack| < ChunkSize then pack else Left(pack[ChunkSize..])
  }

  function Chunks(pack: string): seq<string> {
    Whole(pack) + if Left(pack) == "" then [] else [Left(pack)]
  }

  // More bytes, up to a full chunk, only touch what is left over.
  lemma {:induction false} ChunksGrow(pack: string, more: string)
    requires |Left(pack)| + |more| <= ChunkSize
    ensures |Left(pack)| + |more| < ChunkSize ==> Whole(pack + more) == Whole(pack) && Left(pack + more) == Left(pack) + more
    ensures |Left(pack)| + |more| == ChunkSize ==> Whole(pack + more) == Whole(pack) + [Left(pack) + more] && Left(pack + more) == ""
    decreases |pack|
  {
    var all := pack + more;
    if |pack| >= ChunkSize {
      assert all[..ChunkSize] == pack[..ChunkSize];
      assert all[ChunkSize..] == pack[ChunkSize..] + more;
      ChunksGrow(pack[ChunkSize..], more);
    } else if |all| == ChunkSize {
      assert all[..ChunkSize] == all && all[ChunkSize..] == "";
    }
  }

  // The bytes up to the flush that ends a pack.
  function PackOf(packets: seq<string>): string {
    if packets == [] || packets[0] == "" then "" else packets[0] + PackOf(packets[1..])
  }

  function AfterPack(packets: seq<string>): seq<string> {
    if packets == [] then [] else if packets[0] == "" then packets[1..] else AfterPack(packets[1..])
  }

  predicate Ended(packets: seq<string>) {
    packets != [] && (packets[0] == "" || Ended(packets[1..]))
  }

  // A pack is read back from its packets, and what follows it is left alone.
  lemma {:induction false} PackReadsBack(pack: string, rest: seq<string>)
    ensures var packets := Chunks(pack) + [""] + rest;
            PackOf(packets) == pack && AfterPack(packets) == rest && Ended(packets)
    decreases |pack|
  {
    var packets := Chunks(pack) + [""] + rest;
    if |pack| >= ChunkSize {
      var more := Chunks(pack[ChunkSize..]) + [""] + rest;
      assert packets == [pack[..ChunkSize]] + more;
      assert packets[1..] == more;
      PackReadsBack(pack[ChunkSize..], rest);
      assert pack == pack[..ChunkSize] + pack[ChunkSize..];
    } else if pack != "" {
      assert packets == [pack] + ([""] + rest);
      assert packets[1..] == [""] + rest;
    } else {
      assert packets == [""] + rest;
    }
  }

  // ----- What it costs -----

  // Four bytes of length before each payload.
  function Cost(packets: seq<string>): nat {
    if packets == [] then 0 else 4 + |packets[0]| + Cost(packets[1..])
  }

  // A pack of n bytes costs those, a header for each chunk, and the flush.
  lemma {:induction false} PackCost(pack: string)
    ensures Cost(Chunks(pack) + [""]) == |pack| + 4 * ((|pack| + 32767) / 32768) + 4
    ensures forall i :: 0 <= i < |Chunks(pack)| ==> 0 < |Chunks(pack)[i]| <= 32768 <= MaxPayload
    decreases |pack|
  {
    var packets := Chunks(pack) + [""];
    if |pack| >= ChunkSize {
      var more := pack[ChunkSize..];
      assert Chunks(pack) == [pack[..ChunkSize]] + Chunks(more);
      assert packets[1..] == Chunks(more) + [""];
      PackCost(more);
      assert |packets[0]| == ChunkSize && Cost(packets) == 4 + ChunkSize + Cost(packets[1..]);
    } else if pack != "" {
      assert packets == [pack, ""];
      assert packets[1..] == [""] && packets[1..][1..] == [];
      assert Cost(packets) == 4 + |pack| + Cost(packets[1..]) && Cost(packets[1..]) == 4;
    } else {
      assert packets == [""] && packets[1..] == [];
    }
  }

  // ----- A connection -----

  datatype Received<+T> = Got(message: T) | Malformed | End

  function Unline(payload: string): string {
    if payload != "" && payload[|payload| - 1] == '\n' then payload[..|payload| - 1] else payload
  }

  function NextServer(payload: string): Received<ServerMessage> {
    if Unline(payload) == "" then Malformed
    else
      match ReadServer(Unline(payload))
      case None => Malformed
      case Some(m) => Got(m)
  }

  /** One end of a connection: the packets sent, and those yet to be read. */
  class Conn {
    var sent: seq<string>
    var incoming: seq<string>

    constructor (packets: seq<string>)
      ensures sent == [] && incoming == packets
    {
      sent, incoming := [], packets;
    }

    method WriteLine(line: string)
      modifies this`sent
      ensures sent == old(sent) + [line + "\n"]
    {
      sent := sent + [line + "\n"];
    }

    method ReadServerMessage() returns (r: Received<ServerMessage>)
      modifies this`incoming
      ensures old(incoming) == [] ==> r == End && incoming == []
      ensures old(incoming) != [] ==> r == NextServer(old(incoming)[0]) && incoming == old(incoming)[1..]
    {
      if incoming == [] {
        return End;
      }
      var payload := incoming[0];
      incoming := incoming[1..];
      var line := payload;
      if |line| > 0 && line[|line| - 1] == '\n' {
        line := line[..|line| - 1];
      }
      if line == "" {
        return Malformed;
      }
      var m := ReadServer(line);
      r := if m.None? then Malformed else Got(m.value);
    }
  }

  /** Frames pack bytes as they are produced. */
  class PackWriter {
    const conn: Conn
    var buf: string
    ghost var before: seq<string>
    ghost var pack: string

    ghost predicate Valid()
      reads this, conn
    {
      buf == Left(pack) && conn.sent == before + Whole(pack)
    }

    constructor (c: Conn)
      ensures Valid() && conn == c && before == c.sent && pack == ""
    {
      conn, buf, before, pack := c, "", c.sent, "";
    }

    /** Takes bytes in, however many, sending a packet whenever one is full. */
    method Write(p: string)
      requires Valid()
      modifies this`buf, this`pack, conn`sent
      ensures Valid() && pack == old(pack) + p && before == old(before)
    {
      var left := p;
      while |left| > 0
        invariant Valid() && pack + left == old(pack) + p
        decreases |left|
      {
        var n := if ChunkSize - |buf| < |left| then ChunkSize - |buf| else |left|;
        ChunksGrow(pack, left[..n]);
        assert left == left[..n] + left[n..];
        assert (pack + left[..n]) + left[n..] == pack + left;
        pack := pack + left[..n];
        buf := buf + left[..n];
        left := left[n..];
        if |buf| < ChunkSize {
          assert left == "";
          break;
        }
        conn.sent := conn.sent + [buf];
        buf := "";
      }
    }

    /** Sends what is buffered, and the flush that ends the update. */
    method Close()
      requires Valid()
      modifies this`buf, conn`sent
      ensures conn.sent == before + Chunks(pack) + [""]
    {
      if |buf| > 0 {
        conn.sent := conn.sent + [buf];
        buf := "";
      }
      conn.sent := conn.sent + [""];
    }
  }

  lemma Regroup(a: string, b: string, c: string)
    ensures (a + b) + c == a + (b + c)
  {
  }

  datatype Piece = Data(bytes: string) | Eof | Cut

  /** Reads one pack, up to and past the flush that ends it. */
  class PackReader {
    const conn: Conn
    var buf: string
    var off: nat
    var done: bool

    predicate Valid()
      reads this
    {
      off <= |buf| && (done ==> off == |buf|)
    }

    // The bytes of the pack yet to be read.
    function Remaining(): string
      requires Valid()
      reads this, conn
    {
      buf[off..] + if done then "" else PackOf(conn.incoming)
    }

    // What the connection will be left at.
    function Following(): seq<string>
      reads this, conn
    {
      if done then conn.incoming else AfterPack(conn.incoming)
    }

    predicate Closes()
      reads this, conn
    {
      done || Ended(conn.incoming)
    }

    constructor (c: Conn)
      ensures Valid() && conn == c && !done && Remaining() == PackOf(c.incoming)
    {
      conn, buf, off, done := c, "", 0, false;
    }

    /** Hands out at most n bytes. */
    method Read(n: nat) returns (r: Piece)
      requires Valid()
      modifies this, conn`incoming
      ensures Valid() && Following() == old(Following()) && |conn.incoming| <= old(|conn.incoming|)
      ensures r.Data? ==> r.bytes + Remaining() == old(Remaining()) && |r.bytes| <= n && (n > 0 ==> r.bytes != "")
      ensures r.Data? ==> Closes() == old(Closes())
      ensures r.Eof? ==> old(Remaining()) == "" && old(Closes()) && done
      ensures r.Cut? ==> old(Remaining()) == "" && !old(Closes()) && conn.incoming == []
    {
      while off >= |buf|
        invariant Valid() && Following() == old(Following()) && |conn.incoming| <= old(|conn.incoming|)
        invariant Remaining() == old(Remaining()) && Closes() == old(Closes())
        decreases |conn.incoming|, if off >= |buf| then 1 else 0
      {
        if done {
          return Eof;
        }
        if conn.incoming == [] {
          return Cut;
        }
        var payload := conn.incoming[0];
        conn.incoming := conn.incoming[1..];
        if payload == "" {
          done := true;
          return Eof;
        }
        buf, off := payload, 0;
      }
      var size := if |buf| - off < n then |buf| - off else n;
      r := Data(buf[off..off + size]);
      assert buf[off..] == buf[off..off + size] + buf[off + size..];
      off := off + size;
    }

    /** Reads the pack to its end, through buffers of any sizes. */
    method Drain(sizes: nat -> nat) returns (ok: bool, pack: string)
      requires Valid() && forall i: nat :: sizes(i) > 0
      modifies this, conn`incoming
      ensures Valid() && ok == old(Closes()) && pack == old(Remaining())
      ensures ok ==> conn.incoming == old(Following())
      ensures |conn.incoming| <= old(|conn.incoming|)
    {
      pack := "";
      ghost var all, after, ends := Remaining(), Following(), Closes();
      var i := 0;
      while true
        invariant Valid() && Following() == after && Closes() == ends && |conn.incoming| <= old(|conn.incoming|)
        invariant pack + Remaining() == all
        decreases |Remaining()|
      {
        var r := Read(sizes(i));
        match r
        case Eof => return true, pack;
        case Cut => return false, pack;
        case Data(bytes) =>
          Regroup(pack, bytes, Remaining());
          pack := pack + bytes;
          i := i + 1;
      }
    }
  }
}
