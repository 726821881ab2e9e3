/**
 * The request layer of b3m/b3m.go: Recv2 (the reply wait) and the free functions
 * ReadMem and WriteMem, which send one request and, unless it is a broadcast write,
 * wait for the device's reply.
 */
module Requests {
  import opened Types
  import opened Stream
  import opened Codec

  /** The id every device obeys and none answers. */
  const Broadcast: byte := 255

  /** A read of `size` bytes at `addr`; both are truncated to a byte. */
  function ReadRequest(id: byte, addr: int, size: int): Command
  {
    Command(CmdRead, 0, id, [ToByte(addr), ToByte(size)])
  }

  /** A write of `data` at `addr`: the payload is the data, then the address, then a count of 1. */
  function WriteRequest(id: byte, addr: int, data: seq<byte>): Command
  {
    Command(CmdWrite, 0, id, data + [ToByte(addr), 1])
  }

  /**
   * What Recv2 yields: Timeout when the timer wins the race, otherwise what Recv decodes.
   * Waiting never writes.
   */
  function Await(l: Line): (r: (Result<Command>, Line))
    ensures r.1.output == l.output && r.1.writeFault == l.writeFault
    ensures l.expiry != [] && l.expiry[0] ==> r == (Err(Timeout), l.(expiry := l.expiry[1..]))
  {
    var (fired, l1) := TimerCheck(l);
    if fired then (Err(Timeout), l1)
    else
      var (reply, rest) := Receive(l1.input);
      (reply, l1.(input := rest))
  }

  /** What the free function ReadMem returns, and the link afterwards. */
  function ReadMemSpec(l: Line, id: byte, addr: int, size: int): (Result<Command>, Line)
  {
    var (w, l1) := WriteTo(l, Frame(ReadRequest(id, addr, size)));
    if w.Err? then (Err(w.error), l1) else Await(l1)
  }

  /** What the free function WriteMem returns, and the link afterwards. */
  function WriteMemSpec(l: Line, id: byte, addr: int, data: seq<byte>): (Result<Command>, Line)
  {
    var req := WriteRequest(id, addr, data);
    var (w, l1) := WriteTo(l, Frame(req));
    if w.Err? then (Err(w.error), l1)
    else if id == Broadcast then (Ok(req), l1)
    else Await(l1)
  }

  /** Wait at most `timeout` milliseconds for the next frame; the race itself is the link's. */
  method Recv2(port: Port, timeout: int) returns (r: Result<Command>)
    modifies port
    ensures (r, port.line) == Await(old(port.line))
  {
    var fired := port.TimerFires();
    if fired {
      return Err(Timeout);
    }
    r := Recv(port);
  }

  method ReadMem(port: Port, id: byte, addr: int, size: int, timeout: int) returns (r: Result<Command>)
    modifies port
    ensures (r, port.line) == ReadMemSpec(old(port.line), id, addr, size)
  {
    var cmd := Command(CmdRead, 0, id, [ToByte(addr), ToByte(size)]);
    var w := Send(port, cmd);
    if w.Err? {
      return Err(w.error);
    }
    r := Recv2(port, timeout);
  }

  method WriteMem(port: Port, id: byte, addr: int, data: seq<byte>, timeout: int) returns (r: Result<Command>)
    modifies port
    ensures (r, port.line) == WriteMemSpec(old(port.line), id, addr, data)
  {
    var buf := new byte[|data| + 2];
    forall k | 0 <= k < |data| {
      buf[k] := data[k];
    }
    buf[buf.Length - 2] := ToByte(addr);
    buf[buf.Length - 1] := 1;
    var cmd := Command(CmdWrite, 0, id, buf[..]);
    assert cmd == WriteRequest(id, addr, data);
    var w := Send(port, cmd);
    if w.Err? {
      return Err(w.error);
    }
    if id == Broadcast {
      return Ok(cmd);
    }
    r := Recv2(port, timeout);
  }

  /** A read request goes out as the 7 bytes [7, 3, 0, id, addr, size, checksum]. */
  lemma ReadRequestFrame(id: byte, addr: int, size: int)
    ensures var a, s := ToByte(addr), ToByte(size);
      Frame(ReadRequest(id, addr, size)) == [7, CmdRead, 0, id, a, s, (10 + id + a + s) % 256]
  {
    var a, s := ToByte(addr), ToByte(size);
    var f := Frame(ReadRequest(id, addr, size));
    var body: seq<byte> := [7, CmdRead, 0, id, a, s];
    assert f[..6] == body;
    var s1: seq<byte>, s2: seq<byte>, s3: seq<byte> := [7], [7, CmdRead], [7, CmdRead, 0];
    var s4: seq<byte>, s5: seq<byte> := [7, CmdRead, 0, id], [7, CmdRead, 0, id, a];
    assert s1[..0] == [] && Sum(s1) == 7;
    assert s2[..1] == s1 && Sum(s2) == 10;
    assert s3[..2] == s2 && Sum(s3) == 10;
    assert s4[..3] == s3 && Sum(s4) == 10 + id;
    assert s5[..4] == s4 && Sum(s5) == 10 + id + a;
    assert body[..5] == s5 && Sum(body) == 10 + id + a + s;
  }

  /** A write request's payload is the data unchanged, then the address byte, then 1. */
  lemma WriteRequestFrame(id: byte, addr: int, data: seq<byte>)
    ensures var f := Frame(WriteRequest(id, addr, data));
      |f| == |data| + 7 && f[1] == CmdWrite && f[2] == 0 && f[3] == id &&
      f[4..4 + |data|] == data && f[4 + |data|] == ToByte(addr) && f[5 + |data|] == 1
  {
    var f := Frame(WriteRequest(id, addr, data));
    assert f[4..|f| - 1] == data + [ToByte(addr), 1];
  }

  /** A failed write ends ReadMem and WriteMem at once: its error comes back and nothing is read. */
  lemma WriteFaultEndsRequest(l: Line, id: byte, addr: int, size: int, data: seq<byte>)
    requires l.writeFault.Some?
    ensures ReadMemSpec(l, id, addr, size) == (Err(l.writeFault.value), l)
    ensures WriteMemSpec(l, id, addr, data) == (Err(l.writeFault.value), l)
  {
  }

  /** A broadcast write returns its own request, option 0, without waiting for any reply. */
  lemma BroadcastWriteEchoesRequest(l: Line, addr: int, data: seq<byte>)
    requires l.writeFault.None?
    ensures var req := WriteRequest(Broadcast, addr, data);
      WriteMemSpec(l, Broadcast, addr, data) == (Ok(req), l.(output := l.output + Frame(req))) &&
      req.option == 0
  {
  }

  /** A write to one device waits for that device's reply, exactly as a read does. */
  lemma UnicastWriteAwaits(l: Line, id: byte, addr: int, data: seq<byte>)
    requires l.writeFault.None? && id != Broadcast
    ensures WriteMemSpec(l, id, addr, data) ==
      Await(l.(output := l.output + Frame(WriteRequest(id, addr, data))))
  {
  }

  /**
   * When the device's reply arrives in time, in any pieces, ReadMem returns exactly that
   * reply and writes exactly the read request.
   */
  lemma ReadMemReturnsReply(l: Line, id: byte, addr: int, size: int, reply: Command,
                            parts: seq<seq<byte>>, rest: seq<ReadResult>)
    requires l.writeFault.None? && (l.expiry == [] || !l.expiry[0])
    requires |reply.data| <= 250 && parts != [] && parts[0] != []
    requires Flatten(parts) == Frame(reply) && l.input == Chunks(parts) + rest
    ensures ReadMemSpec(l, id, addr, size).0 == Ok(reply)
    ensures ReadMemSpec(l, id, addr, size).1.output == l.output + Frame(ReadRequest(id, addr, size))
  {
    RoundTrip(reply, parts, rest);
  }
}
