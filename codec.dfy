/**
 * The B3M frame codec: `Send` and `Recv` of b3m/b3m.go.
 *
 * On the wire a command is [length][cmd][option][id][data...][checksum], where length is
 * |data| + 5 truncated to a byte and the checksum is the 8-bit wrapping sum of every byte
 * before it. Receiving consumes the checksum byte without checking it.
 */
module Codec {
  import opened Types
  import opened Stream

  // command codes
  const CmdLoad: byte := 1
  const CmdSave: byte := 2
  const CmdRead: byte := 3
  const CmdWrite: byte := 4
  const CmdReset: byte := 5
  const CmdPosition: byte := 6

  // bits of the status byte a device puts in the option field of its replies
  const StatusSystemError: byte := 1
  const StatusMotorError: byte := 2
  const StatusUartError: byte := 4
  const StatusCommandError: byte := 8

  /** One frame: a request to a device or a device's reply. */
  datatype Command = Command(cmd: byte, option: byte, id: byte, data: seq<byte>)

  /** The checksum as Send computes it: `sum += b` in byte arithmetic, from the first byte on. */
  function WrapSum(s: seq<byte>): byte
  {
    if s == [] then 0 else ToByte(WrapSum(s[..|s| - 1]) + s[|s| - 1])
  }

  /** The plain (unbounded) sum of a byte sequence. */
  function Sum(s: seq<byte>): nat
  {
    if s == [] then 0 else Sum(s[..|s| - 1]) + s[|s| - 1]
  }

  lemma ModAddLeft(a: int, x: int)
    ensures (a % 256 + x) % 256 == (a + x) % 256
  {
    var q := a / 256;
    assert a == 256 * q + a % 256;
    assert a + x == 256 * q + (a % 256 + x);
  }

  /** Wrapping at every step gives the same byte as wrapping the plain sum once. */
  lemma {:induction false} WrapSumIsSumMod256(s: seq<byte>)
    ensures WrapSum(s) == Sum(s) % 256
  {
    if s != [] {
      var init := s[..|s| - 1];
      WrapSumIsSumMod256(init);
      ModAddLeft(Sum(init), s[|s| - 1]);
    }
  }

  /** The four header bytes Send writes before the payload. */
  function Header(c: Command): seq<byte>
  {
    [ToByte(|c.data| + 5), c.cmd, c.option, c.id]
  }

  /** The bytes Send writes for `c`. */
  function Frame(c: Command): (f: seq<byte>)
    ensures |f| == |c.data| + 5
    ensures f[0] == (|c.data| + 5) % 256 && f[1] == c.cmd && f[2] == c.option && f[3] == c.id
    ensures f[4..|f| - 1] == c.data
    ensures f[|f| - 1] == Sum(f[..|f| - 1]) % 256
  {
    var body := Header(c) + c.data;
    WrapSumIsSumMod256(body);
    assert (body + [WrapSum(body)])[..|body|] == body;
    body + [WrapSum(body)]
  }

  /**
   * Recv's loop: while fewer than `sz` bytes are in the 256-byte buffer, read into the
   * rest of it. Bytes a read delivers beyond `sz` stay in the buffer and are ignored.
   */
  function Fill(input: seq<ReadResult>, got: seq<byte>, sz: nat): (r: (Result<seq<byte>>, seq<ReadResult>))
    requires sz < 256 && |got| <= 256
    ensures r.0.Ok? ==> sz <= |r.0.value| <= 256
    ensures Weight(r.1) <= Weight(input)
    decreases Weight(input)
  {
    if |got| >= sz then (Ok(got), input)
    else
      var (o, rest) := ReadFrom(input, 256 - |got|);
      match o
      case Failed(e) => (Err(e), rest)
      case Got(b) => Fill(rest, got + b, sz)
  }

  /** Recv's last step: the command in a filled buffer whose first byte is `sz`. */
  function Assemble(filled: Result<seq<byte>>, sz: byte): (r: Result<Command>)
    requires filled.Ok? ==> sz <= |filled.value|
    ensures r.Ok? <==> filled.Ok? && sz >= 5
    ensures r.Ok? ==> |r.value.data| == sz - 5
    ensures filled.Err? ==> r == Err(filled.error)
    ensures filled.Ok? && sz < 5 ==> r == Err(Panic)
  {
    if filled.Err? then Err(filled.error)
    else if sz < 5 then Err(Panic)  // make([]byte, sz-5) with a negative length
    else
      var buf := filled.value;
      Ok(Command(buf[1], buf[2], buf[3], buf[4..sz - 1]))
  }

  /** What Recv returns from the read results `input`, and what of them it leaves unread. */
  function Receive(input: seq<ReadResult>): (r: (Result<Command>, seq<ReadResult>))
    ensures Weight(r.1) <= Weight(input)
    ensures input == [] ==> r.0 == Err(EndOfInput)
    ensures input != [] && input[0].Failure? ==> r.0 == Err(input[0].error)
    ensures input != [] && input[0] == Chunk([]) ==> r.0 == Err(Timeout)
    ensures r.0.Ok? ==> |r.0.value.data| <= 250
  {
    var (first, rest) := ReadFrom(input, 1);
    match first
    case Failed(e) => (Err(e), rest)
    case Got(b) =>
      if |b| == 0 then (Err(Timeout), rest)
      else
        var filled := Fill(rest, b, b[0]);
        (Assemble(filled.0, b[0]), filled.1)
  }

  method Send(port: Port, c: Command) returns (r: Result<nat>)
    modifies port
    ensures (r, port.line) == WriteTo(old(port.line), Frame(c))
  {
    var buf := new byte[|c.data| + 5];
    buf[0] := ToByte(|c.data| + 5);
    buf[1] := c.cmd;
    buf[2] := c.option;
    buf[3] := c.id;
    forall k | 0 <= k < |c.data| {
      buf[4 + k] := c.data[k];
    }
    assert buf[..buf.Length - 1] == Header(c) + c.data;
    var sum: byte := 0;
    var i := 0;
    while i < buf.Length - 1
      invariant 0 <= i <= buf.Length - 1
      invariant sum == WrapSum(buf[..i])
    {
      assert buf[..i + 1][..i] == buf[..i];
      sum := ToByte(sum + buf[i]);
      i := i + 1;
    }
    buf[buf.Length - 1] := sum;
    assert buf[..] == Frame(c);
    r := port.Write(buf[..]);
  }

  /** One turn of Recv's loop is one read into the free rest of the buffer. */
  lemma FillStep(input: seq<ReadResult>, got: seq<byte>, sz: nat)
    requires |got| < sz < 256
    ensures var (o, rest) := ReadFrom(input, 256 - |got|);
      (o.Failed? ==> Fill(input, got, sz) == (Err(o.error), rest)) &&
      (o.Got? ==> Fill(input, got, sz) == Fill(rest, got + o.bytes, sz))
  {
  }

  /** Receive after a first read that returned the length byte and perhaps more. */
  lemma ReceiveAfterFirst(input: seq<ReadResult>)
    requires ReadFrom(input, 1).0.Got? && ReadFrom(input, 1).0.bytes != []
    ensures var (o, rest) := ReadFrom(input, 1);
      |o.bytes| == 1 &&
      Receive(input) == (Assemble(Fill(rest, o.bytes, o.bytes[0]).0, o.bytes[0]), Fill(rest, o.bytes, o.bytes[0]).1)
  {
  }

  /** Recv's loop: read into the free rest of `buf` until it holds at least `sz` bytes. */
  method FillBuffer(port: Port, buf: array<byte>, sz: byte) returns (i: nat, err: Option<Error>)
    requires buf.Length == 256
    modifies port, buf
    ensures var (f, rest) := Fill(old(port.line.input), old(buf[..1]), sz);
      port.line == old(port.line).(input := rest) &&
      (f.Err? ==> err == Some(f.error)) &&
      (f.Ok? ==> err == None && i == |f.value| && buf[..i] == f.value)
  {
    i := 1;
    while i < sz
      invariant 1 <= i <= 256
      invariant port.line == old(port.line).(input := port.line.input)
      invariant Fill(port.line.input, buf[..i], sz) == Fill(old(port.line.input), old(buf[..1]), sz)
      decreases Weight(port.line.input)
    {
      ghost var before, pending := buf[..i], port.line.input;
      ghost var step := ReadFrom(pending, 256 - i);
      FillStep(pending, before, sz);
      var n;
      n, err := port.Read(buf, i, 256);
      if err.Some? {
        return;
      }
      assert buf[..i + n] == before + step.0.bytes;
      i := i + n;
    }
    err := None;
  }

  method Recv(port: Port) returns (r: Result<Command>)
    modifies port
    ensures r == Receive(old(port.line.input)).0
    ensures port.line == old(port.line).(input := Receive(old(port.line.input)).1)
  {
    ghost var input := port.line.input;
    var buf := new byte[256];
    var n, err := port.Read(buf, 0, 1);
    if err.Some? {
      return Err(err.value);
    }
    if n == 0 {
      return Err(Timeout);
    }
    var sz := buf[0];
    ReceiveAfterFirst(input);
    assert buf[..1] == ReadFrom(input, 1).0.bytes;
    var i;
    i, err := FillBuffer(port, buf, sz);
    if err.Some? {
      return Err(err.value);
    }
    r := Assemble(Ok(buf[..i]), sz);
  }

  /** The read results of bytes that arrive in the pieces `parts`. */
  function Chunks(parts: seq<seq<byte>>): (r: seq<ReadResult>)
  {
    if parts == [] then [] else [Chunk(parts[0])] + Chunks(parts[1..])
  }

  function Flatten(parts: seq<seq<byte>>): seq<byte>
  {
    if parts == [] then [] else parts[0] + Flatten(parts[1..])
  }

  predicate NoEmpty(parts: seq<seq<byte>>)
  {
    forall k :: 0 <= k < |parts| ==> parts[k] != []
  }

  /** Recv's loop collects exactly the bytes of the pieces until the frame is complete. */
  lemma {:induction false} FillDelivers(parts: seq<seq<byte>>, rest: seq<ReadResult>, got: seq<byte>, want: seq<byte>)
    requires |want| < 256
    requires got + Flatten(parts) == want
    ensures Fill(Chunks(parts) + rest, got, |want|).0 == Ok(want)
    ensures NoEmpty(parts) ==> Fill(Chunks(parts) + rest, got, |want|).1 == rest
    decreases |parts|
  {
    var input := Chunks(parts) + rest;
    if |got| < |want| {
      assert parts != [];
      assert input[0] == Chunk(parts[0]);
      assert input[1..] == Chunks(parts[1..]) + rest;
      assert (got + parts[0]) + Flatten(parts[1..]) == want;
      assert NoEmpty(parts) ==> NoEmpty(parts[1..]);
      FillDelivers(parts[1..], rest, got + parts[0], want);
    } else {
      assert got == want;
      assert NoEmpty(parts) ==> parts == [];
    }
  }

  /** Once the first read yields the length byte and the loop fills the frame, Recv decodes it. */
  lemma ReceiveFilled(input: seq<ReadResult>, want: seq<byte>)
    requires 5 <= |want| < 256 && want[0] == |want|
    requires ReadFrom(input, 1).0 == Got([want[0]])
    requires Fill(ReadFrom(input, 1).1, [want[0]], |want|).0 == Ok(want)
    ensures Receive(input).0 == Ok(Command(want[1], want[2], want[3], want[4..|want| - 1]))
  {
    assert [want[0]][0] == want[0];
  }

  /** The pieces still to be read after the first read has taken one byte. */
  function AfterFirst(parts: seq<seq<byte>>): seq<seq<byte>>
    requires parts != [] && parts[0] != []
  {
    if |parts[0]| == 1 then parts[1..] else [parts[0][1..]] + parts[1..]
  }

  /** The first read result of `Chunks(parts) + rest` is the first piece. */
  lemma ChunksCons(parts: seq<seq<byte>>, rest: seq<ReadResult>)
    requires parts != []
    ensures (Chunks(parts) + rest)[0] == Chunk(parts[0])
    ensures (Chunks(parts) + rest)[1..] == Chunks(parts[1..]) + rest
  {
    var head, tail := Chunk(parts[0]), Chunks(parts[1..]);
    assert Chunks(parts) == [head] + tail;
    var whole := Chunks(parts) + rest;
    assert whole == [head] + (tail + rest);
    assert whole[1..] == tail + rest;
  }

  /** Taking the first byte off the pieces keeps their bytes in order and keeps them non-empty. */
  lemma AfterFirstBytes(parts: seq<seq<byte>>)
    requires parts != [] && parts[0] != []
    ensures Flatten(parts) == [parts[0][0]] + Flatten(AfterFirst(parts))
    ensures NoEmpty(parts) ==> NoEmpty(AfterFirst(parts))
  {
    var p0 := parts[0];
    if |p0| > 1 {
      var parts' := [p0[1..]] + parts[1..];
      assert parts'[0] == p0[1..] && parts'[1..] == parts[1..];
      assert Flatten(parts') == p0[1..] + Flatten(parts[1..]);
      assert p0 == [p0[0]] + p0[1..];
    } else {
      assert p0 == [p0[0]];
    }
  }

  /** Recv's first read takes exactly the first byte that arrived. */
  lemma FirstRead(parts: seq<seq<byte>>, rest: seq<ReadResult>)
    requires parts != [] && parts[0] != []
    ensures ReadFrom(Chunks(parts) + rest, 1) == (Got([parts[0][0]]), Chunks(AfterFirst(parts)) + rest)
    ensures Flatten(parts) == [parts[0][0]] + Flatten(AfterFirst(parts))
    ensures NoEmpty(parts) ==> NoEmpty(AfterFirst(parts))
  {
    AfterFirstBytes(parts);
    ChunksCons(parts, rest);
    var input := Chunks(parts) + rest;
    var p0 := parts[0];
    if |p0| > 1 {
      assert p0[..1] == [p0[0]];
      var parts' := [p0[1..]] + parts[1..];
      assert parts'[0] == p0[1..] && parts'[1..] == parts[1..];
      ChunksCons(parts', rest);
      var after := Chunks(parts') + rest;
      assert after == [after[0]] + after[1..];
      assert after == [Chunk(p0[1..])] + input[1..];
    } else {
      assert p0 == [p0[0]];
    }
  }

  /**
   * A length byte below 5 whose frame has fully arrived in the first chunk makes Recv panic
   * at `make([]byte, sz-5)`.
   */
  lemma ShortLengthPanics(b: seq<byte>, rest: seq<ReadResult>)
    requires b != [] && b[0] < 5 && |b| >= b[0]
    ensures Receive([Chunk(b)] + rest).0 == Err(Panic)
  {
    var input := [Chunk(b)] + rest;
    assert input[0] == Chunk(b) && input[1..] == rest;
    if |b| > 1 {
      assert b[..1] == [b[0]];
      var after := [Chunk(b[1..])] + rest;
      assert ReadFrom(input, 1) == (Got([b[0]]), after);
      if b[0] > 1 {
        assert after[0] == Chunk(b[1..]) && after[1..] == rest;
        var (o, left) := ReadFrom(after, 255);
        assert o.Got? && |o.bytes| >= b[0] - 1;
        assert Fill(left, [b[0]] + o.bytes, b[0]).0 == Ok([b[0]] + o.bytes);
        FillStep(after, [b[0]], b[0]);
      }
    } else {
      assert ReadFrom(input, 1) == (Got(b), rest);
    }
  }

  /**
   * Whatever the last byte of a frame is, Recv returns the frame's command: the checksum is
   * consumed but never verified.
   */
  lemma {:induction false} ReceiveIgnoresChecksum(c: Command, x: byte, parts: seq<seq<byte>>, rest: seq<ReadResult>)
    requires |c.data| <= 250
    requires parts != [] && parts[0] != []
    requires Flatten(parts) == Header(c) + c.data + [x]
    ensures Receive(Chunks(parts) + rest).0 == Ok(c)
    ensures NoEmpty(parts) ==> Receive(Chunks(parts) + rest).1 == rest
  {
    var want := Header(c) + c.data + [x];
    var input := Chunks(parts) + rest;
    FirstRead(parts, rest);
    assert parts[0][0] == want[0];
    FillDelivers(AfterFirst(parts), rest, [want[0]], want);
    ReceiveFilled(input, want);
    assert want[4..|want| - 1] == c.data;
  }

  /**
   * Recv decodes what Send wrote, however the bytes are split into reads; when no read
   * comes back empty it consumes exactly that frame and leaves what follows.
   */
  lemma RoundTrip(c: Command, parts: seq<seq<byte>>, rest: seq<ReadResult>)
    requires |c.data| <= 250
    requires parts != [] && parts[0] != []
    requires Flatten(parts) == Frame(c)
    ensures Receive(Chunks(parts) + rest).0 == Ok(c)
    ensures NoEmpty(parts) ==> Receive(Chunks(parts) + rest).1 == rest
  {
    var f := Frame(c);
    assert f == Header(c) + c.data + [f[|f| - 1]];
    ReceiveIgnoresChecksum(c, f[|f| - 1], parts, rest);
  }
}
