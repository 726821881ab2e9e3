/**
 * The Servo handle of b3m/b3m.go: a device id, a reply timeout and the status byte of
 * the most recent reply, bound to the port it talks through, with typed register accessors.
 */
module Servos {
  import opened Types
  import opened Stream
  import opened Codec
  import opened Requests
  import opened Registers

  const DefaultTimeout := 100

  function LoadRequest(id: byte): Command
  {
    Command(CmdLoad, 0, id, [])
  }

  function SaveRequest(id: byte): Command
  {
    Command(CmdSave, 0, id, [])
  }

  function ResetRequest(id: byte, timeAfter: byte): Command
  {
    Command(CmdReset, 0, id, [timeAfter])
  }

  /** A move to `pos` taking `time`: both int16s low byte first. */
  function PositionRequest(id: byte, pos: int16, time: int16): Command
  {
    Command(CmdPosition, 0, id, Int16Bytes(pos) + Int16Bytes(time))
  }

  /** The status a handle holds after an exchange: the reply's option byte, or the old status on error. */
  function StatusAfter(status: byte, reply: Result<Command>): byte
  {
    if reply.Ok? then reply.value.option else status
  }

  /**
   * Load, Save and SetPosition2: send the request, then, unless it is a broadcast, wait
   * for the reply and keep only its error.
   */
  function SendAndAwait(l: Line, req: Command): (Option<Error>, Line)
  {
    var (w, l1) := WriteTo(l, Frame(req));
    if w.Err? then (Some(w.error), l1)
    else if req.id != Broadcast then (Await(l1).0.ErrorOrNone(), Await(l1).1)
    else (None, l1)
  }

  class Servo {
    const io: Port
    var Id: byte
    var TimeoutMs: int
    var Status: byte

    constructor (io: Port, id: byte)
      ensures this.io == io && Id == id && TimeoutMs == DefaultTimeout && Status == 0
    {
      this.io := io;
      Id := id;
      TimeoutMs := DefaultTimeout;
      Status := 0;
    }

    method ReadMem(addr: int, size: int) returns (data: seq<byte>, err: Option<Error>)
      modifies this`Status, io
      ensures var (reply, l) := ReadMemSpec(old(io.line), Id, addr, size);
        io.line == l && Status == StatusAfter(old(Status), reply) &&
        data == (if reply.Ok? then reply.value.data else []) && err == reply.ErrorOrNone()
    {
      var res := Requests.ReadMem(io, Id, addr, size, TimeoutMs);
      if res.Err? {
        return [], Some(res.error);
      }
      Status := res.value.option;
      return res.value.data, None;
    }

    method WriteMem(addr: int, data: seq<byte>) returns (err: Option<Error>)
      modifies this`Status, io
      ensures var (reply, l) := WriteMemSpec(old(io.line), Id, addr, data);
        io.line == l && Status == StatusAfter(old(Status), reply) && err == reply.ErrorOrNone()
    {
      var res := Requests.WriteMem(io, Id, addr, data, TimeoutMs);
      if res.Err? {
        return Some(res.error);
      }
      Status := res.value.option;
      return None;
    }

    /** A reply shorter than the 12-byte block makes the Go code index out of range: Panic here. */
    method GetVersion() returns (model: string, version: string, err: Option<Error>)
      modifies this`Status, io
      ensures var (reply, l) := ReadMemSpec(old(io.line), Id, AddrVersion, VersionSize);
        io.line == l && Status == StatusAfter(old(Status), reply) &&
        (reply.Err? ==> model == "" && version == "" && err == Some(reply.error)) &&
        (reply.Ok? && |reply.value.data| < 12 ==> model == "" && version == "" && err == Some(Panic)) &&
        (reply.Ok? && |reply.value.data| >= 12 ==>
           model == FormatModel(reply.value.data) && version == FormatVersion(reply.value.data) && err == None)
    {
      var buf, e := ReadMem(AddrVersion, VersionSize);
      if e.Some? {
        return "", "", e;
      }
      if |buf| < 12 {
        return "", "", Some(Panic);
      }
      model := FormatModel(buf);
      version := FormatVersion(buf);
      err := None;
    }

    method GetMode() returns (mode: byte, err: Option<Error>)
      modifies this`Status, io
      ensures var (reply, l) := ReadMemSpec(old(io.line), Id, AddrMode, 1);
        io.line == l && Status == StatusAfter(old(Status), reply) &&
        (reply.Err? ==> mode == 0 && err == Some(reply.error)) &&
        (reply.Ok? && reply.value.data == [] ==> mode == 0 && err == Some(Panic)) &&
        (reply.Ok? && reply.value.data != [] ==> mode == reply.value.data[0] && err == None)
    {
      var buf, e := ReadMem(AddrMode, 1);
      if e.Some? {
        return 0, e;
      }
      if |buf| < 1 {
        return 0, Some(Panic);
      }
      return buf[0], None;
    }

    method SetMode(mode: byte) returns (err: Option<Error>)
      modifies this`Status, io
      ensures var (reply, l) := WriteMemSpec(old(io.line), Id, AddrMode, [mode]);
        io.line == l && Status == StatusAfter(old(Status), reply) && err == reply.ErrorOrNone()
    {
      err := WriteMem(AddrMode, [mode]);
    }

    /** Sent and never answered, whatever the id: the device is resetting. */
    method Reset(timeAfter: byte) returns (err: Option<Error>)
      modifies io
      ensures var (w, l) := WriteTo(old(io.line), Frame(ResetRequest(Id, timeAfter)));
        io.line == l && err == w.ErrorOrNone()
      ensures io.line.input == old(io.line.input) && io.line.expiry == old(io.line.expiry)
    {
      var w := Send(io, Command(CmdReset, 0, Id, [timeAfter]));
      err := w.ErrorOrNone();
    }

    method Load() returns (err: Option<Error>)
      modifies io
      ensures (err, io.line) == SendAndAwait(old(io.line), LoadRequest(Id))
    {
      var w := Send(io, Command(CmdLoad, 0, Id, []));
      if w.Err? {
        return Some(w.error);
      }
      err := None;
      if Id != Broadcast {
        var reply := Recv2(io, TimeoutMs);
        err := reply.ErrorOrNone();
      }
    }

    method Save() returns (err: Option<Error>)
      modifies io
      ensures (err, io.line) == SendAndAwait(old(io.line), SaveRequest(Id))
    {
      var w := Send(io, Command(CmdSave, 0, Id, []));
      if w.Err? {
        return Some(w.error);
      }
      err := None;
      if Id != Broadcast {
        var reply := Recv2(io, TimeoutMs);
        err := reply.ErrorOrNone();
      }
    }

    method SetTrajectoryMode(trajectory: byte) returns (err: Option<Error>)
      modifies this`Status, io
      ensures var (reply, l) := WriteMemSpec(old(io.line), Id, AddrTrajectory, [trajectory]);
        io.line == l && Status == StatusAfter(old(Status), reply) && err == reply.ErrorOrNone()
    {
      err := WriteMem(AddrTrajectory, [trajectory]);
    }

    method SetPosition(pos: int16) returns (err: Option<Error>)
      modifies this`Status, io
      ensures var (reply, l) := WriteMemSpec(old(io.line), Id, AddrTargetPosition, [LowByte(pos), HighByte(pos)]);
        io.line == l && Status == StatusAfter(old(Status), reply) && err == reply.ErrorOrNone()
    {
      err := WriteMem(AddrTargetPosition, [ToByte(pos), ToByte(pos / 256)]);
    }

    /** A reply shorter than two bytes makes the Go code index out of range: Panic here. */
    method GetCurrentPosition() returns (pos: int16, err: Option<Error>)
      modifies this`Status, io
      ensures var (reply, l) := ReadMemSpec(old(io.line), Id, AddrCurrentPosition, 2);
        io.line == l && Status == StatusAfter(old(Status), reply) &&
        (reply.Err? ==> pos == 0 && err == Some(reply.error)) &&
        (reply.Ok? && |reply.value.data| < 2 ==> pos == 0 && err == Some(Panic)) &&
        (reply.Ok? && |reply.value.data| >= 2 ==>
           pos == Int16From(reply.value.data[0], reply.value.data[1]) && err == None)
    {
      var res, e := ReadMem(AddrCurrentPosition, 2);
      if e.Some? {
        return 0, e;
      }
      if |res| < 2 {
        return 0, Some(Panic);
      }
      return Or16(res[0], Shl8(res[1])), None;
    }

    method SetVelocity(v: int16) returns (err: Option<Error>)
      modifies this`Status, io
      ensures var (reply, l) := WriteMemSpec(old(io.line), Id, AddrVelocity, [LowByte(v), HighByte(v)]);
        io.line == l && Status == StatusAfter(old(Status), reply) && err == reply.ErrorOrNone()
    {
      err := WriteMem(AddrVelocity, [ToByte(v), ToByte(v / 256)]);
    }

    method SetTorque(torque: int16) returns (err: Option<Error>)
      modifies this`Status, io
      ensures var (reply, l) := WriteMemSpec(old(io.line), Id, AddrTorque, [LowByte(torque), HighByte(torque)]);
        io.line == l && Status == StatusAfter(old(Status), reply) && err == reply.ErrorOrNone()
    {
      err := WriteMem(AddrTorque, [ToByte(torque), ToByte(torque / 256)]);
    }

    method SetPosition2(pos: int16, time: int16) returns (err: Option<Error>)
      modifies io
      ensures (err, io.line) == SendAndAwait(old(io.line), PositionRequest(Id, pos, time))
    {
      var data := [ToByte(pos), ToByte(pos / 256), ToByte(time), ToByte(time / 256)];
      assert data == Int16Bytes(pos) + Int16Bytes(time);
      var w := Send(io, Command(CmdPosition, 0, Id, data));
      if w.Err? {
        return Some(w.error);
      }
      err := None;
      if Id != Broadcast {
        var reply := Recv2(io, TimeoutMs);
        err := reply.ErrorOrNone();
      }
    }
  }

  method GetServo(io: Port, id: byte) returns (s: Servo)
    ensures fresh(s) && s.io == io && s.Id == id && s.TimeoutMs == DefaultTimeout && s.Status == 0
  {
    s := new Servo(io, id);
  }

  /** Reset(0) on a handle for device 0 writes exactly the frame [6, 5, 0, 0, 0, 11]. */
  method ResetWritesFixture() returns (written: seq<byte>)
    ensures written == [6, 5, 0, 0, 0, 11]
  {
    var port := new Port(Line([], None, [], []));
    var servo := GetServo(port, 0);
    var err := servo.Reset(0);
    ResetFrameFixture();
    written := port.line.output;
  }

  /** The checksum of the reset fixture: 6 + 5 + 0 + 0 + 0 = 11. */
  lemma ResetFrameFixture()
    ensures Frame(ResetRequest(0, 0)) == [6, 5, 0, 0, 0, 11]
  {
    var body: seq<byte> := [6, 5, 0, 0, 0];
    assert Frame(ResetRequest(0, 0))[..5] == body;
    var s1: seq<byte>, s2: seq<byte>, s3: seq<byte>, s4: seq<byte> := [6], [6, 5], [6, 5, 0], [6, 5, 0, 0];
    assert s1[..0] == [] && Sum(s1) == 6;
    assert s2[..1] == s1 && Sum(s2) == 11;
    assert s3[..2] == s2 && Sum(s3) == 11;
    assert s4[..3] == s3 && Sum(s4) == 11;
    assert body[..4] == s4 && Sum(body) == 11;
  }

  /** Load and Save carry no payload: their frames are five bytes. */
  lemma EmptyRequestFrames(id: byte)
    ensures Frame(LoadRequest(id)) == [5, CmdLoad, 0, id, (6 + id) % 256]
    ensures Frame(SaveRequest(id)) == [5, CmdSave, 0, id, (7 + id) % 256]
  {
    HeaderSum(5, CmdLoad, id);
    HeaderSum(5, CmdSave, id);
    assert Frame(LoadRequest(id))[..4] == [5, CmdLoad, 0, id];
    assert Frame(SaveRequest(id))[..4] == [5, CmdSave, 0, id];
  }

  lemma HeaderSum(len: byte, cmd: byte, id: byte)
    ensures Sum([len, cmd, 0, id]) == len + cmd + id
  {
    var s1: seq<byte>, s2: seq<byte>, s3: seq<byte>, s4: seq<byte> := [len], [len, cmd], [len, cmd, 0], [len, cmd, 0, id];
    assert s1[..0] == [] && Sum(s1) == len;
    assert s2[..1] == s1 && Sum(s2) == len + cmd;
    assert s3[..2] == s2 && Sum(s3) == len + cmd;
    assert s4[..3] == s3 && Sum(s4) == len + cmd + id;
  }

  /** SetPosition2's payload is [posLo, posHi, timeLo, timeHi]. */
  lemma PositionFrame(id: byte, pos: int16, time: int16)
    ensures var f := Frame(PositionRequest(id, pos, time));
      |f| == 9 && f[1] == CmdPosition && f[3] == id &&
      f[4..8] == [LowByte(pos), HighByte(pos), LowByte(time), HighByte(time)]
  {
  }

  /** A broadcast Load, Save or SetPosition2 writes its request and reads nothing. */
  lemma BroadcastSkipsReply(l: Line, req: Command)
    requires req.id == Broadcast
    ensures var (w, l1) := WriteTo(l, Frame(req));
      SendAndAwait(l, req) == (w.ErrorOrNone(), l1) && l1.input == l.input && l1.expiry == l.expiry
  {
  }

  /** Addressed to one device, a written request is followed by exactly one reply wait. */
  lemma UnicastAwaitsReply(l: Line, req: Command)
    requires req.id != Broadcast && l.writeFault.None?
    ensures var l1 := l.(output := l.output + Frame(req));
      SendAndAwait(l, req) == (Await(l1).0.ErrorOrNone(), Await(l1).1)
  {
  }
}
