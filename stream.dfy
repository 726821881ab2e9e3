/**
 * The serial link the driver talks through (Go's io.ReadWriter), as the driver sees it:
 * the bytes written so far, whether writes fail, the read results still to come and,
 * for each reply wait in turn, whether its timer fires before the reply is decoded.
 */
module Stream {
  import opened Types

  /** What one call of Read on the link can find: bytes that have arrived, or an error. */
  datatype ReadResult = Chunk(bytes: seq<byte>) | Failure(error: Error)

  /** What one call of Read hands over. */
  datatype ReadOutcome = Got(bytes: seq<byte>) | Failed(error: Error)

  datatype Line = Line(
    output: seq<byte>,           // every byte written so far
    writeFault: Option<Error>,   // Some(e): every write fails with e and writes nothing
    input: seq<ReadResult>,      // what the reads will find, in order
    expiry: seq<bool>)           // one entry per reply wait: true when the timer wins the race

  /** A measure of what is left to read; every read with room for a byte reduces it. */
  function Weight(input: seq<ReadResult>): nat
  {
    if input == [] then 0
    else (match input[0] case Chunk(b) => |b| + 1 case Failure(_) => 1) + Weight(input[1..])
  }

  /**
   * One io.Reader.Read into a buffer of `room` bytes: it hands over at most `room` bytes of
   * the first chunk and keeps the remainder for the next read; an exhausted link gives io.EOF.
   */
  function ReadFrom(input: seq<ReadResult>, room: nat): (r: (ReadOutcome, seq<ReadResult>))
    ensures r.0.Got? ==> |r.0.bytes| <= room
    ensures input == [] ==> r.0 == Failed(EndOfInput)
    ensures input != [] && room > 0 ==> Weight(r.1) < Weight(input)
  {
    if input == [] then (Failed(EndOfInput), [])
    else match input[0]
      case Failure(e) => (Failed(e), input[1..])
      case Chunk(b) =>
        if |b| <= room then (Got(b), input[1..])
        else
          var rest := [Chunk(b[room..])] + input[1..];
          assert rest[0] == Chunk(b[room..]) && rest[1..] == input[1..];
          (Got(b[..room]), rest)
  }

  /** One io.Writer.Write of `buf`: all of it is appended, or nothing is and the fault is reported. */
  function WriteTo(l: Line, buf: seq<byte>): (Result<nat>, Line)
  {
    match l.writeFault
    case Some(e) => (Err(e), l)
    case None => (Ok(|buf|), l.(output := l.output + buf))
  }

  /** Whether the timer of the next reply wait fires first; no entry left means the reply wins. */
  function TimerCheck(l: Line): (bool, Line)
  {
    if l.expiry == [] then (false, l) else (l.expiry[0], l.(expiry := l.expiry[1..]))
  }

  /** The stream object a Servo keeps and several Servo handles may share. */
  class Port {
    var line: Line

    constructor (l: Line)
      ensures line == l
    {
      line := l;
    }

    method Write(buf: seq<byte>) returns (r: Result<nat>)
      modifies this
      ensures (r, line) == WriteTo(old(line), buf)
    {
      r, line := WriteTo(line, buf).0, WriteTo(line, buf).1;
    }

    /** Read into p[lo..hi]; `n` bytes land at p[lo..lo+n] and the rest of p is untouched. */
    method Read(p: array<byte>, lo: nat, hi: nat) returns (n: nat, err: Option<Error>)
      requires lo <= hi <= p.Length
      modifies this, p
      ensures line == old(line).(input := ReadFrom(old(line.input), hi - lo).1)
      ensures var o := ReadFrom(old(line.input), hi - lo).0;
        (o.Failed? ==> err == Some(o.error) && n == 0 && p[..] == old(p[..])) &&
        (o.Got? ==> err == None && n == |o.bytes| && lo + n <= hi &&
                    p[..] == old(p[..lo]) + o.bytes + old(p[lo + n..]) &&
                    p[..lo + n] == old(p[..lo]) + o.bytes)
    {
      var (o, rest) := ReadFrom(line.input, hi - lo);
      line := line.(input := rest);
      match o
      case Failed(e) =>
        n, err := 0, Some(e);
      case Got(b) =>
        n, err := |b|, None;
        forall k | 0 <= k < n {
          p[lo + k] := b[k];
        }
        assert p[..] == old(p[..lo]) + b + old(p[lo + n..]);
        assert p[..lo + n] == p[..][..lo + n];
    }

    method TimerFires() returns (fired: bool)
      modifies this
      ensures (fired, line) == TimerCheck(old(line))
    {
      fired, line := TimerCheck(line).0, TimerCheck(line).1;
    }
  }
}
