# B3M servo bus driver: a Dafny model of the protocol layer

This project models the protocol layer of a Go driver for B3M serial-bus servo motors
(`b3m/b3m.go`) and proves properties of it. The driver talks to the motors over a
half-duplex serial line with length-prefixed, checksummed frames:

    [length][cmd][option][id][data ...][checksum]

Here `length` is `|data| + 5` truncated to a byte. `checksum` is the 8-bit wrapping sum of
every earlier byte. The model covers three parts:

- **Frame codec** (`codec.dfy`, module `Codec`). `Send` builds the frame in a fresh array and
  sums it in a loop. `Recv` reads the length byte, then loops, filling a 256-byte buffer until
  the frame is complete. It drops the checksum byte without checking it. Both are imperative
  methods. Each is proved equal to a pure function: `Frame` for `Send`, `Receive` for `Recv`.
  The lemmas are proved about those two functions.
- **Requests** (`requests.dfy`, module `Requests`). This covers `Recv2` (waiting for a reply)
  and the free functions `ReadMem` and `WriteMem`, with the payloads they build. It also
  covers when they wait for a reply: a write to the broadcast id 255 returns its own request
  and reads nothing.
- **Servo handle** (`servos.dfy`, module `Servos`; `registers.dfy`, module `Registers`).
  `Servo` is a class. Its `Status` field is set to the option byte of every successful reply
  and is left unchanged on error. `Load`, `Save`, `Reset` and `SetPosition2` never touch
  `Status`.
  Its register accessors use the register map, little-endian int16 packing and unpacking
  (Go's int16 `|` and `<<` written out bit by bit), and the model and version text made from
  the 12-byte version block.

The serial port is the external collaborator (`stream.dfy`, module `Stream`). It is a
`Port` object holding one `Line` value:
- `output`: the bytes written so far. A write appends all its bytes, or fails with the
  line's `writeFault` and writes nothing.
- `input`: the results the reads will find, in order. A `Chunk` is bytes that have arrived;
  a `Failure` is an error. One read takes at most as many bytes as its buffer has room for
  and leaves the rest of the chunk for the next read. An exhausted input reads as end of
  file.
- `expiry`: one entry per reply wait, saying whether the timer of the `Recv2` race fires
  before the reply is decoded.

Several `Servo` handles can share one `Port`.

A Go runtime panic is modelled as the error value `Panic`, returned to the caller. This
covers `make` with a negative length when a frame's length byte is below 5, and indexing
past the end of a short reply in `GetVersion`, `GetMode` and `GetCurrentPosition`.

The examples and `b3m/b3m_test.go` call `b3m.New(...)` and `conn.GetServo(...)`, which
`b3m/b3m.go` does not define. There, `Recv2` starts one goroutine per wait, and handles are
made with `GetServo(io, id)`. The model follows `b3m/b3m.go`. An empty first read in `Recv`
is the error "timeout" in the code, not a separate end-of-stream signal, and the model
follows the code.

## Model

| member | source | states |
|---|---|---|
| `Codec.Frame` | b3m/b3m.go:55-66 | The frame is `|data|+5` bytes. Byte 0 is `(|data|+5) mod 256`. Bytes 1-3 are cmd, option and id. The data follows unchanged. The last byte equals the plain sum of all earlier bytes mod 256, although the body computes it by byte-wrapping accumulation. |
| `Codec.WrapSumIsSumMod256` | b3m/b3m.go:62-65 | Adding byte by byte with 8-bit wrap-around gives the same checksum as the full sum mod 256. |
| `Codec.Send` | b3m/b3m.go:55-68 | If the write succeeds, the link's output grows by exactly `Frame(c)` and the result is its length. If the write fails, its error comes back and nothing is written. The loop invariant ties the running sum to the wrapping sum of the prefix. |
| `Codec.Fill` | b3m/b3m.go:80-86 | Recv's loop ends with at least `sz` and at most 256 bytes, or with the read's error. It never leaves more input to read than it found. |
| `Codec.Assemble` | b3m/b3m.go:87-89 | A command is decoded exactly when the loop succeeded and the length byte is at least 5, and it carries exactly `sz - 5` data bytes. A loop error is passed through unchanged. A length byte below 5 gives `Panic`. |
| `Codec.Receive` | b3m/b3m.go:70-91 | No input gives end of file. An error on the first read is returned as is. An empty first read gives Timeout and no command. A decoded command never has more than 250 data bytes. Reading never adds input. |
| `Codec.Recv` | b3m/b3m.go:70-91 | The imperative loop over the 256-byte buffer returns `Receive(input)` and consumes exactly what `Receive` says. Nothing else on the link changes. |
| `Codec.FillDelivers` | b3m/b3m.go:80-86 | However the remaining frame bytes are split into reads, the loop collects exactly the frame. With no empty reads, it consumes nothing after the frame. |
| `Codec.FirstRead` | b3m/b3m.go:72-79 | The first read, into a 1-byte slice, takes exactly the first byte that arrived. The rest of its chunk is left for the loop. |
| `Codec.ReceiveFilled` | b3m/b3m.go:87-90 | Once the length byte and the rest of the frame are read, the command is bytes 1, 2 and 3 plus bytes 4 to `len-2`. |
| `Codec.ShortLengthPanics` | b3m/b3m.go:79-87 | A frame whose length byte is below 5 and that arrives whole in the first chunk makes Recv panic at `make([]byte, sz-5)`. |
| `Codec.ReceiveIgnoresChecksum` | b3m/b3m.go:87-89 | Recv returns the frame's command whatever its last byte is: the checksum is consumed but never verified. |
| `Codec.RoundTrip` | b3m/b3m.go:55-91 | For every command with at most 250 data bytes, Recv returns the command whose frame Send wrote, in any chunking. With no empty reads it leaves exactly the input after the frame. |
| `Requests.Await` | b3m/b3m.go:93-110 | A wait never writes. When the timer wins, the result is Timeout, one timer entry is used and nothing is read. |
| `Requests.Recv2` | b3m/b3m.go:93-110 | The method returns what `Await` says and leaves the link as `Await` says. |
| `Requests.ReadMem` | b3m/b3m.go:112-119 | Sends the read request. A write error is returned. Otherwise it returns the reply wait's result, as `ReadMemSpec`. |
| `Requests.WriteMem` | b3m/b3m.go:121-135 | Builds the payload `data ++ [addr, 1]` in a fresh array and sends it. A write error is returned. For id 255 it returns the request itself without reading; otherwise it returns the reply wait's result, as `WriteMemSpec`. |
| `Requests.ReadRequestFrame` | b3m/b3m.go:113 | A read request is the 7 bytes `[7, 3, 0, id, addr, size, (10+id+addr+size) mod 256]`. |
| `Requests.WriteRequestFrame` | b3m/b3m.go:122-126 | A write request is `|data|+7` bytes with command 4 and option 0. Its payload is the data unchanged, then the address byte, then 1. |
| `Requests.WriteFaultEndsRequest` | b3m/b3m.go:112-135 | When the write fails, both ReadMem and WriteMem return its error and leave the link untouched: they read nothing. |
| `Requests.BroadcastWriteEchoesRequest` | b3m/b3m.go:131-133 | A broadcast write returns its own request, with option 0. It writes just its frame and reads nothing. |
| `Requests.UnicastWriteAwaits` | b3m/b3m.go:131-134 | A write to any other id is followed by exactly the reply wait. |
| `Requests.ReadMemReturnsReply` | b3m/b3m.go:112-119 | When a reply frame arrives in time, in any pieces, ReadMem returns exactly that reply. It writes exactly the read request's frame. |
| `Registers.BitOrBelow` | b3m/b3m.go:229 | OR of two numbers below 2^k stays below 2^k, so the int16 OR is well defined. |
| `Registers.BitOrDisjoint` | b3m/b3m.go:229 | OR of a number below 2^k with a multiple of 2^k is their sum. |
| `Registers.Int16FromIsWord` | b3m/b3m.go:229 | `int16(lo) \| int16(hi) << 8` is the 16-bit word `hi:lo` read as two's complement. |
| `Registers.Int16RoundTrip` | b3m/b3m.go:220-230 | Decoding `[byte(v), byte(v >> 8)]` gives back every int16 `v`. |
| `Registers.Int16BytesRoundTrip` | b3m/b3m.go:220-230 | Encoding the decoded value of any byte pair gives back the pair, so the two maps are inverse bijections. |
| `Registers.Decimal` | b3m/b3m.go:171-172 | `%v` of a byte is a non-empty string of at most three digits. It has no leading zero and denotes exactly the number. |
| `Registers.FormatModel` | b3m/b3m.go:171 | The model text is 12 to 18 characters: "B3M-", char(b7), char(b6), "-", then exactly `Decimal(b3) + Decimal(b2) + Decimal(b1)` (only digits), "-", char(b0). |
| `Registers.SplitJoin` | b3m/b3m.go:172 | Splitting pieces joined by a separator that none of them contains gives back exactly the pieces. |
| `Registers.VersionRoundTrip` | b3m/b3m.go:172 | Splitting the version text at its dots and reading each field gives back bytes 11, 10, 9 and 8. |
| `Registers.VersionExample` | b3m/b3m.go:171-172 | The block 0..11 gives version "11.10.9.8" and model "B3M-" + char 7 + char 6 + "-321-" + char 0. |
| `Servos.GetServo` | b3m/b3m.go:144-146 | A fresh handle on the given port and id, with timeout 100 and status 0. |
| `Servos.Servo.constructor` | b3m/b3m.go:144-146 | Sets port, id, timeout 100 and status 0. |
| `Servos.Servo.ReadMem` | b3m/b3m.go:148-155 | Sends the read request and waits. On success it returns the reply's data and sets `Status` to the reply's option. On error it returns no data, the error, and the old `Status`. Id and timeout never change. |
| `Servos.Servo.WriteMem` | b3m/b3m.go:157-164 | Sends the write request. `Status` becomes the reply's option; for a broadcast write that is the request's own option, 0. On error `Status` is unchanged and the error is returned. |
| `Servos.Servo.GetVersion` | b3m/b3m.go:166-174 | Reads 12 bytes at 0xA2. On error it returns empty strings and the error. A reply shorter than 12 bytes panics. Otherwise it returns `FormatModel` and `FormatVersion` of the data. `Status` follows the reply. |
| `Servos.Servo.GetMode` | b3m/b3m.go:176-182 | Reads 1 byte at 0x28 and returns its first byte. On error it returns 0; an empty reply panics. |
| `Servos.Servo.SetMode` | b3m/b3m.go:184-186 | Writes `[mode]` at 0x28, as `Servo.WriteMem`. |
| `Servos.Servo.Reset` | b3m/b3m.go:188-192 | Writes the frame of `{5, 0, id, [timeAfter]}` and returns the write's error. Whatever the id, it never reads and never uses a timer entry. `Status` is outside its frame. |
| `Servos.Servo.Load` | b3m/b3m.go:194-203 | Sends `{1, 0, id, []}`. Unless the id is 255, it waits for a reply and returns only the wait's error. `Status` is outside its frame. |
| `Servos.Servo.Save` | b3m/b3m.go:205-214 | Sends `{2, 0, id, []}`. Unless the id is 255, it waits for a reply and returns only the wait's error. `Status` is outside its frame. |
| `Servos.Servo.SetTrajectoryMode` | b3m/b3m.go:216-218 | Writes `[trajectory]` at 0x29, as `Servo.WriteMem`. |
| `Servos.Servo.SetPosition` | b3m/b3m.go:220-222 | Writes `[low byte, high byte]` of the int16 at 0x2A, as `Servo.WriteMem`. |
| `Servos.Servo.GetCurrentPosition` | b3m/b3m.go:224-230 | Reads 2 bytes at 0x2C and decodes them with `Int16From`. On error it returns 0; a reply shorter than 2 bytes panics. |
| `Servos.Servo.SetVelocity` | b3m/b3m.go:232-234 | Writes the int16 little-endian at 0x30, as `Servo.WriteMem`. |
| `Servos.Servo.SetTorque` | b3m/b3m.go:236-238 | Writes the int16 little-endian at 0x3C, as `Servo.WriteMem`. |
| `Servos.Servo.SetPosition2` | b3m/b3m.go:240-249 | Sends command 6 with payload `[posLo, posHi, timeLo, timeHi]`. Unless the id is 255, it waits for a reply. `Status` is outside its frame. |
| `Servos.ResetWritesFixture` | b3m/b3m_test.go:8-16 | On a fresh port, `Reset(0)` on a handle for device 0 writes exactly `[6, 5, 0, 0, 0, 11]`. |
| `Servos.ResetFrameFixture` | b3m/b3m.go:188-191 | The reset frame for id 0 and delay 0 is `[6, 5, 0, 0, 0, 11]`. |
| `Servos.EmptyRequestFrames` | b3m/b3m.go:194-214 | Load and Save frames are the 5 bytes `[5, cmd, 0, id, (5+cmd+id) mod 256]`. |
| `Servos.PositionFrame` | b3m/b3m.go:241 | A SetPosition2 frame is 9 bytes with command 6, the id, and payload `[posLo, posHi, timeLo, timeHi]`. |
| `Servos.BroadcastSkipsReply` | b3m/b3m.go:194-203 | For id 255, Load, Save and SetPosition2 only write. The input and the timer entries are untouched. |
| `Servos.UnicastAwaitsReply` | b3m/b3m.go:194-203 | For any other id, a successful write is followed by exactly one reply wait, and its error is returned. |

## Left out

- The goroutine, channel and `time.After` race in `Recv2` (b3m/b3m.go:93-110). This is concurrency and wall-clock time. Each wait takes one entry of the link's `expiry` script, and the `timeout` value is not interpreted. The abandoned goroutine keeps reading after a timeout and can swallow a later reply; the model does not capture this.
- Real serial ports: a write either writes all its bytes or fails with nothing written (no partial writes). A read that returns bytes together with an error is modelled as just the error. `Recv` discards those bytes anyway.
- Concrete Go error values: stream errors are `StreamFailure(code)`; `io.EOF` is `EndOfInput`. Both `errors.New("timeout")` sites are `Timeout`.
- Go runtime panics are returned as the error `Panic` rather than unwinding the goroutine.
- `fmt`: only `%v` of a byte (decimal digits) and `%c` (one character with that code point) are modelled. Strings are character sequences, not UTF-8 bytes.
- Data longer than 250 bytes: `Send` writes a wrapped length byte, as in the code. `Codec.RoundTrip` is stated only for at most 250 data bytes, the longest a one-byte length can describe.
- Helpers that decode the status bits: the code defines only the constants (`StatusSystemError` and the rest, in `Codec`). The model keeps those.
- `New` and `conn.GetServo`, called by the examples and `b3m/b3m_test.go`: they are not defined in `b3m/b3m.go`.
- `examples/*.go` and `test.go`: flag parsing, port opening, signal handling, polling and scanning loops. `GetMotorStatus` in `examples/motor_status.go` does float scaling.
