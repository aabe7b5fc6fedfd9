/** `BasicFIFO`: the byte channel between the guest and a host component. The guest writes
    bytes at `start`, raises the ready flag at `start + 2`, and the host collects the buffer
    with `writeBufferIfReady`. Bytes for the guest wait in a read buffer consumed at `start`,
    whose availability is read at `start + 1`. */
module Fifos {
  import opened Words
  import opened Traps

  /** The device's state: the ready flag, the bytes written so far, and the unread part of
      the read stream (`None` while no stream was given). */
  datatype Fifo = Fifo(writeReady: bool, writeBuffer: seq<Byte>, readBuffer: Option<seq<Byte>>)

  const LENGTH: Word := 3

  predicate Available(f: Fifo)
  {
    f.readBuffer.Some? && |f.readBuffer.value| > 0
  }

  /** `write8`: a byte at `start` is appended, a byte at `start + 2` sets the ready flag to
      whether it is non-zero, and other offsets are ignored. */
  function WriteByte(f: Fifo, start: Word, offset: Word, v: Byte): (r: Fifo)
    ensures offset == start ==> r == f.(writeBuffer := f.writeBuffer + [v])
    ensures offset == start + 2 ==> r == f.(writeReady := v != 0)
    ensures offset != start && offset != start + 2 ==> r == f
  {
    if offset == start then f.(writeBuffer := f.writeBuffer + [v])
    else if offset == start + 2 then f.(writeReady := v != 0)
    else f
  }

  /** The byte `read8` returns: the next unread byte at `start` (0 when none), whether bytes
      remain at `start + 1`, the ready flag at `start + 2`, and 0 elsewhere. */
  function Read8Value(f: Fifo, start: Word, offset: Word): (b: Byte)
    ensures offset == start && Available(f) ==> b == f.readBuffer.value[0]
    ensures offset != start && offset == start + 1 ==> (b == 1 <==> Available(f)) && b <= 1
    ensures offset != start && offset != start + 1 && offset == start + 2 ==> (b == 1 <==> f.writeReady) && b <= 1
  {
    if offset == start then (if Available(f) then f.readBuffer.value[0] else 0)
    else if offset == start + 1 then (if Available(f) then 1 else 0)
    else if offset == start + 2 then (if f.writeReady then 1 else 0)
    else 0
  }

  /** The state after `read8`: only a read at `start` with a byte available consumes it. */
  function AfterRead8(f: Fifo, start: Word, offset: Word): (r: Fifo)
    ensures offset == start && Available(f) ==> r == f.(readBuffer := Some(f.readBuffer.value[1..]))
    ensures !(offset == start && Available(f)) ==> r == f
  {
    if offset == start && Available(f) then f.(readBuffer := Some(f.readBuffer.value[1..])) else f
  }

  /** `writeBufferIfReady`: when ready, the buffered bytes, with the buffer emptied and the
      flag cleared; otherwise nothing and no change. */
  function Flush(f: Fifo): (r: (Option<seq<Byte>>, Fifo))
    ensures f.writeReady ==> r.0 == Some(f.writeBuffer) && r.1 == f.(writeReady := false, writeBuffer := [])
    ensures !f.writeReady ==> r.0 == None && r.1 == f
  {
    if f.writeReady then (Some(f.writeBuffer), f.(writeReady := false, writeBuffer := [])) else (None, f)
  }

  /** A sequence of data-byte writes, one `write8(start, b)` per byte. */
  function WriteAll(f: Fifo, start: Word, bs: seq<Byte>): Fifo
    decreases |bs|
  {
    if bs == [] then f else WriteAll(WriteByte(f, start, start, bs[0]), start, bs[1..])
  }

  /** Data-byte writes append to the buffer in order and change nothing else. */
  lemma {:induction false} WriteAllAppends(f: Fifo, start: Word, bs: seq<Byte>)
    ensures WriteAll(f, start, bs) == f.(writeBuffer := f.writeBuffer + bs)
    decreases |bs|
  {
    if bs != [] {
      WriteAllAppends(WriteByte(f, start, start, bs[0]), start, bs[1..]);
      assert f.writeBuffer + [bs[0]] + bs[1..] == f.writeBuffer + bs;
    }
  }

  /** The host receives exactly the bytes the guest wrote, in order, once the guest raises
      the flag; the device is then empty and not ready. */
  lemma WriteThenFlush(start: Word, bs: seq<Byte>, ready: Byte, rb: Option<seq<Byte>>)
    requires ready != 0
    ensures var f := WriteByte(WriteAll(Fifo(false, [], rb), start, bs), start, start + 2, ready);
      Flush(f) == (Some(bs), Fifo(false, [], rb))
  {
    WriteAllAppends(Fifo(false, [], rb), start, bs);
    assert [] + bs == bs;
    assert start + 2 != start;
  }

  /** A second collection right after one yields nothing. */
  lemma FlushOnce(f: Fifo)
    ensures Flush(Flush(f).1).0 == None
  {
  }

  /** A sequence of `n` data-byte reads: the bytes returned and the state after them. */
  function ReadAll(f: Fifo, start: Word, n: nat): (Fifo, seq<Byte>)
    decreases n
  {
    if n == 0 then (f, [])
    else
      var b := Read8Value(f, start, start);
      var rest := ReadAll(AfterRead8(f, start, start), start, n - 1);
      (rest.0, [b] + rest.1)
  }

  /** Reading as many bytes as remain returns them in order and leaves the stream empty. */
  lemma {:induction false} ReadAllDrains(start: Word, data: seq<Byte>, rest: bool)
    ensures ReadAll(Fifo(rest, [], Some(data)), start, |data|) == (Fifo(rest, [], Some([])), data)
    decreases |data|
  {
    if data != [] {
      var f := Fifo(rest, [], Some(data));
      assert Available(f);
      assert AfterRead8(f, start, start) == Fifo(rest, [], Some(data[1..]));
      ReadAllDrains(start, data[1..], rest);
      assert [data[0]] + data[1..] == data;
    }
  }

  /** Once the stream is empty a data read gives 0 and changes nothing. */
  lemma ReadExhausted(f: Fifo, start: Word)
    requires !Available(f)
    ensures Read8Value(f, start, start) == 0 && AfterRead8(f, start, start) == f
  {
  }

  /** The device, as the class with its three fields. */
  class BasicFifo {
    const start: Word
    var writeReady: bool
    var writeBuffer: seq<Byte>
    var readBuffer: Option<seq<Byte>>

    function State(): Fifo
      reads this
    {
      Fifo(writeReady, writeBuffer, readBuffer)
    }

    /** A device at `start` with nothing written, not ready, and no read stream. */
    constructor (start: Word)
      ensures this.start == start && State() == Fifo(false, [], None)
    {
      this.start := start;
      writeReady := false;
      writeBuffer := [];
      readBuffer := None;
    }

    method WriteBufferIfReady() returns (r: Option<seq<Byte>>)
      modifies this
      ensures (r, State()) == Flush(old(State()))
    {
      if writeReady {
        r := Some(writeBuffer);
        writeBuffer := [];
        writeReady := false;
      } else {
        r := None;
      }
    }

    method Read8(offset: Word) returns (b: Byte)
      modifies this
      ensures b == Read8Value(old(State()), start, offset)
      ensures State() == AfterRead8(old(State()), start, offset)
    {
      if offset == start {
        if readBuffer.Some? && |readBuffer.value| > 0 {
          b := readBuffer.value[0];
          readBuffer := Some(readBuffer.value[1..]);
        } else {
          b := 0;
        }
      } else if offset == start + 1 {
        b := if readBuffer.Some? && |readBuffer.value| > 0 then 1 else 0;
      } else if offset == start + 2 {
        b := if writeReady then 1 else 0;
      } else {
        b := 0;
      }
    }

    /** `read16`: the byte of `read8`, sign-extended. */
    method Read16(offset: Word) returns (h: Half)
      modifies this
      ensures h == Low16(SignExtend8(Read8Value(old(State()), start, offset)))
      ensures State() == AfterRead8(old(State()), start, offset)
    {
      var b := Read8(offset);
      h := Low16(SignExtend8(b));
    }

    /** `read32`: the byte of `read8`, sign-extended. */
    method Read32(offset: Word) returns (w: Word)
      modifies this
      ensures w == SignExtend8(Read8Value(old(State()), start, offset))
      ensures State() == AfterRead8(old(State()), start, offset)
    {
      var b := Read8(offset);
      w := SignExtend8(b);
    }

    /** `read64`: the byte of `read8`, sign-extended. */
    method Read64(offset: Word) returns (d: Dword)
      modifies this
      ensures d == SignExtend32(SignExtend8(Read8Value(old(State()), start, offset)))
      ensures State() == AfterRead8(old(State()), start, offset)
    {
      var b := Read8(offset);
      d := SignExtend32(SignExtend8(b));
    }

    method Write8(offset: Word, v: Byte)
      modifies this
      ensures State() == WriteByte(old(State()), start, offset, v)
    {
      if offset == start {
        writeBuffer := writeBuffer + [v];
      } else if offset == start + 2 {
        writeReady := v != 0;
      }
    }

    /** `write16`, `write32` and `write64` write the low byte with `write8`. */
    method Write16(offset: Word, v: Half)
      modifies this
      ensures State() == WriteByte(old(State()), start, offset, (v & 0xFF) as Byte)
    {
      Write8(offset, (v & 0xFF) as Byte);
    }

    method Write32(offset: Word, v: Word)
      modifies this
      ensures State() == WriteByte(old(State()), start, offset, Low8(v))
    {
      Write8(offset, Low8(v));
    }

    method Write64(offset: Word, v: Dword)
      modifies this
      ensures State() == WriteByte(old(State()), start, offset, (v & 0xFF) as Byte)
    {
      Write8(offset, (v & 0xFF) as Byte);
    }
  }
}
