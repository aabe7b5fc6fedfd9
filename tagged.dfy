/** The tagged binary format in which values cross between the guest and the host: a one-byte
    variant id followed by a little-endian payload. `writeTaggedBinary` appends an encoding to
    an output stream and `readTagged` parses one from an input stream; both are modelled on a
    cursor over a byte sequence. */
module TaggedFormat {
  import opened Words
  import opened Traps
  import opened Buffers

  /** `TaggedBinary`. `Int128` holds a `UUID` as its most and least significant halves;
      `Value` holds a handle of the value table. */
  datatype Tagged =
    | Null
    | Int8(b: Byte)
    | Int16(h: Half)
    | Int32(w: Word)
    | Int64(d: Dword)
    | Int128(hi: Dword, lo: Dword)
    | Bytes(data: seq<Byte>)
    | Value(handle: Word)
    | End

  /** The largest byte array `readTagged` accepts. */
  const MAX_BYTES: int := 0x1024

  /** The variant's id byte. */
  function Id(t: Tagged): Byte
  {
    match t
    case Null => 0x00
    case Int8(_) => 0x01
    case Int16(_) => 0x02
    case Int32(_) => 0x03
    case Int64(_) => 0x04
    case Int128(_, _) => 0x05
    case Bytes(_) => 0x06
    case Value(_) => 0x08
    case End => 0xFF
  }

  // ---------------------------------------------------------------- encoding

  /** A 16-bit value as two bytes, least significant first: `v and 0xFF`, `(v shr 8) and 0xFF`. */
  function ShortBytes(h: Half): seq<Byte>
  {
    [(h & 0xFF) as Byte, (h >> 8) as Byte]
  }

  /** A 32-bit value as four bytes, least significant first. */
  function IntBytes(w: Word): seq<Byte>
  {
    [Low8(w), Low8(w >> 8), Low8(w >> 16), Low8(w >> 24)]
  }

  function LongByte(d: Dword): Byte
  {
    (d & 0xFF) as Byte
  }

  /** A 64-bit value as eight bytes, least significant first. */
  function LongBytes(d: Dword): seq<Byte>
  {
    [LongByte(d), LongByte(d >> 8), LongByte(d >> 16), LongByte(d >> 24),
     LongByte(d >> 32), LongByte(d >> 40), LongByte(d >> 48), LongByte(d >> 56)]
  }

  /** The byte whose value is `m`, counted up from zero. */
  function Octet(m: int): Byte
    requires 0 <= m < 0x100
  {
    if m == 0 then 0 else Octet(m - 1) + 1
  }

  /** `n and 0xFF` for a non-negative `Int`. */
  function ByteOf(n: nat): Byte
  {
    Octet(n % 0x100)
  }

  /** The four size bytes of a byte array of `n` elements, least significant first
      (`size and 0xFF`, `(size shr 8) and 0xFF`, ...). */
  function SizeBytes(n: nat): seq<Byte>
  {
    [ByteOf(n), ByteOf(n / 0x100), ByteOf(n / 0x1_0000), ByteOf(n / 0x100_0000)]
  }

  /** The bytes `writeTaggedBinary` writes after the id. */
  function Payload(t: Tagged): seq<Byte>
  {
    match t
    case Null => []
    case Int8(b) => [b]
    case Int16(h) => ShortBytes(h)
    case Int32(w) => IntBytes(w)
    case Int64(d) => LongBytes(d)
    case Int128(hi, lo) => LongBytes(lo) + LongBytes(hi)
    case Bytes(data) => SizeBytes(|data|) + data
    case Value(handle) => IntBytes(handle)
    case End => []
  }

  /** `writeTaggedBinary(t)`: the id, then the payload. */
  function Encode(t: Tagged): (r: seq<Byte>)
    ensures |r| >= 1 && r[0] == Id(t)
  {
    [Id(t)] + Payload(t)
  }

  /** `List.toBytes`: the encodings of the elements, in order. */
  function EncodeAll(ts: seq<Tagged>): seq<Byte>
  {
    if ts == [] then [] else Encode(ts[0]) + EncodeAll(ts[1..])
  }

  /** The id bytes of the nine variants. */
  lemma IdValues()
    ensures Id(Null) == 0x00 && Id(Int8(0)) == 0x01 && Id(Int16(0)) == 0x02 && Id(Int32(0)) == 0x03
    ensures Id(Int64(0)) == 0x04 && Id(Int128(0, 0)) == 0x05 && Id(Bytes([])) == 0x06
    ensures Id(Value(0)) == 0x08 && Id(End) == 0xFF
  {
  }

  /** The length of each encoding: the id byte and a payload of 0, 1, 2, 4, 8, 16 or
      `4 + size` bytes. */
  lemma EncodingWidths(t: Tagged)
    ensures t.Null? || t.End? ==> |Encode(t)| == 1
    ensures t.Int8? ==> Encode(t) == [0x01, t.b]
    ensures t.Int16? ==> |Encode(t)| == 3
    ensures t.Int32? || t.Value? ==> |Encode(t)| == 5
    ensures t.Int64? ==> |Encode(t)| == 9
    ensures t.Int128? ==> |Encode(t)| == 17
    ensures t.Bytes? ==> |Encode(t)| == 5 + |t.data|
  {
  }

  /** An `Int128` is its low half, then its high half. */
  lemma UuidLayout(hi: Dword, lo: Dword)
    ensures Encode(Int128(hi, lo))[1..9] == LongBytes(lo) && Encode(Int128(hi, lo))[9..] == LongBytes(hi)
  {
    var head := [0x05 as Byte] + LongBytes(lo);
    Associative([0x05], LongBytes(lo), LongBytes(hi));
    assert head[1..] == LongBytes(lo);
  }

  /** A byte array is its four size bytes, then its elements. */
  lemma BytesLayout(data: seq<Byte>)
    ensures Encode(Bytes(data))[1..5] == SizeBytes(|data|) && Encode(Bytes(data))[5..] == data
  {
    var head := [0x06 as Byte] + SizeBytes(|data|);
    Associative([0x06], SizeBytes(|data|), data);
    assert head[1..] == SizeBytes(|data|);
  }

  lemma Associative(a: seq<Byte>, b: seq<Byte>, c: seq<Byte>)
    ensures a + b + c == a + (b + c)
  {
  }

  lemma Appended2(a: seq<Byte>, x0: Byte, x1: Byte)
    ensures a + [x0] + [x1] == a + [x0, x1]
  {
  }

  lemma Appended4(a: seq<Byte>, x0: Byte, x1: Byte, x2: Byte, x3: Byte)
    ensures a + [x0] + [x1] + [x2] + [x3] == a + [x0, x1, x2, x3]
  {
  }

  lemma Appended8(a: seq<Byte>, x0: Byte, x1: Byte, x2: Byte, x3: Byte, x4: Byte, x5: Byte, x6: Byte, x7: Byte)
    ensures a + [x0] + [x1] + [x2] + [x3] + [x4] + [x5] + [x6] + [x7] == a + [x0, x1, x2, x3, x4, x5, x6, x7]
  {
    Appended4(a, x0, x1, x2, x3);
    Appended4(a + [x0, x1, x2, x3], x4, x5, x6, x7);
    Associative(a, [x0, x1, x2, x3], [x4, x5, x6, x7]);
    assert [x0, x1, x2, x3] + [x4, x5, x6, x7] == [x0, x1, x2, x3, x4, x5, x6, x7];
  }

  // ---------------------------------------------------------------- decoding

  /** What `read()` returns at index `i` of the stream: the byte there, or end of stream
      (the `-1` of `InputStream.read`). */
  function At(s: seq<Byte>, i: int): Option<Byte>
  {
    if 0 <= i < |s| then Some(s[i]) else None
  }

  /** The `Int` value of one `read()`: the byte, or all ones for `-1`. */
  function ReadInt(r: Option<Byte>): Word
  {
    if r.None? then 0xFFFF_FFFF else r.value as Word
  }

  /** The `Long` value of one `read().toLong()`. */
  function ReadLong(r: Option<Byte>): Dword
  {
    if r.None? then 0xFFFF_FFFF_FFFF_FFFF else r.value as Dword
  }

  /** The two-read composition of an `Int16` payload, `read() or (read() shl 8)` on `Int`
      truncated to a `Short`. */
  function Combine16(r0: Option<Byte>, r1: Option<Byte>): Half
  {
    Low16(ReadInt(r0) | (ReadInt(r1) << 8))
  }

  /** `read() or (read() shl 8) or (read() shl 16) or (read() shl 24)` on `Int`. */
  function Combine32(r0: Option<Byte>, r1: Option<Byte>, r2: Option<Byte>, r3: Option<Byte>): Word
  {
    ReadInt(r0) | (ReadInt(r1) << 8) | (ReadInt(r2) << 16) | (ReadInt(r3) << 24)
  }

  /** The eight-read `Long` composition of an `Int64` payload or an `Int128` half. */
  function Combine64(r0: Option<Byte>, r1: Option<Byte>, r2: Option<Byte>, r3: Option<Byte>,
                     r4: Option<Byte>, r5: Option<Byte>, r6: Option<Byte>, r7: Option<Byte>): Dword
  {
    ReadLong(r0) | (ReadLong(r1) << 8) | (ReadLong(r2) << 16) | (ReadLong(r3) << 24) |
    (ReadLong(r4) << 32) | (ReadLong(r5) << 40) | (ReadLong(r6) << 48) | (ReadLong(r7) << 56)
  }

  /** One step of the `Int` composition: a byte below the value composed from the reads
      after it, or `-1`, whose set bits absorb those later reads. */
  function Digit(r: Option<Byte>, above: int): int
  {
    if r.None? then -1 else r.value as int + 0x100 * above
  }

  /** The byte array length read by the `Bytes` case, as the `Int` it is: the four bytes as an
      unsigned number, wrapped into the signed range. A read at end of stream is `-1`, so a
      length cut short by the end of the stream is the bytes read before it minus `256^k`,
      always negative. */
  function LengthOf(r0: Option<Byte>, r1: Option<Byte>, r2: Option<Byte>, r3: Option<Byte>): int
  {
    var u := Digit(r0, Digit(r1, Digit(r2, Digit(r3, 0))));
    if u >= 0x8000_0000 then u - TWO32 else u
  }

  function Word4(s: seq<Byte>, q: int): Word
  {
    Combine32(At(s, q), At(s, q + 1), At(s, q + 2), At(s, q + 3))
  }

  function Long8(s: seq<Byte>, q: int): Dword
  {
    Combine64(At(s, q), At(s, q + 1), At(s, q + 2), At(s, q + 3),
              At(s, q + 4), At(s, q + 5), At(s, q + 6), At(s, q + 7))
  }

  /** How `readTagged` ends: a value and the stream position after it, or one of the two
      exceptions of the `Bytes` case (`IllegalArgumentException` for a length above
      `0x1024`, `NegativeArraySizeException` for a negative one). */
  datatype Parse = Parsed(t: Tagged, next: nat) | TooBig(len: int) | NegativeSize(len: int)

  /** The `Bytes` case after its id, from `q`: the length, then the array. */
  function DecodeBytes(s: seq<Byte>, q: nat): (r: Parse)
    requires q <= |s|
    ensures r.Parsed? ==> q <= r.next <= |s| && r.t.Bytes? && |r.t.data| <= MAX_BYTES
    ensures r.TooBig? ==> r.len > MAX_BYTES
    ensures r.NegativeSize? ==> r.len < 0
  {
    var len := LengthOf(At(s, q), At(s, q + 1), At(s, q + 2), At(s, q + 3));
    var start := Min(q + 4, |s|);
    if len > MAX_BYTES then TooBig(len)
    else if len < 0 then NegativeSize(len)
    else
      // `read(value)` fills as much of the zeroed array as the stream still holds
      var got := s[start..Min(start + len, |s|)];
      Parsed(Bytes(got + Zeros(len - |got|)), start + |got|)
  }

  /** The payloads of at most two reads: ids 0x00, 0x01 and 0x02. */
  function ShortPayload(s: seq<Byte>, tag: Byte, q: nat): (r: Parse)
    requires q <= |s| && tag <= 0x02
    ensures r.Parsed? && q <= r.next <= |s|
  {
    if tag == 0x00 then Parsed(Null, q)
    else if tag == 0x01 then Parsed(Int8(Low8(ReadInt(At(s, q)))), Min(q + 1, |s|))
    else Parsed(Int16(Combine16(At(s, q), At(s, q + 1))), Min(q + 2, |s|))
  }

  /** The payloads composed into `Int`s and `Long`s: ids 0x03, 0x04, 0x05 and 0x08. */
  function WidePayload(s: seq<Byte>, tag: Byte, q: nat): (r: Parse)
    requires q <= |s| && (0x03 <= tag <= 0x05 || tag == 0x08)
    ensures r.Parsed? && q <= r.next <= |s|
  {
    if tag == 0x03 then Parsed(Int32(Word4(s, q)), Min(q + 4, |s|))
    else if tag == 0x04 then Parsed(Int64(Long8(s, q)), Min(q + 8, |s|))
    else if tag == 0x05 then Parsed(Int128(Long8(s, q + 8), Long8(s, q)), Min(q + 16, |s|))
    else Parsed(Value(Word4(s, q)), Min(q + 4, |s|))
  }

  /** The `when` of `readTagged` on the id `tag`, with the payload read from `q` on; an id
      that names no variant is `End`. */
  function DecodePayload(s: seq<Byte>, tag: Byte, q: nat): (r: Parse)
    requires q <= |s|
    ensures r.Parsed? ==> q <= r.next <= |s|
    ensures r.TooBig? ==> r.len > MAX_BYTES
    ensures r.NegativeSize? ==> r.len < 0
  {
    if tag <= 0x02 then ShortPayload(s, tag, q)
    else if 0x03 <= tag <= 0x05 || tag == 0x08 then WidePayload(s, tag, q)
    else if tag == 0x06 then DecodeBytes(s, q)
    else Parsed(End, q)
  }

  /** `readTagged` on the stream `s` positioned at `p`: the id, then its payload. Reads past
      the end give `-1`, and the stream stays at its end. */
  function Decode(s: seq<Byte>, p: nat): (r: Parse)
    requires p <= |s|
    ensures r.Parsed? ==> p <= r.next <= |s|
    ensures r.Parsed? && r.next == p ==> p == |s| && r.t == End
    ensures r.TooBig? ==> r.len > MAX_BYTES
    ensures r.NegativeSize? ==> r.len < 0
  {
    if p == |s| then Parsed(End, p) else DecodePayload(s, s[p], p + 1)
  }

  // ---------------------------------------------------------------- round trip

  /** The values whose encoding `readTagged` accepts back: byte arrays of at most `0x1024`. */
  predicate Fits(t: Tagged)
  {
    t.Bytes? ==> |t.data| <= MAX_BYTES
  }

  lemma IntRoundTrip(w: Word)
    ensures var bs := IntBytes(w); Combine32(Some(bs[0]), Some(bs[1]), Some(bs[2]), Some(bs[3])) == w
  {
  }

  lemma LongRoundTrip(d: Dword)
    ensures var bs := LongBytes(d);
      Combine64(Some(bs[0]), Some(bs[1]), Some(bs[2]), Some(bs[3]),
                Some(bs[4]), Some(bs[5]), Some(bs[6]), Some(bs[7])) == d
  {
  }

  lemma Increment(b: Byte)
    requires b < 0xFF
    ensures (b + 1) as int == b as int + 1
  {
  }

  lemma {:induction false} OctetValue(m: int)
    requires 0 <= m < 0x100
    ensures Octet(m) as int == m
  {
    if m > 0 {
      OctetValue(m - 1);
      Increment(Octet(m - 1));
    }
  }

  lemma ByteOfValue(n: nat)
    ensures ByteOf(n) as int == n % 0x100
  {
    OctetValue(n % 0x100);
  }

  /** A number is its low byte plus 256 times the rest. */
  lemma Split(m: nat)
    ensures m == m % 0x100 + 0x100 * (m / 0x100)
  {
  }

  /** Shifting right by 8 and then by 8 or 16 is shifting by 16 or 24. */
  lemma Shift8(m: nat, q: nat)
    requires q == m / 0x100
    ensures q / 0x100 == m / 0x1_0000
    ensures q / 0x1_0000 == m / 0x100_0000
  {
  }

  /** The four size bytes are the base-256 digits of a length below `2^31`. */
  lemma SizeDigits(n: nat)
    requires n < 0x8000_0000
    ensures n == n % 0x100 + 0x100 * (n / 0x100 % 0x100 + 0x100 * (n / 0x1_0000 % 0x100 + 0x100 * (n / 0x100_0000 % 0x100)))
    ensures n / 0x100_0000 % 0x100 < 0x80
  {
    var q1, q2, q3 := n / 0x100, n / 0x1_0000, n / 0x100_0000;
    Shift8(n, q1);
    Shift8(q1, q2);
    Split(n);
    Split(q1);
    Split(q2);
    assert q3 < 0x80;
    assert q3 % 0x100 == q3;
  }

  lemma SizeRoundTrip(n: nat)
    requires n < 0x8000_0000
    ensures var bs := SizeBytes(n); LengthOf(Some(bs[0]), Some(bs[1]), Some(bs[2]), Some(bs[3])) == n
  {
    ByteOfValue(n);
    ByteOfValue(n / 0x100);
    ByteOfValue(n / 0x1_0000);
    ByteOfValue(n / 0x100_0000);
    SizeDigits(n);
  }

  /** Every read inside an encoding laid at `p` sees that encoding's byte. */
  lemma ReadsEncoding(s: seq<Byte>, p: nat, e: seq<Byte>)
    requires p + |e| <= |s| && s[p..p + |e|] == e
    ensures forall k :: 0 <= k < |e| ==> At(s, p + k) == Some(e[k])
  {
    forall k | 0 <= k < |e|
      ensures At(s, p + k) == Some(e[k])
    {
      assert s[p..p + |e|][k] == s[p + k];
    }
  }

  /** A part of an encoding laid at `p` lies at the matching place in the stream. */
  lemma Within(s: seq<Byte>, p: nat, e: seq<Byte>, i: nat, j: nat)
    requires p + |e| <= |s| && s[p..p + |e|] == e
    requires i <= j <= |e|
    ensures s[p + i..p + j] == e[i..j]
  {
    forall k | 0 <= k < j - i
      ensures s[p + i..p + j][k] == e[i..j][k]
    {
      assert s[p..p + |e|][i + k] == s[p + i + k];
    }
  }

  lemma WordAt(s: seq<Byte>, q: nat, w: Word)
    requires q + 4 <= |s| && s[q..q + 4] == IntBytes(w)
    ensures Word4(s, q) == w
  {
    ReadsEncoding(s, q, IntBytes(w));
    IntRoundTrip(w);
  }

  lemma DwordAt(s: seq<Byte>, q: nat, d: Dword)
    requires q + 8 <= |s| && s[q..q + 8] == LongBytes(d)
    ensures Long8(s, q) == d
  {
    ReadsEncoding(s, q, LongBytes(d));
    LongRoundTrip(d);
  }

  lemma LengthAt(s: seq<Byte>, q: nat, n: nat)
    requires n < 0x8000_0000
    requires q + 4 <= |s| && s[q..q + 4] == SizeBytes(n)
    ensures LengthOf(At(s, q), At(s, q + 1), At(s, q + 2), At(s, q + 3)) == n
  {
    ReadsEncoding(s, q, SizeBytes(n));
    SizeRoundTrip(n);
  }

  lemma DecodeWordEncoding(s: seq<Byte>, p: nat, t: Tagged)
    requires t.Int32? || t.Value?
    requires p + 5 <= |s| && s[p..p + 5] == Encode(t)
    ensures Decode(s, p) == Parsed(t, p + 5)
  {
    var w := if t.Int32? then t.w else t.handle;
    assert Encode(t)[1..] == IntBytes(w);
    Within(s, p, Encode(t), 1, 5);
    assert s[p] == Id(t);
    WordAt(s, p + 1, w);
  }

  lemma DecodeLongEncoding(s: seq<Byte>, p: nat, d: Dword)
    requires p + 9 <= |s| && s[p..p + 9] == Encode(Int64(d))
    ensures Decode(s, p) == Parsed(Int64(d), p + 9)
  {
    assert Encode(Int64(d))[1..] == LongBytes(d);
    Within(s, p, Encode(Int64(d)), 1, 9);
    assert s[p] == 0x04;
    DwordAt(s, p + 1, d);
  }

  /** The id 0x05 selects the `Int128` case: the low half, then the high half. */
  lemma UuidTag(s: seq<Byte>, p: nat)
    requires p < |s| && s[p] == 0x05
    ensures Decode(s, p) == Parsed(Int128(Long8(s, p + 9), Long8(s, p + 1)), Min(p + 17, |s|))
  {
  }

  /** Any byte string laid out as id 0x05 and two halves reads back as the `Int128`. */
  lemma UuidFrom(s: seq<Byte>, p: nat, e: seq<Byte>, hi: Dword, lo: Dword)
    requires |e| == 17 && e[0] == 0x05 && e[1..9] == LongBytes(lo) && e[9..] == LongBytes(hi)
    requires p + |e| <= |s| && s[p..p + |e|] == e
    ensures Decode(s, p) == Parsed(Int128(hi, lo), p + 17)
  {
    Within(s, p, e, 1, 9);
    Within(s, p, e, 9, 17);
    assert s[p] == s[p..p + |e|][0];
    DwordAt(s, p + 1, lo);
    DwordAt(s, p + 9, hi);
    UuidTag(s, p);
  }

  lemma DecodeUuidEncoding(s: seq<Byte>, p: nat, hi: Dword, lo: Dword)
    requires p + 17 <= |s| && s[p..p + 17] == Encode(Int128(hi, lo))
    ensures Decode(s, p) == Parsed(Int128(hi, lo), p + 17)
  {
    UuidLayout(hi, lo);
    EncodingWidths(Int128(hi, lo));
    UuidFrom(s, p, Encode(Int128(hi, lo)), hi, lo);
  }

  lemma BytesAt(s: seq<Byte>, q: nat, data: seq<Byte>)
    requires |data| <= MAX_BYTES
    requires q + 4 + |data| <= |s| && s[q..q + 4] == SizeBytes(|data|) && s[q + 4..q + 4 + |data|] == data
    ensures DecodeBytes(s, q) == Parsed(Bytes(data), q + 4 + |data|)
  {
    LengthAt(s, q, |data|);
    CutFull(s, q, data);
  }

  /** The `Bytes` case after a length the stream holds in full. */
  lemma CutFull(s: seq<Byte>, q: nat, data: seq<Byte>)
    requires |data| <= MAX_BYTES
    requires LengthOf(At(s, q), At(s, q + 1), At(s, q + 2), At(s, q + 3)) == |data|
    requires q + 4 + |data| <= |s| && s[q + 4..q + 4 + |data|] == data
    ensures DecodeBytes(s, q) == Parsed(Bytes(data), q + 4 + |data|)
  {
    assert Min(q + 4, |s|) == q + 4 && Min(q + 4 + |data|, |s|) == q + 4 + |data|;
    assert data + Zeros(0) == data;
  }

  /** The id 0x06 selects the `Bytes` case. */
  lemma BytesTag(s: seq<Byte>, p: nat)
    requires p < |s| && s[p] == 0x06
    ensures Decode(s, p) == DecodeBytes(s, p + 1)
  {
  }

  /** Any byte string laid out as id 0x06, size bytes and elements reads back as the array. */
  lemma BytesFrom(s: seq<Byte>, p: nat, e: seq<Byte>, data: seq<Byte>)
    requires |data| <= MAX_BYTES && |e| == 5 + |data|
    requires e[0] == 0x06 && e[1..5] == SizeBytes(|data|) && e[5..] == data
    requires p + |e| <= |s| && s[p..p + |e|] == e
    ensures Decode(s, p) == Parsed(Bytes(data), p + |e|)
  {
    Within(s, p, e, 1, 5);
    Within(s, p, e, 5, |e|);
    assert s[p] == s[p..p + |e|][0];
    BytesAt(s, p + 1, data);
    BytesTag(s, p);
  }

  lemma DecodeBytesEncoding(s: seq<Byte>, p: nat, data: seq<Byte>)
    requires |data| <= MAX_BYTES
    requires p + 5 + |data| <= |s| && s[p..p + 5 + |data|] == Encode(Bytes(data))
    ensures Decode(s, p) == Parsed(Bytes(data), p + 5 + |data|)
  {
    BytesLayout(data);
    EncodingWidths(Bytes(data));
    BytesFrom(s, p, Encode(Bytes(data)), data);
  }

  /** The ids of the payloads of at most two bytes: none for 0x00 and 0xFF, one read for
      0x01 and two for 0x02. */
  lemma ShortTags(s: seq<Byte>, p: nat)
    requires p < |s|
    ensures s[p] == 0x00 ==> Decode(s, p) == Parsed(Null, p + 1)
    ensures s[p] == 0xFF ==> Decode(s, p) == Parsed(End, p + 1)
    ensures s[p] == 0x01 ==> Decode(s, p) == Parsed(Int8(Low8(ReadInt(At(s, p + 1)))), Min(p + 2, |s|))
    ensures s[p] == 0x02 ==>
      Decode(s, p) == Parsed(Int16(Combine16(At(s, p + 1), At(s, p + 2))), Min(p + 3, |s|))
  {
  }

  lemma HalfRoundTrip(h: Half)
    ensures var bs := ShortBytes(h); Combine16(Some(bs[0]), Some(bs[1])) == h
  {
  }

  lemma ByteRoundTrip(b: Byte)
    ensures Low8(ReadInt(Some(b))) == b
  {
  }

  /** The encodings of `Null`, `Int8`, `Int16` and `End` read back. */
  lemma ShortFrom(s: seq<Byte>, p: nat, e: seq<Byte>, t: Tagged)
    requires t.Null? || t.Int8? || t.Int16? || t.End?
    requires |e| >= 1 && e[0] == Id(t)
    requires t.Null? || t.End? ==> |e| == 1
    requires t.Int8? ==> e == [0x01, t.b]
    requires t.Int16? ==> |e| == 3 && e[1..] == ShortBytes(t.h)
    requires p + |e| <= |s| && s[p..p + |e|] == e
    ensures Decode(s, p) == Parsed(t, p + |e|)
  {
    ReadsEncoding(s, p, e);
    ShortTags(s, p);
    match t
    case Int8(b) => ByteRoundTrip(b);
    case Int16(h) =>
      assert e[1] == ShortBytes(h)[0] && e[2] == ShortBytes(h)[1];
      HalfRoundTrip(h);
    case _ =>
  }

  lemma DecodeShortEncoding(s: seq<Byte>, p: nat, t: Tagged)
    requires t.Null? || t.Int8? || t.Int16? || t.End?
    requires p + |Encode(t)| <= |s| && s[p..p + |Encode(t)|] == Encode(t)
    ensures Decode(s, p) == Parsed(t, p + |Encode(t)|)
  {
    EncodingWidths(t);
    if t.Int16? {
      assert Encode(t)[1..] == ShortBytes(t.h);
    }
    ShortFrom(s, p, Encode(t), t);
  }

  /** `readTagged` after `writeTaggedBinary`: an encoding laid anywhere in a stream is read
      back as the value it encodes, and the stream is left just after it. */
  lemma DecodeEncode(s: seq<Byte>, p: nat, t: Tagged)
    requires Fits(t)
    requires p + |Encode(t)| <= |s| && s[p..p + |Encode(t)|] == Encode(t)
    ensures Decode(s, p) == Parsed(t, p + |Encode(t)|)
  {
    EncodingWidths(t);
    if t.Int32? || t.Value? {
      DecodeWordEncoding(s, p, t);
    } else if t.Int64? {
      DecodeLongEncoding(s, p, t.d);
    } else if t.Int128? {
      DecodeUuidEncoding(s, p, t.hi, t.lo);
    } else if t.Bytes? {
      DecodeBytesEncoding(s, p, t.data);
    } else {
      DecodeShortEncoding(s, p, t);
    }
  }

  /** The same on a stream holding exactly one encoding. */
  lemma DecodeEncoded(t: Tagged)
    requires Fits(t)
    ensures Decode(Encode(t), 0) == Parsed(t, |Encode(t)|)
  {
    DecodeEncode(Encode(t), 0, t);
  }

  lemma {:induction false} EncodeAllAppend(ts: seq<Tagged>, us: seq<Tagged>)
    ensures EncodeAll(ts + us) == EncodeAll(ts) + EncodeAll(us)
    decreases |ts|
  {
    if ts == [] {
      assert ts + us == us;
    } else {
      assert (ts + us)[0] == ts[0] && (ts + us)[1..] == ts[1..] + us;
      EncodeAllAppend(ts[1..], us);
    }
  }

  /** Reading a `toBytes` stream element by element: the `i`-th read starts where the
      encodings of the first `i` elements end, returns the `i`-th element and stops where
      the next one starts. */
  lemma DecodeEach(ts: seq<Tagged>, i: nat)
    requires i < |ts|
    requires forall j :: 0 <= j < |ts| ==> Fits(ts[j])
    ensures |EncodeAll(ts[..i])| <= |EncodeAll(ts)|
    ensures Decode(EncodeAll(ts), |EncodeAll(ts[..i])|) == Parsed(ts[i], |EncodeAll(ts[..i + 1])|)
  {
    var pre, mid, post := EncodeAll(ts[..i]), Encode(ts[i]), EncodeAll(ts[i + 1..]);
    EncodeAround(ts, i);
    EncodePrefix(ts, i);
    Middle(pre, mid, post);
    assert Fits(ts[i]);
    DecodeEncode(pre + (mid + post), |pre|, ts[i]);
  }

  /** A `toBytes` stream is the encodings before element `i`, then its own, then the rest. */
  lemma EncodeAround(ts: seq<Tagged>, i: nat)
    requires i < |ts|
    ensures EncodeAll(ts) == EncodeAll(ts[..i]) + (Encode(ts[i]) + EncodeAll(ts[i + 1..]))
  {
    TakeDrop(ts, i);
    EncodeAllAppend(ts[..i], ts[i..]);
    EncodeAllFirst(ts[i..]);
  }

  lemma TakeDrop(ts: seq<Tagged>, i: nat)
    requires i < |ts|
    ensures ts[..i] + ts[i..] == ts && ts[i..][0] == ts[i] && ts[i..][1..] == ts[i + 1..]
  {
  }

  lemma EncodeAllFirst(ts: seq<Tagged>)
    requires |ts| > 0
    ensures EncodeAll(ts) == Encode(ts[0]) + EncodeAll(ts[1..])
  {
  }

  /** The encodings of the first `i + 1` elements end with that of element `i`. */
  lemma EncodePrefix(ts: seq<Tagged>, i: nat)
    requires i < |ts|
    ensures EncodeAll(ts[..i + 1]) == EncodeAll(ts[..i]) + Encode(ts[i])
  {
    assert ts[..i + 1] == ts[..i] + [ts[i]];
    EncodeAllSnoc(ts[..i], ts[i]);
  }

  /** The middle part of a concatenation of three. */
  lemma Middle(a: seq<Byte>, b: seq<Byte>, c: seq<Byte>)
    ensures (a + (b + c))[|a|..|a| + |b|] == b
  {
    assert (a + (b + c))[|a|..] == b + c;
  }

  // ---------------------------------------------------------------- error paths and edges

  /** A byte array longer than `0x1024` is refused with its length. */
  lemma TooBigRefused(s: seq<Byte>, p: nat, n: nat)
    requires MAX_BYTES < n < 0x8000_0000
    requires p + 5 <= |s| && s[p..p + 5] == [0x06] + SizeBytes(n)
    ensures Decode(s, p) == TooBig(n)
  {
    assert ([0x06 as Byte] + SizeBytes(n))[1..] == SizeBytes(n);
    Within(s, p, [0x06 as Byte] + SizeBytes(n), 1, 5);
    assert s[p] == 0x06;
    LengthAt(s, p + 1, n);
  }

  /** A size field whose top byte has bit 7 set is a negative `Int`, refused as an array
      size; the least such length is `-2^31`. */
  lemma NegativeRefused(s: seq<Byte>, p: nat)
    requires p + 5 <= |s| && s[p] == 0x06 && s[p + 4] as int >= 0x80
    ensures Decode(s, p).NegativeSize? && Decode(s, p).len >= -0x8000_0000
  {
    BytesTag(s, p);
    HighLength(s[p + 1], s[p + 2], s[p + 3], s[p + 4]);
  }

  /** Four bytes whose last has bit 7 set compose to a negative `Int`. */
  lemma HighLength(b1: Byte, b2: Byte, b3: Byte, b4: Byte)
    requires b4 as int >= 0x80
    ensures -0x8000_0000 <= LengthOf(Some(b1), Some(b2), Some(b3), Some(b4)) < 0
  {
    ByteRange(b1);
    ByteRange(b2);
    ByteRange(b3);
    ByteRange(b4);
  }

  lemma ByteRange(b: Byte)
    ensures 0 <= b as int < 0x100
  {
  }

  /** A stream that ends inside the size field reads a negative length too. */
  lemma TruncatedSize()
    ensures Decode([0x06], 0) == NegativeSize(-1)
    ensures Decode([0x06, 0x05], 0) == NegativeSize(5 - 0x100)
  {
    BytesTag([0x06], 0);
    BytesTag([0x06, 0x05], 0);
  }

  /** A byte array longer than what is left of the stream keeps its length, with the missing
      bytes zero, and the stream is left at its end. */
  lemma ShortArray(s: seq<Byte>, p: nat, n: nat, rest: seq<Byte>)
    requires |rest| < n <= MAX_BYTES
    requires p + 5 + |rest| == |s| && s[p..p + 5] == [0x06] + SizeBytes(n) && s[p + 5..] == rest
    ensures Decode(s, p) == Parsed(Bytes(rest + Zeros(n - |rest|)), |s|)
  {
    assert ([0x06 as Byte] + SizeBytes(n))[1..] == SizeBytes(n);
    Within(s, p, [0x06 as Byte] + SizeBytes(n), 1, 5);
    assert s[p] == s[p..p + 5][0];
    LengthAt(s, p + 1, n);
    BytesTag(s, p);
    CutShort(s, p + 1, n, rest);
  }

  /** The `Bytes` case after a length `n` that runs past the end of the stream. */
  lemma CutShort(s: seq<Byte>, q: nat, n: nat, rest: seq<Byte>)
    requires |rest| < n <= MAX_BYTES
    requires LengthOf(At(s, q), At(s, q + 1), At(s, q + 2), At(s, q + 3)) == n
    requires q + 4 + |rest| == |s| && s[q + 4..] == rest
    ensures DecodeBytes(s, q) == Parsed(Bytes(rest + Zeros(n - |rest|)), |s|)
  {
    assert Min(q + 4, |s|) == q + 4 && Min(q + 4 + n, |s|) == |s|;
    assert s[q + 4..|s|] == rest;
  }

  /** Reads past the end of the stream are `-1`, whose bits fill the rest of the value. */
  lemma TruncatedPayloads()
    ensures Decode([0x03], 0) == Parsed(Int32(0xFFFF_FFFF), 1)
    ensures Decode([0x03, 0x12], 0) == Parsed(Int32(0xFFFF_FF12), 2)
    ensures Decode([0x01], 0) == Parsed(Int8(0xFF), 1)
    ensures Decode([0x02, 0x34], 0) == Parsed(Int16(0xFF34), 2)
  {
  }

  /** An id byte that names no variant (0x07, 0xFF, or any above 0x08) reads as `End`
      and consumes only itself; at the end of the stream `End` consumes nothing. */
  lemma UnknownTagIsEnd(s: seq<Byte>, p: nat)
    requires p <= |s|
    requires p < |s| ==> s[p] == 0x07 || s[p] > 0x08
    ensures Decode(s, p) == Parsed(End, if p < |s| then p + 1 else p)
  {
  }

  // ---------------------------------------------------------------- streams

  /** A `ByteArrayOutputStream`: the bytes written so far. */
  class Writer {
    var out: seq<Byte>

    constructor ()
      ensures out == []
    {
      out := [];
    }

    /** `write(b)`. */
    method Write(b: Byte)
      modifies this
      ensures out == old(out) + [b]
    {
      out := out + [b];
    }

    /** `write(array)`. */
    method WriteArray(bs: seq<Byte>)
      modifies this
      ensures out == old(out) + bs
    {
      out := out + bs;
    }

    method WriteShort(h: Half)
      modifies this
      ensures out == old(out) + ShortBytes(h)
    {
      ghost var before := out;
      Write((h & 0xFF) as Byte);
      Write((h >> 8) as Byte);
      Appended2(before, (h & 0xFF) as Byte, (h >> 8) as Byte);
    }

    method WriteInt(w: Word)
      modifies this
      ensures out == old(out) + IntBytes(w)
    {
      ghost var before := out;
      Write(Low8(w));
      Write(Low8(w >> 8));
      Write(Low8(w >> 16));
      Write(Low8(w >> 24));
      Appended4(before, Low8(w), Low8(w >> 8), Low8(w >> 16), Low8(w >> 24));
    }

    method WriteLong(d: Dword)
      modifies this
      ensures out == old(out) + LongBytes(d)
    {
      ghost var before := out;
      Write(LongByte(d));
      Write(LongByte(d >> 8));
      Write(LongByte(d >> 16));
      Write(LongByte(d >> 24));
      Write(LongByte(d >> 32));
      Write(LongByte(d >> 40));
      Write(LongByte(d >> 48));
      Write(LongByte(d >> 56));
      Appended8(before, LongByte(d), LongByte(d >> 8), LongByte(d >> 16), LongByte(d >> 24),
        LongByte(d >> 32), LongByte(d >> 40), LongByte(d >> 48), LongByte(d >> 56));
    }

    /** The four size bytes of an array of `n` elements. */
    method WriteSize(n: nat)
      modifies this
      ensures out == old(out) + SizeBytes(n)
    {
      ghost var before := out;
      Write(ByteOf(n));
      Write(ByteOf(n / 0x100));
      Write(ByteOf(n / 0x1_0000));
      Write(ByteOf(n / 0x100_0000));
      Appended4(before, ByteOf(n), ByteOf(n / 0x100), ByteOf(n / 0x1_0000), ByteOf(n / 0x100_0000));
    }

    /** The `when` of `writeTaggedBinary`: the payload of `t`. */
    method WritePayload(t: Tagged)
      modifies this
      ensures out == old(out) + Payload(t)
    {
      match t
      case Null =>
        assert out + [] == out;
      case Int8(b) =>
        Write(b);
      case Int16(h) =>
        WriteShort(h);
      case Int32(w) =>
        WriteInt(w);
      case Int64(d) =>
        WriteLong(d);
      case Int128(hi, lo) =>
        ghost var before := out;
        WriteLong(lo);
        WriteLong(hi);
        Associative(before, LongBytes(lo), LongBytes(hi));
      case Bytes(data) =>
        ghost var before := out;
        WriteSize(|data|);
        WriteArray(data);
        Associative(before, SizeBytes(|data|), data);
      case Value(handle) =>
        WriteInt(handle);
      case End =>
        assert out + [] == out;
    }

    /** `writeTaggedBinary(t)`. */
    method WriteTagged(t: Tagged)
      modifies this
      ensures out == old(out) + Encode(t)
    {
      ghost var before := out;
      Write(Id(t));
      WritePayload(t);
      Associative(before, [Id(t)], Payload(t));
    }
  }

  lemma {:induction false} EncodeAllSnoc(ts: seq<Tagged>, t: Tagged)
    ensures EncodeAll(ts + [t]) == EncodeAll(ts) + Encode(t)
  {
    EncodeAllAppend(ts, [t]);
    assert EncodeAll([t]) == Encode(t) + EncodeAll([]);
  }

  /** `List.toBytes`: a fresh stream with every element written in turn. */
  method ToBytes(ts: seq<Tagged>) returns (r: seq<Byte>)
    ensures r == EncodeAll(ts)
  {
    var w := new Writer();
    for i := 0 to |ts|
      invariant w.out == EncodeAll(ts[..i])
    {
      w.WriteTagged(ts[i]);
      EncodeAllSnoc(ts[..i], ts[i]);
      assert ts[..i + 1] == ts[..i] + [ts[i]];
    }
    assert ts[..|ts|] == ts;
    r := w.out;
  }

  /** A read after a position that stopped at the end reads what an unclamped one would. */
  lemma Clamped1(s: seq<Byte>, p: nat)
    requires p <= |s|
    ensures At(s, Min(p + 1, |s|)) == At(s, p + 1)
    ensures Min(Min(p + 1, |s|) + 1, |s|) == Min(p + 2, |s|)
  {
  }

  /** Four reads after a position that stopped at the end read what unclamped ones would. */
  lemma Clamped4(s: seq<Byte>, p: nat)
    requires p <= |s|
    ensures At(s, Min(p + 4, |s|)) == At(s, p + 4) && At(s, Min(p + 4, |s|) + 1) == At(s, p + 5)
    ensures At(s, Min(p + 4, |s|) + 2) == At(s, p + 6) && At(s, Min(p + 4, |s|) + 3) == At(s, p + 7)
    ensures Min(Min(p + 4, |s|) + 4, |s|) == Min(p + 8, |s|)
  {
  }

  /** A `ByteArrayInputStream` over `data`: the read position moves forward and stops at the
      end. */
  class Reader {
    const data: seq<Byte>
    var pos: nat

    ghost predicate Valid()
      reads this
    {
      pos <= |data|
    }

    constructor (data: seq<Byte>)
      ensures this.data == data && pos == 0 && Valid()
    {
      this.data := data;
      pos := 0;
    }

    /** `read()`: the next byte, or end of stream. */
    method Read() returns (r: Option<Byte>)
      requires Valid()
      modifies this
      ensures Valid()
      ensures r == At(data, old(pos)) && pos == Min(old(pos) + 1, |data|)
    {
      if pos < |data| {
        r := Some(data[pos]);
        pos := pos + 1;
      } else {
        r := None;
      }
    }

    /** `read(array)` into a zeroed array of `len` bytes: the bytes copied in are what is
        left of the stream, up to `len`. */
    method ReadInto(len: nat) returns (got: seq<Byte>)
      requires Valid()
      modifies this
      ensures Valid()
      ensures got == data[old(pos)..Min(old(pos) + len, |data|)] && pos == Min(old(pos) + len, |data|)
    {
      var end := Min(pos + len, |data|);
      got := data[pos..end];
      pos := end;
    }

    /** Four `read()` calls. */
    method ReadQuad() returns (r0: Option<Byte>, r1: Option<Byte>, r2: Option<Byte>, r3: Option<Byte>)
      requires Valid()
      modifies this
      ensures Valid()
      ensures r0 == At(data, old(pos)) && r1 == At(data, old(pos) + 1)
      ensures r2 == At(data, old(pos) + 2) && r3 == At(data, old(pos) + 3)
      ensures pos == Min(old(pos) + 4, |data|)
    {
      r0 := Read();
      r1 := Read();
      r2 := Read();
      r3 := Read();
    }

    method ReadWord() returns (w: Word)
      requires Valid()
      modifies this
      ensures Valid()
      ensures w == Word4(data, old(pos)) && pos == Min(old(pos) + 4, |data|)
    {
      var r0, r1, r2, r3 := ReadQuad();
      w := Combine32(r0, r1, r2, r3);
    }

    method ReadDword() returns (d: Dword)
      requires Valid()
      modifies this
      ensures Valid()
      ensures d == Long8(data, old(pos)) && pos == Min(old(pos) + 8, |data|)
    {
      ghost var p := pos;
      var r0, r1, r2, r3 := ReadQuad();
      var r4, r5, r6, r7 := ReadQuad();
      Clamped4(data, p);
      d := Combine64(r0, r1, r2, r3, r4, r5, r6, r7);
    }

    /** The four reads of a byte array length. */
    method ReadLength() returns (len: int)
      requires Valid()
      modifies this
      ensures Valid()
      ensures len == LengthOf(At(data, old(pos)), At(data, old(pos) + 1), At(data, old(pos) + 2), At(data, old(pos) + 3))
      ensures pos == Min(old(pos) + 4, |data|)
    {
      var r0, r1, r2, r3 := ReadQuad();
      len := LengthOf(r0, r1, r2, r3);
    }

    /** The `Bytes` case after its id. */
    method ReadBytes() returns (r: Parse)
      requires Valid()
      modifies this
      ensures Valid()
      ensures r == DecodeBytes(data, old(pos))
      ensures r.Parsed? ==> pos == r.next
      ensures !r.Parsed? ==> pos == Min(old(pos) + 4, |data|)
    {
      var len := ReadLength();
      if len > MAX_BYTES {
        r := TooBig(len);
      } else if len < 0 {
        r := NegativeSize(len);
      } else {
        var got := ReadInto(len);
        r := Parsed(Bytes(got + Zeros(len - |got|)), pos);
      }
    }

    /** The cases of the `when` of `readTagged` with at most two reads. */
    method ReadShortPayload(tag: Byte) returns (r: Parse)
      requires Valid() && tag <= 0x02
      modifies this
      ensures Valid()
      ensures r == ShortPayload(data, tag, old(pos)) && pos == r.next
    {
      if tag == 0x00 {
        r := Parsed(Null, pos);
      } else if tag == 0x01 {
        var v := Read();
        r := Parsed(Int8(Low8(ReadInt(v))), pos);
      } else {
        ghost var p := pos;
        var v0 := Read();
        var v1 := Read();
        Clamped1(data, p);
        r := Parsed(Int16(Combine16(v0, v1)), pos);
      }
    }

    /** The cases of the `when` of `readTagged` that compose `Int`s and `Long`s. */
    method ReadWidePayload(tag: Byte) returns (r: Parse)
      requires Valid() && (0x03 <= tag <= 0x05 || tag == 0x08)
      modifies this
      ensures Valid()
      ensures r == WidePayload(data, tag, old(pos)) && pos == r.next
    {
      if tag == 0x03 {
        var w := ReadWord();
        r := Parsed(Int32(w), pos);
      } else if tag == 0x04 {
        var d := ReadDword();
        r := Parsed(Int64(d), pos);
      } else if tag == 0x05 {
        var lo := ReadDword();
        var hi := ReadDword();
        r := Parsed(Int128(hi, lo), pos);
      } else {
        var w := ReadWord();
        r := Parsed(Value(w), pos);
      }
    }

    /** The `when` of `readTagged` on the id `tag`. */
    method ReadPayload(tag: Byte) returns (r: Parse)
      requires Valid()
      modifies this
      ensures Valid()
      ensures r == DecodePayload(data, tag, old(pos))
      ensures r.Parsed? ==> pos == r.next
      ensures !r.Parsed? ==> pos == Min(old(pos) + 4, |data|)
    {
      if tag <= 0x02 {
        r := ReadShortPayload(tag);
      } else if 0x03 <= tag <= 0x05 || tag == 0x08 {
        r := ReadWidePayload(tag);
      } else if tag == 0x06 {
        r := ReadBytes();
      } else {
        r := Parsed(End, pos);
      }
    }

    /** `readTagged()`: the value of `Decode`; on success the stream is left just after it,
        and on a refused length just after the size field. */
    method ReadTagged() returns (r: Parse)
      requires Valid()
      modifies this
      ensures Valid()
      ensures r == Decode(data, old(pos))
      ensures r.Parsed? ==> pos == r.next
      ensures !r.Parsed? ==> pos == Min(old(pos) + 5, |data|)
    {
      var tag := Read();
      if tag.None? {
        r := Parsed(End, pos);
      } else {
        r := ReadPayload(tag.value);
      }
    }
  }
}
