/** The wire codec: shard frames, router frames and the flat field array (internal/protocol/frame.go). */
module Frame {
  import opened GoBytes

  const MAGIC: byte := 0xFF
  const ROUTER_MAGIC: byte := 0xFE

  datatype Header = Header(clrID: u32, status: bytes, fieldCount: u16)

  datatype Field = Field(id: u16, fieldType: byte, data: bytes)

  datatype RawResult = RawResult(status: bytes, fields: seq<Field>)

  /** A buffer a builder filled, or the run-time panic of an index outside a buffer that came out too short. */
  datatype Buffer = Panic | Filled(data: bytes)

  // ---------- building frames ----------

  /**
   * `copy` into a buffer at `offset`, and equally `binary.LittleEndian.PutUint32` of the bytes of a word.
   * `done` is what the buffer holds before `offset`.
   */
  method Put(buf: array<byte>, offset: nat, data: bytes, ghost done: bytes)
    requires offset + |data| <= buf.Length && buf[..offset] == done
    modifies buf
    ensures buf[..offset + |data|] == done + data
    ensures forall i | offset + |data| <= i < buf.Length :: buf[i] == old(buf[i])
  {
    forall i | 0 <= i < |data| {
      buf[offset + i] := data[i];
    }
  }

  /** The standalone frame: magic, id, payload length, payload. */
  function WireFrame(clrID: u32, payload: bytes): bytes {
    [MAGIC] + LE(clrID, 4) + LE(|payload|, 4) + payload
  }

  /** Lengths are 32-bit: the allocation is `9 + len` modulo 2^32, and `copy` stops at the end of the allocation. */
  function HeaderFrame(clrID: u32, payload: bytes): Buffer {
    var size := ToU32(9 + |payload|);
    if size < 9 then Panic else Filled(WireFrame(clrID, payload)[..size])
  }

  /** The shard part of both builders: magic, id, length, and as much payload as the buffer has room for. */
  method PutShard(buf: array<byte>, offset: nat, clrID: u32, payload: bytes, ghost done: bytes)
    requires offset + 9 <= buf.Length <= offset + 9 + |payload| && buf[..offset] == done
    modifies buf
    ensures buf[..] == done + WireFrame(clrID, payload)[..buf.Length - offset]
  {
    hide LE, FromLE, U16, U32, ToU32;
    LEWraps(|payload|);
    Put(buf, offset, [MAGIC], done);
    Put(buf, offset + 1, LE(clrID, 4), done + [MAGIC]);
    Put(buf, offset + 5, LE(ToU32(|payload|), 4), done + [MAGIC] + LE(clrID, 4));
    var n := buf.Length - offset - 9;
    ghost var head := [MAGIC] + LE(clrID, 4) + LE(|payload|, 4);
    assert done + [MAGIC] + LE(clrID, 4) + LE(|payload|, 4) == done + head;
    Put(buf, offset + 9, payload[..n], done + head);
    assert WireFrame(clrID, payload)[..9 + n] == head + payload[..n];
    assert buf[..offset + 9 + n] == buf[..];
  }

  method PrependHeader(clrID: u32, payload: bytes) returns (frame: Buffer)
    ensures frame == HeaderFrame(clrID, payload)
  {
    hide LE, FromLE, U16, U32, ToU32, ToByte;
    var totalLen: u32 := ToU32(|payload|);
    var size: u32 := ToU32(9 + totalLen);
    Wrap(9, |payload|);
    if size < 9 {
      return Panic;
    }
    var out := new byte[size](_ => 0);
    PutShard(out, 0, clrID, payload, []);
    return Filled(out[..]);
  }

  /** A sum of wrapped lengths is the wrapped sum. */
  lemma Wrap(a: nat, b: nat)
    ensures ToU32(a + ToU32(b)) == ToU32(a + b)
  {
    var q := b / TWO_32;
    assert a + b == a + b % TWO_32 + TWO_32 * q;
  }

  lemma LEWraps(n: nat)
    ensures LE(ToU32(n), 4) == LE(n, 4)
  {
    var m := ToU32(n);
    var q := n / TWO_32;
    assert n == m + TWO_32 * q;
    assert n / 0x100 == m / 0x100 + 0x100_0000 * q;
    assert n / 0x100 / 0x100 == m / 0x100 / 0x100 + 0x1_0000 * q;
    assert n / 0x100 / 0x100 / 0x100 == m / 0x100 / 0x100 / 0x100 + 0x100 * q;
    LEDigits(m);
    LEDigits(n);
  }

  lemma LEDigits(n: nat)
    ensures LE(n, 4) ==
            [ToByte(n), ToByte(n / 0x100), ToByte(n / 0x100 / 0x100), ToByte(n / 0x100 / 0x100 / 0x100)]
  {
    assert LE(n / 0x100 / 0x100 / 0x100, 1) == [ToByte(n / 0x100 / 0x100 / 0x100)];
    assert LE(n / 0x100 / 0x100, 2) == [ToByte(n / 0x100 / 0x100)] + LE(n / 0x100 / 0x100 / 0x100, 1);
    assert LE(n / 0x100, 3) == [ToByte(n / 0x100)] + LE(n / 0x100 / 0x100, 2);
  }

  /** The built frame carries the whole payload exactly when the 32-bit lengths do not wrap. */
  lemma HeaderFrameFaithful(clrID: u32, payload: bytes)
    ensures HeaderFrame(clrID, payload) == Filled(WireFrame(clrID, payload)) <==> |payload| + 9 < TWO_32
  {
    var f := WireFrame(clrID, payload);
    assert |f| == 9 + |payload|;
    assert f[..|f|] == f;
  }

  /** Where the parts of a frame lie, whatever follows it. */
  lemma WireParts(clrID: u32, payload: bytes, rest: bytes)
    requires |payload| < TWO_32
    ensures var s := WireFrame(clrID, payload) + rest;
            && |s| == 9 + |payload| + |rest| && s[0] == MAGIC
            && U32(s[1..5]) == clrID && U32(s[5..9]) == |payload|
            && s[9..9 + |payload|] == payload && s[9 + |payload|..] == rest
  {
    hide LE, FromLE, U16, U32, ToU32, ToByte;
    var s := WireFrame(clrID, payload) + rest;
    assert s[1..5] == LE(clrID, 4) && s[5..9] == LE(|payload|, 4);
    U32RoundTrip(clrID, s[1..5]);
    U32RoundTrip(|payload|, s[5..9]);
  }

  // ---------- building router frames ----------

  function Flag(isWrite: bool): byte {
    if isWrite then 1 else 0
  }

  function RouterHead(segment: bytes, isWrite: bool, after: nat): (head: bytes)
    ensures |head| == 7 + |segment|
  {
    [ROUTER_MAGIC] + LE(after, 4) + [ToByte(|segment|)] + segment + [Flag(isWrite)]
  }

  function RouterFrame(segment: bytes, isWrite: bool, clrID: u32, payload: bytes): (f: bytes)
    ensures |f| == 16 + |segment| + |payload|
  {
    RouterHead(segment, isWrite, 11 + |segment| + |payload|) + WireFrame(clrID, payload)
  }

  lemma RouterFramePrefix(segment: bytes, isWrite: bool, clrID: u32, payload: bytes, size: nat)
    requires 16 + |segment| <= size <= 16 + |segment| + |payload|
    ensures RouterHead(segment, isWrite, 11 + |segment| + |payload|)
            + WireFrame(clrID, payload)[..size - 7 - |segment|]
         == RouterFrame(segment, isWrite, clrID, payload)[..size]
  {
    hide LE, FromLE, U16, U32, ToByte;
  }

  /** The same wrap-around for router frames: sixteen header bytes, the segment and the payload. */
  function RouterBuffer(segment: bytes, isWrite: bool, clrID: u32, payload: bytes): Buffer {
    var size := ToU32(16 + |segment| + |payload|);
    if size < 16 + |segment| then Panic else Filled(RouterFrame(segment, isWrite, clrID, payload)[..size])
  }

  lemma RouterLengths(segmentLen: nat, payloadLen: nat)
    ensures var shard := ToU32(9 + ToU32(payloadLen));
            var header := ToU32(1 + segmentLen + 1);
            && ToU32(1 + 4 + header + shard) == ToU32(16 + segmentLen + payloadLen)
            && ToU32(header + shard) == ToU32(11 + segmentLen + payloadLen)
  {
    hide ToU32;
    var header: nat := ToU32(1 + segmentLen + 1);
    Wrap(9, payloadLen);
    Wrap(header, 9 + payloadLen);
    Wrap(9 + payloadLen, 1 + segmentLen + 1);
    Wrap(5 + header, 9 + payloadLen);
    Wrap(14 + payloadLen, 1 + segmentLen + 1);
  }

  method PutRouterHead(buf: array<byte>, after: u32, segment: bytes, isWrite: bool)
    requires 7 + |segment| <= buf.Length
    modifies buf
    ensures buf[..7 + |segment|] == RouterHead(segment, isWrite, after)
    ensures forall i | 7 + |segment| <= i < buf.Length :: buf[i] == old(buf[i])
  {
    hide LE, FromLE, U16, U32, ToByte;
    var offset := 0;
    Put(buf, offset, [ROUTER_MAGIC], []);
    offset := offset + 1;
    ghost var done := [ROUTER_MAGIC];
    Put(buf, offset, LE(after, 4), done);
    offset, done := offset + 4, done + LE(after, 4);
    Put(buf, offset, [ToByte(|segment|)], done);
    offset, done := offset + 1, done + [ToByte(|segment|)];
    Put(buf, offset, segment, done);
    offset, done := offset + |segment|, done + segment;
    if isWrite {
      Put(buf, offset, [0x01], done);
    } else {
      Put(buf, offset, [0x00], done);
    }
  }

  method PrependRouterHeader(segment: bytes, isWrite: bool, clrID: u32, payload: bytes) returns (frame: Buffer)
    ensures frame == RouterBuffer(segment, isWrite, clrID, payload)
  {
    hide LE, FromLE, U16, U32, ToU32, ToByte, RouterFrame, WireFrame;
    var shardTotalLen: u32 := ToU32(|payload|);
    var shardFrameLen: u32 := ToU32(9 + shardTotalLen);
    var segmentLen := |segment|;
    var routerHeaderLen: u32 := ToU32(1 + segmentLen + 1);
    var totalLen: u32 := ToU32(1 + 4 + routerHeaderLen + shardFrameLen);
    RouterLengths(segmentLen, |payload|);
    // the last header word ends at 16 + segmentLen; a shorter buffer panics on the way there
    if totalLen < 16 + segmentLen {
      return Panic;
    }
    var out := new byte[totalLen](_ => 0);
    LEWraps(11 + segmentLen + |payload|);
    PutRouterHead(out, ToU32(routerHeaderLen + shardFrameLen), segment, isWrite);
    ghost var head := RouterHead(segment, isWrite, 11 + segmentLen + |payload|);
    PutShard(out, 7 + segmentLen, clrID, payload, head);
    RouterFramePrefix(segment, isWrite, clrID, payload, totalLen);
    return Filled(out[..]);
  }

  /**
   * Within the size bound the single-allocation fill is the router header in front of the shard frame that
   * `PrependHeader` builds, and its length word counts exactly the bytes that follow it.
   */
  lemma RouterRefinesConcatenation(segment: bytes, isWrite: bool, clrID: u32, payload: bytes)
    requires |segment| <= 255 && |payload| <= TWO_32 - 17 - |segment|
    ensures var shard := WireFrame(clrID, payload);
            var after := [|segment| as byte] + segment + [Flag(isWrite)] + shard;
            && HeaderFrame(clrID, payload) == Filled(shard)
            && |after| < TWO_32
            && RouterBuffer(segment, isWrite, clrID, payload) == Filled([ROUTER_MAGIC] + LE(|after|, 4) + after)
  {
    hide LE, FromLE, U16, U32, ToU32, ToByte;
    HeaderFrameFaithful(clrID, payload);
    var f := RouterFrame(segment, isWrite, clrID, payload);
    var after := [|segment| as byte] + segment + [Flag(isWrite)] + WireFrame(clrID, payload);
    assert f == [ROUTER_MAGIC] + LE(|after|, 4) + after;
    assert f[..|f|] == f;
  }

  datatype RouterMessage = RouterMessage(segment: bytes, isWrite: bool, shard: bytes, rest: bytes)

  /** A reader of the router frame layout: magic, length of the rest, segment, write flag, shard frame. */
  function ParseRouter(s: bytes): Option<RouterMessage> {
    if |s| < 5 || s[0] != 0xFE || |s| - 5 < U32(s[1..5]) then None
    else var end := 5 + U32(s[1..5]) as int; RouterBody(s[5..end], s[end..])
  }

  function RouterBody(body: bytes, rest: bytes): Option<RouterMessage> {
    if body == [] then None else
    var n := body[0] as int;
    if |body| < n + 2 || body[n + 1] > 1 then None else
    Some(RouterMessage(body[1..n + 1], body[n + 1] == 1, body[n + 2..], rest))
  }

  /** A router reads back segment, flag and shard frame exactly when the segment length fits its one byte. */
  lemma RouterRoundTrip(segment: bytes, isWrite: bool, clrID: u32, payload: bytes, rest: bytes)
    requires |payload| + |segment| + 16 < TWO_32
    ensures RouterBuffer(segment, isWrite, clrID, payload).Filled?
    ensures (ParseRouter(RouterBuffer(segment, isWrite, clrID, payload).data + rest)
             == Some(RouterMessage(segment, isWrite, WireFrame(clrID, payload), rest))) <==> |segment| <= 255
  {
    hide LE, FromLE, U16, U32, ToByte;
    var f := RouterFrame(segment, isWrite, clrID, payload);
    assert f[..|f|] == f;
    var shard := WireFrame(clrID, payload);
    var body := [ToByte(|segment|)] + segment + [Flag(isWrite)] + shard;
    assert f + rest == [ROUTER_MAGIC] + LE(|body|, 4) + body + rest;
    RouterParts(body, rest);
    RouterBodyExact(segment, isWrite, shard, rest);
  }

  lemma RouterBodyExact(segment: bytes, isWrite: bool, shard: bytes, rest: bytes)
    ensures (RouterBody([ToByte(|segment|)] + segment + [Flag(isWrite)] + shard, rest)
             == Some(RouterMessage(segment, isWrite, shard, rest))) <==> |segment| <= 255
  {
    hide ToByte;
    var body := [ToByte(|segment|)] + segment + [Flag(isWrite)] + shard;
    Parts([ToByte(|segment|)], segment, [Flag(isWrite)], shard);
    assert body[|segment| + 1] == Flag(isWrite);
    assert body[0] == ToByte(|segment|);
  }

  lemma RouterParts(body: bytes, rest: bytes)
    requires |body| < TWO_32
    ensures ParseRouter([ROUTER_MAGIC] + LE(|body|, 4) + body + rest) == RouterBody(body, rest)
  {
    hide LE, FromLE, U16, U32, ToU32, ToByte;
    var s := [ROUTER_MAGIC] + LE(|body|, 4) + body + rest;
    Parts([ROUTER_MAGIC], LE(|body|, 4), body, rest);
    U32RoundTrip(|body|, s[1..5]);
  }

  const KEEPALIVE_SEGMENT: bytes := Ascii("__keepalive__")

  method BuildKeepaliveFrame(clrID: u32) returns (frame: bytes)
    ensures RouterBuffer(KEEPALIVE_SEGMENT, false, clrID, []) == Filled(frame)
    ensures ParseRouter(frame) == Some(RouterMessage(Ascii("__keepalive__"), false, WireFrame(clrID, []), []))
  {
    var segment := KEEPALIVE_SEGMENT;
    var segLen := |segment|;
    var totalLen := 1 + segLen + 1 + 9;
    var buf := new byte[5 + totalLen](_ => 0);
    PutRouterHead(buf, totalLen, segment, false);
    ghost var head := RouterHead(segment, false, totalLen);
    var offset := 7 + segLen;
    Put(buf, offset, [MAGIC], head);
    offset := offset + 1;
    Put(buf, offset, LE(clrID, 4), head + [MAGIC]);
    offset := offset + 4;
    // the length word of the empty payload is left as allocated
    assert buf[offset..] == [0, 0, 0, 0];
    LEDigits(0);
    frame := buf[..];
    assert frame == buf[..offset] + buf[offset..];
    assert frame == head + ([MAGIC] + LE(clrID, 4) + LE(0, 4) + []);
    RouterFramePrefix(segment, false, clrID, [], 16 + segLen);
    assert WireFrame(clrID, [])[..9] == WireFrame(clrID, []);
    RouterRoundTrip(KEEPALIVE_SEGMENT, false, clrID, [], []);
    assert frame + [] == frame;
  }

  // ---------- reading frames ----------

  datatype DrainError = Eof | UnexpectedEof | BadMagic(got: byte) | NoStatusLen | MissingStatus

  /** A connection as the bytes it will still deliver before it fails. */
  class ByteReader {
    var rest: bytes

    constructor (data: bytes)
      ensures rest == data
    {
      rest := data;
    }

    /** `io.ReadFull`: all `n` bytes, or everything that is left and an error. */
    method ReadFull(n: nat) returns (r: Result<bytes, DrainError>)
      modifies this
      ensures |old(rest)| >= n ==> r == Ok(old(rest)[..n]) && rest == old(rest)[n..]
      ensures |old(rest)| < n ==> r == Err(if old(rest) == [] then Eof else UnexpectedEof) && rest == []
    {
      if |rest| < n {
        r := Err(if rest == [] then Eof else UnexpectedEof);
        rest := [];
      } else {
        r := Ok(rest[..n]);
        rest := rest[n..];
      }
    }
  }

  datatype Drained = Drained(hdr: Header, payload: bytes)

  /** What draining one frame yields, and the bytes it leaves on the connection. */
  function Drain(s: bytes): (Result<Drained, DrainError>, bytes) {
    if |s| < 9 then (Err(if s == [] then Eof else UnexpectedEof), [])
    else if s[0] != MAGIC then (Err(BadMagic(s[0])), s[9..])
    else
      var n := U32(s[5..9]);
      if |s| - 9 < n then (Err(if |s| == 9 then Eof else UnexpectedEof), []) else
      var p, rest := s[9..9 + n], s[9 + n..];
      if |p| < 1 then (Err(NoStatusLen), rest) else
      var len := p[0] as int;
      if |p| < 1 + len + 2 then (Err(MissingStatus), rest)
      else (Ok(Drained(Header(U32(s[1..5]), p[1..1 + len], U16(p[1 + len..1 + len + 2])), p)), rest)
  }

  method DrainFrame(r: ByteReader) returns (res: Result<Drained, DrainError>)
    modifies r
    ensures (res, r.rest) == Drain(old(r.rest))
  {
    hide LE, FromLE, U16, U32, ToU32, ToByte;
    var fix := r.ReadFull(9);
    if fix.Err? {
      return Err(fix.error);
    }
    assert fix.value[1..5] == old(r.rest)[1..5] && fix.value[5..9] == old(r.rest)[5..9];
    if fix.value[0] != 0xFF {
      return Err(BadMagic(fix.value[0]));
    }
    var clrID := U32(fix.value[1..5]);
    var payloadLen := U32(fix.value[5..9]);
    var body := r.ReadFull(payloadLen);
    if body.Err? {
      return Err(body.error);
    }
    assert body.value == old(r.rest)[9..9 + payloadLen];
    var payload := body.value;
    if |payload| < 1 {
      return Err(NoStatusLen);
    }
    var statusLen := payload[0] as int;
    if |payload| < 1 + statusLen + 2 {
      return Err(MissingStatus);
    }
    var status := payload[1..1 + statusLen];
    var fieldCount := U16(payload[1 + statusLen..1 + statusLen + 2]);
    return Ok(Drained(Header(clrID, status, fieldCount), payload));
  }

  /** The start of a payload: a one-byte length, the name or status, and the number of fields. */
  function Head(name: bytes, fieldCount: nat): bytes {
    [ToByte(|name|)] + name + LE(fieldCount, 2)
  }

  /** Draining succeeds on exactly the encodings of well-headed payloads, and leaves exactly what follows them. */
  lemma DrainExact(s: bytes, hdr: Header, payload: bytes, rest: bytes)
    ensures Drain(s) == (Ok(Drained(hdr, payload)), rest) <==>
            && s == WireFrame(hdr.clrID, payload) + rest
            && |payload| < TWO_32
            && |hdr.status| < 0x100
            && Head(hdr.status, hdr.fieldCount) <= payload
  {
    hide LE, FromLE, U16, U32, ToU32, ToByte;
    if s == WireFrame(hdr.clrID, payload) + rest && |payload| < TWO_32 && |hdr.status| < 0x100
       && Head(hdr.status, hdr.fieldCount) <= payload
    {
      WireParts(hdr.clrID, payload, rest);
      HeadParts(payload, hdr.status, hdr.fieldCount);
    }
    if Drain(s) == (Ok(Drained(hdr, payload)), rest) {
      U32RoundTrip(hdr.clrID, s[1..5]);
      U32RoundTrip(|payload|, s[5..9]);
      assert s == [s[0]] + s[1..5] + s[5..9] + s[9..9 + |payload|] + s[9 + |payload|..];
      HeadParts(payload, hdr.status, hdr.fieldCount);
    }
  }

  lemma HeadParts(payload: bytes, name: bytes, fieldCount: u16)
    ensures && |name| < 0x100
            && Head(name, fieldCount) <= payload
       <==> && |payload| >= 1
            && var len := payload[0] as int;
            && |payload| >= 1 + len + 2
            && name == payload[1..1 + len] && fieldCount == U16(payload[1 + len..1 + len + 2])
  {
    hide LE, FromLE, U16, U32, ToU32, ToByte;
    if |payload| >= 1 && |payload| >= 1 + payload[0] as int + 2 {
      var len := payload[0] as int;
      U16RoundTrip(fieldCount, payload[1 + len..1 + len + 2]);
      assert payload[..3 + len] == [payload[0]] + payload[1..1 + len] + payload[1 + len..1 + len + 2];
    }
    var head := Head(name, fieldCount);
    if |name| < 0x100 && head <= payload {
      assert payload[..|head|] == head;
      assert payload[1..1 + |name|] == head[1..1 + |name|] == name;
      assert payload[1 + |name|..3 + |name|] == head[1 + |name|..3 + |name|] == LE(fieldCount, 2);
    }
  }

  // ---------- the field array ----------

  /** One field as the builders' loop writes it. */
  function FieldBytes(f: Field): bytes {
    LE(f.id, 2) + [f.fieldType] + LE(|f.data|, 4) + f.data
  }

  function FieldsBytes(fs: seq<Field>): bytes {
    if fs == [] then [] else FieldBytes(fs[0]) + FieldsBytes(fs[1..])
  }

  lemma {:induction false} FieldsBytesAppend(fs: seq<Field>, f: Field)
    ensures FieldsBytes(fs + [f]) == FieldsBytes(fs) + FieldBytes(f)
  {
    hide LE, FieldBytes;
    if fs == [] {
      assert FieldsBytes([f]) == FieldBytes(f) + FieldsBytes([]);
    } else {
      FieldsBytesAppend(fs[1..], f);
      assert (fs + [f])[1..] == fs[1..] + [f];
    }
  }

  /** The 32-bit length word holds the length of every field's data. */
  predicate Fits(fs: seq<Field>) {
    forall i | 0 <= i < |fs| :: |fs[i].data| < TWO_32
  }

  datatype FieldError = ShortHeader(index: nat) | ShortData(index: nat, need: nat, have: nat) | Extra(count: nat)

  /** Decoding `n` more fields from `d` when `i` fields have been decoded before them. */
  function Fields(d: bytes, n: nat, i: nat): Result<seq<Field>, FieldError>
    decreases n
  {
    if n == 0 then
      if d == [] then Ok([]) else Err(Extra(|d|))
    else if |d| < 7 then Err(ShortHeader(i))
    else
      var len := U32(d[3..7]);
      if |d| - 7 < len then Err(ShortData(i, len, |d| - 7))
      else After([Field(U16(d[0..2]), d[2], d[7..7 + len])], Fields(d[7 + len..], n - 1, i + 1))
  }

  /** One round of the decoding loop, standing at `offset` with `fields` decoded. */
  lemma FieldsUnfold(data: bytes, offset: nat, n: nat, i: nat, fields: seq<Field>)
    requires offset <= |data|
    ensures var r := After(fields, Fields(data[offset..], n, i));
            if n == 0 then
              r == if offset == |data| then Ok(fields) else Err(Extra(|data| - offset))
            else if offset + 7 > |data| then r == Err(ShortHeader(i))
            else
              var len := U32(data[offset + 3..offset + 7]);
              var end := offset + 7 + len;
              if end > |data| then r == Err(ShortData(i, len, |data| - offset - 7))
              else
                var f := Field(U16(data[offset..offset + 2]), data[offset + 2], data[offset + 7..end]);
                r == After(fields + [f], Fields(data[end..], n - 1, i + 1))
  {
    hide LE, FromLE, U16, U32;
    var d := data[offset..];
    if n == 0 {
      assert fields + [] == fields;
    } else if offset + 7 <= |data| {
      assert d[3..7] == data[offset + 3..offset + 7] && d[0..2] == data[offset..offset + 2];
      var end := offset + 7 + U32(d[3..7]);
      if end <= |data| {
        assert d[7..end - offset] == data[offset + 7..end] && d[end - offset..] == data[end..];
        var f := Field(U16(d[0..2]), d[2], d[7..end - offset]);
        AfterAfter(fields, [f], Fields(data[end..], n - 1, i + 1));
      }
    }
  }

  method ParseFields(data: bytes, fieldCount: u16) returns (r: Result<seq<Field>, FieldError>)
    ensures r == Fields(data, fieldCount, 0)
  {
    hide LE, FromLE, U16, U32, Fields;
    var fields: seq<Field> := [];
    var offset := 0;
    var i := 0;
    ghost var whole := Fields(data, fieldCount, 0);
    assert data[offset..] == data;
    AfterAfter([], [], whole);
    while i < fieldCount
      invariant 0 <= i <= fieldCount && 0 <= offset <= |data|
      invariant whole == After(fields, Fields(data[offset..], fieldCount - i, i))
    {
      FieldsUnfold(data, offset, fieldCount - i, i, fields);
      if offset + 7 > |data| {
        return Err(ShortHeader(i));
      }
      var id := U16(data[offset..offset + 2]);
      var fieldType := data[offset + 2];
      var length := U32(data[offset + 3..offset + 7]);
      offset := offset + 7;
      if offset + length > |data| {
        return Err(ShortData(i, length, |data| - offset));
      }
      fields := fields + [Field(id, fieldType, data[offset..offset + length])];
      offset := offset + length;
      i := i + 1;
    }
    FieldsUnfold(data, offset, 0, i, fields);
    if offset != |data| {
      return Err(Extra(|data| - offset));
    }
    return Ok(fields);
  }

  /** Decoding yields `fs` exactly on the encoding of `fs`: the two are inverse bijections. */
  lemma {:induction false} FieldsExact(d: bytes, n: nat, i: nat, fs: seq<Field>)
    ensures Fields(d, n, i) == Ok(fs) <==> |fs| == n && Fits(fs) && d == FieldsBytes(fs)
    decreases n
  {
    hide LE, FromLE, U16, U32, ToU32, ToByte;
    if n > 0 {
      FieldsFirst(d, n, i, fs);
      hide Fields, FieldBytes;
      if fs != [] {
        if |d| >= 7 && |d| - 7 >= U32(d[3..7]) {
          var rest := d[7 + U32(d[3..7])..];
          FieldsExact(rest, n - 1, i + 1, fs[1..]);
          FieldExact(d, fs[0], rest);
        }
        FitsFirst(fs);
        if Fits(fs) && d == FieldsBytes(fs) {
          FieldPrefix(d, fs[0], FieldsBytes(fs[1..]));
        }
      }
    }
  }

  lemma FieldsFirst(d: bytes, n: nat, i: nat, fs: seq<Field>)
    requires n > 0
    ensures Fields(d, n, i) == Ok(fs) <==>
            && |d| >= 7 && |d| - 7 >= U32(d[3..7]) && fs != []
            && fs[0] == Field(U16(d[0..2]), d[2], d[7..7 + U32(d[3..7])])
            && Fields(d[7 + U32(d[3..7])..], n - 1, i + 1) == Ok(fs[1..])
  {
    hide LE, FromLE, U16, U32;
    if fs != [] {
      assert fs == [fs[0]] + fs[1..];
    }
  }

  lemma FitsFirst(fs: seq<Field>)
    requires fs != []
    ensures Fits(fs) <==> |fs[0].data| < TWO_32 && Fits(fs[1..])
  {
    assert fs == [fs[0]] + fs[1..];
  }

  /** The first field read from `d` is `f` exactly when `d` is the encoding of `f` and what follows. */
  lemma FieldExact(d: bytes, f: Field, rest: bytes)
    requires |d| >= 7 && |d| - 7 >= U32(d[3..7])
    requires rest == d[7 + U32(d[3..7])..]
    ensures f == Field(U16(d[0..2]), d[2], d[7..7 + U32(d[3..7])]) <==>
            |f.data| < TWO_32 && d == FieldBytes(f) + rest
  {
    hide LE, FromLE, U16, U32, ToU32, ToByte;
    var len := U32(d[3..7]);
    U16RoundTrip(f.id, d[0..2]);
    U32RoundTrip(len, d[3..7]);
    assert d == d[0..2] + [d[2]] + d[3..7] + d[7..7 + len] + d[7 + len..];
    if |f.data| < TWO_32 && d == FieldBytes(f) + rest {
      FieldPrefix(d, f, rest);
    }
  }

  lemma FieldPrefix(d: bytes, f: Field, rest: bytes)
    requires |f.data| < TWO_32 && d == FieldBytes(f) + rest
    ensures |d| >= 7 && U32(d[3..7]) == |f.data| && |d| - 7 >= |f.data|
    ensures d[0..2] == LE(f.id, 2) && d[2] == f.fieldType && d[7..7 + |f.data|] == f.data
    ensures d[7 + |f.data|..] == rest
  {
    hide LE, FromLE, U16, U32, ToU32, ToByte;
    assert d[3..7] == LE(|f.data|, 4);
    U32RoundTrip(|f.data|, d[3..7]);
  }

  /** Of two accepted inputs for one count neither properly extends the other. */
  lemma FieldsPrefixFree(d: bytes, more: bytes, n: nat)
    requires Fields(d, n, 0).Ok? && Fields(d + more, n, 0).Ok?
    ensures more == []
  {
    FieldsExact(d, n, 0, Fields(d, n, 0).value);
    FieldsExact(d + more, n, 0, Fields(d + more, n, 0).value);
    SameCountSameBytes(Fields(d, n, 0).value, Fields(d + more, n, 0).value, more);
  }

  lemma {:induction false} SameCountSameBytes(fs: seq<Field>, gs: seq<Field>, more: bytes)
    requires |fs| == |gs| && Fits(fs) && Fits(gs)
    requires FieldsBytes(gs) == FieldsBytes(fs) + more
    ensures more == [] && fs == gs
  {
    if fs != [] {
      var d := FieldsBytes(gs);
      assert d == FieldBytes(fs[0]) + (FieldsBytes(fs[1..]) + more);
      FieldPrefix(d, fs[0], FieldsBytes(fs[1..]) + more);
      FieldPrefix(d, gs[0], FieldsBytes(gs[1..]));
      U16RoundTrip(fs[0].id, LE(fs[0].id, 2));
      U16RoundTrip(gs[0].id, LE(gs[0].id, 2));
      SameCountSameBytes(fs[1..], gs[1..], more);
      assert fs == [fs[0]] + fs[1..] && gs == [gs[0]] + gs[1..];
    }
  }

  // ---------- payloads and streams ----------

  /** A request or response payload: the two have the same shape. */
  function Payload(name: bytes, fields: seq<Field>): bytes {
    Head(name, |fields|) + FieldsBytes(fields)
  }

  datatype Message = Message(clrID: u32, name: bytes, fields: seq<Field>)

  predicate WellFormed(m: Message) {
    |m.name| < 0x100 && |m.fields| < 0x1_0000 && Fits(m.fields) && |Payload(m.name, m.fields)| + 9 < TWO_32
  }

  function Wire(m: Message): bytes {
    WireFrame(m.clrID, Payload(m.name, m.fields))
  }

  /** Build, frame, drain and parse: nothing is lost and nothing after the frame is touched. */
  lemma MessageRoundTrip(m: Message, rest: bytes)
    requires WellFormed(m)
    ensures HeaderFrame(m.clrID, Payload(m.name, m.fields)) == Filled(Wire(m))
    ensures var payload := Payload(m.name, m.fields);
            && Drain(Wire(m) + rest) == (Ok(Drained(Header(m.clrID, m.name, |m.fields|), payload)), rest)
            && Fields(payload[1 + |m.name| + 2..], |m.fields|, 0) == Ok(m.fields)
  {
    hide LE, FromLE, U16, U32, ToU32, ToByte;
    var payload := Payload(m.name, m.fields);
    HeaderFrameFaithful(m.clrID, payload);
    DrainExact(Wire(m) + rest, Header(m.clrID, m.name, |m.fields|), payload, rest);
    assert payload[1 + |m.name| + 2..] == FieldsBytes(m.fields);
    FieldsExact(FieldsBytes(m.fields), |m.fields|, 0, m.fields);
  }

  // ---------- streams of frames ----------

  /** A frame that draining can yield: its payload begins with the status and count of its header. */
  predicate Drainable(f: Drained) {
    |f.payload| < TWO_32 && |f.hdr.status| < 0x100 && Head(f.hdr.status, f.hdr.fieldCount) <= f.payload
  }

  function FrameBytes(f: Drained): bytes {
    WireFrame(f.hdr.clrID, f.payload)
  }

  function Stream(fs: seq<Drained>): bytes {
    if fs == [] then [] else FrameBytes(fs[0]) + Stream(fs[1..])
  }

  /** Draining frame after frame: every frame there is, and the error that ends it. */
  function Drains(s: bytes): (r: (seq<Drained>, DrainError))
    ensures forall f :: f in r.0 ==> Drainable(f)
    decreases |s|
  {
    var (r, rest) := Drain(s);
    if r.Err? then ([], r.error)
    else
      DrainExact(s, r.value.hdr, r.value.payload, rest);
      var (later, err) := Drains(rest);
      ([r.value] + later, err)
  }

  lemma DrainsStep(f: Drained, rest: bytes)
    requires Drainable(f)
    ensures Drain(FrameBytes(f) + rest) == (Ok(f), rest)
    ensures Drains(FrameBytes(f) + rest) == ([f] + Drains(rest).0, Drains(rest).1)
  {
    hide LE, FromLE, U16, U32, ToU32, ToByte, Drain;
    DrainExact(FrameBytes(f) + rest, f.hdr, f.payload, rest);
  }

  /**
   * Any list of frames followed by anything is drained whole and in order, ids, statuses, counts and payloads, and
   * what follows is read as if it came first. Whether the fields of a frame decode does not matter.
   */
  lemma {:induction false} StreamFraming(fs: seq<Drained>, rest: bytes)
    requires forall f :: f in fs ==> Drainable(f)
    ensures Drains(Stream(fs) + rest) == (fs + Drains(rest).0, Drains(rest).1)
  {
    hide LE, FromLE, U16, U32, ToU32, ToByte, Drain, FrameBytes, Drainable, Drains;
    if fs == [] {
      assert Stream(fs) + rest == rest;
      assert fs + Drains(rest).0 == Drains(rest).0;
    } else {
      var later := Stream(fs[1..]) + rest;
      assert Stream(fs) + rest == FrameBytes(fs[0]) + later;
      DrainsStep(fs[0], later);
      StreamFraming(fs[1..], rest);
      assert [fs[0]] + (fs[1..] + Drains(rest).0) == fs + Drains(rest).0;
    }
  }

  /** What draining yields are the bytes it took. */
  lemma DrainedFrame(s: bytes) returns (r: (Drained, bytes))
    requires Drain(s).0.Ok?
    ensures Drain(s) == (Ok(r.0), r.1) && Drainable(r.0) && s == FrameBytes(r.0) + r.1
  {
    hide LE, FromLE, U16, U32, ToU32, ToByte, Drain;
    r := (Drain(s).0.value, Drain(s).1);
    DrainExact(s, r.0.hdr, r.0.payload, r.1);
  }

  /** Conversely, what is drained from any bytes is where they begin, up to the first bytes that are no frame. */
  lemma {:induction false} StreamExact(s: bytes) returns (rest: bytes)
    ensures s == Stream(Drains(s).0) + rest && Drain(rest).0 == Err(Drains(s).1)
    decreases |s|
  {
    hide LE, FromLE, U16, U32, ToU32, ToByte, Drain, FrameBytes, Drainable;
    if Drain(s).0.Err? {
      rest := s;
      assert s == Stream([]) + s;
    } else {
      var r := DrainedFrame(s);
      var (f, after) := r;
      DrainsStep(f, after);
      FrameNotEmpty(f);
      rest := StreamExact(after);
      assert Drains(s).0[1..] == Drains(after).0;
      assert FrameBytes(f) + (Stream(Drains(after).0) + rest) == Stream(Drains(s).0) + rest;
    }
  }

  lemma FrameNotEmpty(f: Drained)
    ensures |FrameBytes(f)| == 9 + |f.payload|
  {
  }

  /** A stream cut inside its last frame yields every complete frame and then reports the end of input. */
  lemma TruncatedStream(fs: seq<Drained>, last: Drained, k: nat)
    requires forall f :: f in fs ==> Drainable(f)
    requires Drainable(last) && k < |FrameBytes(last)|
    ensures Drains(Stream(fs) + FrameBytes(last)[..k]) == (fs, if k == 0 || k == 9 then Eof else UnexpectedEof)
  {
    hide LE, FromLE, U16, U32, ToU32, ToByte;
    var (whole, cut) := (FrameBytes(last), FrameBytes(last)[..k]);
    StreamFraming(fs, cut);
    if k >= 9 {
      WireParts(last.hdr.clrID, last.payload, []);
      assert whole + [] == whole;
      assert cut[5..9] == whole[5..9] && cut[0] == whole[0];
    }
    assert fs + [] == fs;
  }

  // ---------- what the read loop delivers ----------

  datatype Delivery = Delivery(clrID: u32, result: RawResult)

  /** The read loop ignores a field error and delivers no fields. */
  function Deliver(f: Drained): Delivery
    requires Drainable(f)
  {
    var fields := Fields(f.payload[1 + |f.hdr.status| + 2..], f.hdr.fieldCount, 0);
    Delivery(f.hdr.clrID, RawResult(f.hdr.status, if fields.Ok? then fields.value else []))
  }

  function DeliverAll(fs: seq<Drained>): (out: seq<Delivery>)
    requires forall f :: f in fs ==> Drainable(f)
    ensures |out| == |fs|
  {
    seq(|fs|, i requires 0 <= i < |fs| => assert fs[i] in fs; Deliver(fs[i]))
  }

  /** Everything one reader hands on from a connection. */
  function Deliveries(s: bytes): seq<Delivery> {
    DeliverAll(Drains(s).0)
  }

  lemma DrainsUnfold(s: bytes, done: seq<Drained>)
    ensures Drain(s).0.Err? ==> done + Drains(s).0 == done && Drains(s).1 == Drain(s).0.error
    ensures Drain(s).0.Ok? ==>
              var (f, rest) := (Drain(s).0.value, Drain(s).1);
              && |rest| < |s| && Drainable(f)
              && done + Drains(s).0 == done + [f] + Drains(rest).0
              && Drains(s).1 == Drains(rest).1
  {
    hide LE, FromLE, U16, U32, ToU32, ToByte, Drain, FrameBytes;
    if Drain(s).0.Ok? {
      var r := DrainedFrame(s);
      var (f, rest) := r;
      DrainsStep(f, rest);
      FrameNotEmpty(f);
      assert done + ([f] + Drains(rest).0) == done + [f] + Drains(rest).0;
    } else {
      assert done + [] == done;
    }
  }

  /**
   * The loop of one reader on one connection (internal/client/handler.go:239-256), whose context turns out to be
   * cancelled once `patience` frames have been handed on. No error means that it left for that reason.
   */
  method ReadLoop(conn: ByteReader, patience: nat) returns (out: seq<Delivery>, err: Option<DrainError>)
    modifies conn
    ensures var (fs, e) := Drains(old(conn.rest));
            if patience <= |fs| then out == Deliveries(old(conn.rest))[..patience] && err == None
            else out == Deliveries(old(conn.rest)) && err == Some(e)
  {
    hide LE, FromLE, U16, U32, Drain, Fields, Drains, Drainable, Deliver, DeliverAll;
    out := [];
    ghost var whole := Drains(conn.rest);
    ghost var done: seq<Drained> := [];
    assert done + whole.0 == whole.0;
    DeliverNone();
    while true
      invariant whole.0 == done + Drains(conn.rest).0 && whole.1 == Drains(conn.rest).1
      invariant (forall f :: f in done ==> Drainable(f)) && out == DeliverAll(done) && |out| <= patience
      decreases |conn.rest|
    {
      if |out| == patience {
        DeliverPrefix(whole.0, |done|);
        assert whole.0[..|done|] == done;
        return out, None;
      }
      ghost var before := conn.rest;
      var frame := DrainFrame(conn);
      DrainsUnfold(before, done);
      if frame.Err? {
        return out, Some(frame.error);
      }
      var Drained(hdr, payload) := frame.value;
      HeadFits(frame.value);
      var fields := ParseFields(payload[1 + |hdr.status| + 2..], hdr.fieldCount);
      DeliverIs(frame.value, fields);
      DeliverSnoc(done, frame.value);
      done := done + [frame.value];
      out := out + [Delivery(hdr.clrID, RawResult(hdr.status, if fields.Ok? then fields.value else []))];
    }
  }

  lemma HeadFits(f: Drained)
    requires Drainable(f)
    ensures 1 + |f.hdr.status| + 2 <= |f.payload|
  {
    hide LE;
  }

  lemma DeliverIs(f: Drained, fields: Result<seq<Field>, FieldError>)
    requires Drainable(f) && 1 + |f.hdr.status| + 2 <= |f.payload|
    requires fields == Fields(f.payload[1 + |f.hdr.status| + 2..], f.hdr.fieldCount, 0)
    ensures Deliver(f) == Delivery(f.hdr.clrID, RawResult(f.hdr.status, if fields.Ok? then fields.value else []))
  {
    hide LE, Fields;
  }

  lemma DeliverNone()
    ensures DeliverAll([]) == []
  {
  }

  lemma DeliverSnoc(fs: seq<Drained>, f: Drained)
    requires (forall g :: g in fs ==> Drainable(g)) && Drainable(f)
    ensures DeliverAll(fs + [f]) == DeliverAll(fs) + [Deliver(f)]
  {
    hide Drainable, Deliver;
  }

  lemma DeliverPrefix(fs: seq<Drained>, k: nat)
    requires (forall f :: f in fs ==> Drainable(f)) && k <= |fs|
    ensures DeliverAll(fs[..k]) == DeliverAll(fs)[..k]
  {
    hide Drainable, Deliver;
  }

  // ---------- streams of messages ----------

  function FrameOf(m: Message): Drained
    requires WellFormed(m)
  {
    Drained(Header(m.clrID, m.name, |m.fields|), Payload(m.name, m.fields))
  }

  /** What a caller is to receive of a message. */
  function Received(m: Message): Delivery {
    Delivery(m.clrID, RawResult(m.name, m.fields))
  }

  lemma MessageDelivered(m: Message)
    requires WellFormed(m)
    ensures Drainable(FrameOf(m)) && FrameBytes(FrameOf(m)) == Wire(m) && Deliver(FrameOf(m)) == Received(m)
  {
    hide LE, FromLE, U16, U32, ToU32, ToByte, Fields;
    MessageRoundTrip(m, []);
    assert Wire(m) + [] == Wire(m);
    DrainExact(Wire(m), Header(m.clrID, m.name, |m.fields|), Payload(m.name, m.fields), []);
  }

  function FramesOf(ms: seq<Message>): (fs: seq<Drained>)
    requires forall m :: m in ms ==> WellFormed(m)
    ensures |fs| == |ms|
    ensures forall f :: f in fs ==> Drainable(f)
  {
    if ms == [] then [] else
    MessageDelivered(ms[0]);
    [FrameOf(ms[0])] + FramesOf(ms[1..])
  }

  /** A server's messages are delivered whole and in order, with every field, whatever follows them. */
  lemma {:induction false} MessagesDelivered(ms: seq<Message>, rest: bytes)
    requires forall m :: m in ms ==> WellFormed(m)
    ensures Drains(Stream(FramesOf(ms)) + rest).0 == FramesOf(ms) + Drains(rest).0
    ensures Deliveries(Stream(FramesOf(ms)) + rest)[..|ms|] == seq(|ms|, i requires 0 <= i < |ms| => Received(ms[i]))
  {
    hide LE, FromLE, U16, U32, ToU32, ToByte, Drain, Drains, Fields, WellFormed, Drainable, Deliver, FrameOf;
    StreamFraming(FramesOf(ms), rest);
    DeliverPrefix(Drains(Stream(FramesOf(ms)) + rest).0, |ms|);
    assert (FramesOf(ms) + Drains(rest).0)[..|ms|] == FramesOf(ms);
    forall i | 0 <= i < |ms| ensures DeliverAll(FramesOf(ms))[i] == Received(ms[i]) {
      FrameAt(ms, i);
      assert ms[i] in ms;
      MessageDelivered(ms[i]);
    }
  }

  lemma {:induction false} FrameAt(ms: seq<Message>, i: nat)
    requires (forall m :: m in ms ==> WellFormed(m)) && i < |ms|
    ensures FramesOf(ms)[i] == FrameOf(ms[i])
  {
    hide WellFormed, Drainable, FrameOf;
    if i > 0 {
      FrameAt(ms[1..], i - 1);
    }
  }

  lemma FirstDelivered(m: Message, rest: bytes)
    requires WellFormed(m)
    ensures Deliveries(Wire(m) + rest) != [] && Deliveries(Wire(m) + rest)[0] == Received(m)
  {
    hide Drain, Drains, Deliver, Drainable, FrameBytes;
    MessageDelivered(m);
    DrainsStep(FrameOf(m), rest);
  }
}
