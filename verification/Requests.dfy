/** The payload builders with optional fields (internal/command/search_avail.go, search_prop.go, set_room_pkg.go). */
module Requests {
  import opened GoBytes
  import opened Frame

  // ---------- optional fields in fixed places ----------

  /** The fields of the first `n` slots that are present, each under its one-based place, which is its id. */
  function LayoutTo(types: seq<byte>, slots: seq<Option<bytes>>, n: nat): (fields: seq<Field>)
    requires n <= |slots| <= |types| < 0x1_0000
    ensures |fields| <= n
    ensures forall f | f in fields :: 1 <= f.id <= n
  {
    if n == 0 then [] else LayoutTo(types, slots, n - 1) + Slot(n, types[n - 1], slots[n - 1])
  }

  function Layout(types: seq<byte>, slots: seq<Option<bytes>>): seq<Field>
    requires |slots| <= |types| < 0x1_0000
  {
    LayoutTo(types, slots, |slots|)
  }

  function Slot(id: u16, fieldType: byte, data: Option<bytes>): seq<Field> {
    if data.None? then [] else [Field(id, fieldType, data.value)]
  }

  /** How many of the first `n` slots are present. */
  function Present(slots: seq<Option<bytes>>, n: nat): (count: nat)
    requires n <= |slots|
    ensures count <= n
  {
    if n == 0 then 0 else Present(slots, n - 1) + if slots[n - 1].Some? then 1 else 0
  }

  /** The builders' step `if v != nil { fields = append(fields, ...) }` for slot `k`. */
  method Append(fields: seq<Field>, id: u16, fieldType: byte, v: Option<bytes>,
                ghost types: seq<byte>, ghost slots: seq<Option<bytes>>) returns (r: seq<Field>)
    requires 1 <= id <= |slots| <= |types| < 0x1_0000 && fields == LayoutTo(types, slots, id - 1)
    requires types[id - 1] == fieldType && slots[id - 1] == v
    ensures r == LayoutTo(types, slots, id)
  {
    r := fields;
    if v.Some? {
      r := r + [Field(id, fieldType, v.value)];
    }
  }

  /** The required fields come first. */
  lemma FirstOne(types: seq<byte>, slots: seq<Option<bytes>>)
    requires 1 <= |slots| <= |types| < 0x1_0000 && slots[0].Some?
    ensures LayoutTo(types, slots, 1) == [Field(1, types[0], slots[0].value)]
  {
    assert LayoutTo(types, slots, 0) == [];
  }

  lemma FirstTwo(types: seq<byte>, slots: seq<Option<bytes>>)
    requires 2 <= |slots| <= |types| < 0x1_0000 && slots[0].Some? && slots[1].Some?
    ensures LayoutTo(types, slots, 2) == [Field(1, types[0], slots[0].value), Field(2, types[1], slots[1].value)]
  {
    FirstOne(types, slots);
  }

  lemma FirstThree(types: seq<byte>, slots: seq<Option<bytes>>)
    requires 3 <= |slots| <= |types| < 0x1_0000 && slots[0].Some? && slots[1].Some? && slots[2].Some?
    ensures LayoutTo(types, slots, 3) == [Field(1, types[0], slots[0].value), Field(2, types[1], slots[1].value),
                                          Field(3, types[2], slots[2].value)]
  {
    FirstTwo(types, slots);
  }

  /** Ids strictly increase and the count is the number of present slots. */
  lemma {:induction false} LayoutIncreasing(types: seq<byte>, slots: seq<Option<bytes>>, n: nat)
    requires n <= |slots| <= |types| < 0x1_0000
    ensures |LayoutTo(types, slots, n)| == Present(slots, n)
    ensures var fs := LayoutTo(types, slots, n);
            forall i, j | 0 <= i < j < |fs| :: fs[i].id < fs[j].id
  {
    if n > 0 {
      var (before, slot) := (LayoutTo(types, slots, n - 1), Slot(n, types[n - 1], slots[n - 1]));
      LayoutIncreasing(types, slots, n - 1);
      var fs := LayoutTo(types, slots, n);
      assert fs == before + slot;
      assert Present(slots, n) == Present(slots, n - 1) + |slot|;
      hide LayoutTo, Present;
      forall i, j | 0 <= i < j < |fs| ensures fs[i].id < fs[j].id {
        assert fs[i] == before[i] && before[i] in before;
      }
    }
  }

  /** A field is in the layout exactly when it is what its slot holds. */
  lemma {:induction false} LayoutHas(types: seq<byte>, slots: seq<Option<bytes>>, n: nat, f: Field)
    requires n <= |slots| <= |types| < 0x1_0000
    ensures f in LayoutTo(types, slots, n) <==>
            1 <= f.id <= n && f.fieldType == types[f.id - 1] && slots[f.id - 1] == Some(f.data)
  {
    if n > 0 {
      LayoutHas(types, slots, n - 1, f);
      assert f in LayoutTo(types, slots, n) <==>
             f in LayoutTo(types, slots, n - 1) || f in Slot(n, types[n - 1], slots[n - 1]);
    }
  }

  lemma LayoutInjective(types: seq<byte>, p: seq<Option<bytes>>, q: seq<Option<bytes>>)
    requires |p| == |q| <= |types| < 0x1_0000
    requires Layout(types, p) == Layout(types, q)
    ensures p == q
  {
    forall k | 0 <= k < |p| ensures p[k] == q[k] {
      SlotDetermined(types, p, q, k);
      SlotDetermined(types, q, p, k);
    }
  }

  lemma SlotDetermined(types: seq<byte>, p: seq<Option<bytes>>, q: seq<Option<bytes>>, k: nat)
    requires k < |p| == |q| <= |types| < 0x1_0000
    requires Layout(types, p) == Layout(types, q)
    ensures p[k].Some? ==> q[k] == p[k]
  {
    hide LayoutTo;
    if p[k].Some? {
      var f := Field(k + 1, types[k], p[k].value);
      LayoutHas(types, p, |p|, f);
      LayoutHas(types, q, |q|, f);
    }
  }

  // ---------- writing a payload ----------

  /** The tail every builder shares: name, field count and the field loop. */
  method WritePayload(name: bytes, fields: seq<Field>) returns (buf: bytes)
    ensures buf == Payload(name, fields)
  {
    hide LE, FieldBytes, ToByte;
    buf := [ToByte(|name|)] + name;
    buf := buf + LE(|fields|, 2);
    assert fields[..0] == [];
    for i := 0 to |fields|
      invariant buf == Head(name, |fields|) + FieldsBytes(fields[..i])
    {
      ghost var before := FieldsBytes(fields[..i]);
      var f := fields[i];
      buf := buf + FieldBytes(f);
      FieldsBytesAppend(fields[..i], f);
      assert fields[..i + 1] == fields[..i] + [f];
      assert Head(name, |fields|) + before + FieldBytes(f) == Head(name, |fields|) + (before + FieldBytes(f));
    }
    assert fields[..|fields|] == fields;
  }

  lemma {:induction false} PayloadHoldsFields(fields: seq<Field>)
    ensures forall i | 0 <= i < |fields| :: |fields[i].data| <= |FieldsBytes(fields)|
  {
    if fields != [] {
      PayloadHoldsFields(fields[1..]);
      assert forall i | 1 <= i < |fields| :: fields[i] == fields[1..][i - 1];
    }
  }

  /** A request of `name` with these optional fields, small enough for the 32-bit lengths of its frame. */
  predicate Sendable(name: bytes, types: seq<byte>, slots: seq<Option<bytes>>)
    requires |slots| <= |types| < 0x1_0000
  {
    |name| < 0x100 && |Payload(name, Layout(types, slots))| + 9 < TWO_32
  }

  /**
   * What the request builds, is framed as, drained and parsed to, in front of whatever follows it: the name, the
   * number of options present, and under strictly increasing ids exactly the fields that were set.
   */
  ghost predicate SurvivesWire(name: bytes, types: seq<byte>, slots: seq<Option<bytes>>, clrID: u32, rest: bytes)
    requires |slots| <= |types| < 0x1_0000
  {
    var (fields, count) := (Layout(types, slots), Present(slots, |slots|));
    var payload := Payload(name, fields);
    && HeaderFrame(clrID, payload) == Filled(WireFrame(clrID, payload))
    && Drain(WireFrame(clrID, payload) + rest) == (Ok(Drained(Header(clrID, name, count), payload)), rest)
    && Fields(payload[1 + |name| + 2..], count, 0) == Ok(fields)
    && (forall i, j | 0 <= i < j < |fields| :: fields[i].id < fields[j].id)
    && (forall f: Field :: f in fields <==>
          1 <= f.id <= |slots| && f.fieldType == types[f.id - 1] && slots[f.id - 1] == Some(f.data))
  }

  /** Every request within the size bounds survives the wire. */
  lemma RequestRoundTrip(name: bytes, types: seq<byte>, slots: seq<Option<bytes>>, clrID: u32, rest: bytes)
    requires |slots| <= |types| < 0x1_0000 && Sendable(name, types, slots)
    ensures SurvivesWire(name, types, slots, clrID, rest)
  {
    var fields := Layout(types, slots);
    LayoutIncreasing(types, slots, |slots|);
    PayloadHoldsFields(fields);
    MessageRoundTrip(Message(clrID, name, fields), rest);
    forall f: Field ensures f in fields <==>
        1 <= f.id <= |slots| && f.fieldType == types[f.id - 1] && slots[f.id - 1] == Some(f.data) {
      LayoutHas(types, slots, |slots|, f);
    }
  }

  /** Two sendable requests of one command with the same payload have the same optional fields. */
  lemma PayloadDeterminesSlots(name: bytes, types: seq<byte>, p: seq<Option<bytes>>, q: seq<Option<bytes>>)
    requires |p| == |q| <= |types| < 0x1_0000 && Sendable(name, types, p) && Sendable(name, types, q)
    ensures Payload(name, Layout(types, p)) == Payload(name, Layout(types, q)) <==> p == q
  {
    if Payload(name, Layout(types, p)) == Payload(name, Layout(types, q)) {
      RequestRoundTrip(name, types, p, 0, []);
      RequestRoundTrip(name, types, q, 0, []);
      LayoutInjective(types, p, q);
    }
  }

  // ---------- the values in the slots ----------

  function OneByte(v: Option<byte>): Option<bytes> {
    if v.None? then None else Some([v.value])
  }

  /** `MakeU32`, `MakeU64` and `MakeF64`: the little-endian bytes of a word, or of a float's bit pattern. */
  function Word(v: Option<u64>, width: nat): Option<bytes> {
    if v.None? then None else Some(LE(v.value, width))
  }

  function Word32(v: Option<u32>): Option<bytes> {
    if v.None? then None else Some(LE(v.value, 4))
  }

  /** A list that is sent whenever it is not empty. */
  function NonEmptyList(parts: seq<bytes>): Option<bytes> {
    if parts == [] then None else Some(Join(parts, Ascii(",")))
  }

  /** A list that is sent whenever it is not nil, empty or not. */
  function SetList(parts: Option<seq<bytes>>): Option<bytes> {
    if parts.None? then None else Some(Join(parts.value, Ascii(",")))
  }

  /** The empty list and the list of one empty string are written alike. */
  function Canonical(parts: Option<seq<bytes>>): Option<seq<bytes>> {
    if parts == Some([]) then Some([[]]) else parts
  }

  lemma CanonicalWrittenAlike(parts: Option<seq<bytes>>)
    ensures SetList(Canonical(parts)) == SetList(parts)
  {
  }

  // ---------- reading requests ----------

  /** The data of the field with this id and type. */
  function Get(fields: seq<Field>, id: u16, fieldType: byte): Option<bytes> {
    if fields == [] then None
    else if fields[0].id == id && fields[0].fieldType == fieldType then Some(fields[0].data)
    else Get(fields[1..], id, fieldType)
  }

  lemma {:induction false} GetFinds(fields: seq<Field>, id: u16, fieldType: byte)
    ensures var r := Get(fields, id, fieldType);
            if r.Some? then Field(id, fieldType, r.value) in fields
            else forall data :: Field(id, fieldType, data) !in fields
  {
    if fields != [] {
      GetFinds(fields[1..], id, fieldType);
    }
  }

  /** A layout read at a slot's id and type gives what the slot holds. */
  lemma GetsSlot(types: seq<byte>, slots: seq<Option<bytes>>, id: u16, fieldType: byte)
    requires 1 <= id <= |slots| <= |types| < 0x1_0000 && types[id - 1] == fieldType
    ensures Get(Layout(types, slots), id, fieldType) == slots[id - 1]
  {
    hide LayoutTo;
    var fields := Layout(types, slots);
    GetFinds(fields, id, fieldType);
    var r := Get(fields, id, fieldType);
    if r.Some? {
      LayoutHas(types, slots, |slots|, Field(id, fieldType, r.value));
    } else if slots[id - 1].Some? {
      LayoutHas(types, slots, |slots|, Field(id, fieldType, slots[id - 1].value));
    }
  }

  function ReadText(data: Option<bytes>): bytes {
    if data.None? then [] else data.value
  }

  /** Exactly one byte. */
  function ReadByte(data: Option<bytes>): Option<byte> {
    if data.Some? && |data.value| == 1 then Some(data.value[0]) else None
  }

  /** Exactly four bytes, little-endian. */
  function ReadU32(data: Option<bytes>): Option<u32> {
    if data.Some? && |data.value| == 4 then Some(U32(data.value)) else None
  }

  /** Exactly eight bytes, little-endian: a number, or a float's bit pattern. */
  function ReadU64(data: Option<bytes>): Option<u64> {
    if data.Some? && |data.value| == 8 then
      FromLEBound(data.value);
      Widths();
      Some(FromLE(data.value))
    else None
  }

  function ReadList(data: Option<bytes>): seq<bytes> {
    if data.None? then [] else Split(data.value, COMMA)
  }

  function ReadSetList(data: Option<bytes>): Option<seq<bytes>> {
    if data.None? then None else Some(Split(data.value, COMMA))
  }

  /** Each kind of value is read back as what was written. */
  lemma ByteReads(v: Option<byte>)
    ensures ReadByte(OneByte(v)) == v
  {
  }

  lemma Word32Reads(v: Option<u32>)
    ensures ReadU32(Word32(v)) == v
  {
    if v.Some? {
      U32RoundTrip(v.value, LE(v.value, 4));
    }
  }

  lemma WordReads(v: Option<u64>)
    ensures ReadU64(Word(v, 8)) == v
  {
    if v.Some? {
      Widths();
      FromLEOfLE(v.value, 8);
    }
  }

  lemma ListReads(parts: seq<bytes>)
    requires CommaFree(parts, COMMA)
    ensures ReadList(NonEmptyList(parts)) == parts
  {
    assert Ascii(",") == [COMMA];
    if parts != [] {
      SplitOfJoin(parts, COMMA);
    }
  }

  lemma SetListReads(parts: Option<seq<bytes>>)
    requires ListOk(parts)
    ensures ReadSetList(SetList(parts)) == Canonical(parts)
  {
    assert Ascii(",") == [COMMA];
    CanonicalWrittenAlike(parts);
    if parts.Some? {
      SplitOfJoin(Canonical(parts).value, COMMA);
    }
  }

  ghost predicate ListOk(parts: Option<seq<bytes>>) {
    parts.Some? ==> CommaFree(parts.value, COMMA)
  }

  // ---------- SEARCHAVAIL ----------

  /** Floats are their 64-bit patterns; a nil list and an empty one are the same to this builder. */
  datatype SearchAvail = SearchAvail(
    segment: bytes, roomType: bytes, area: Option<bytes>, propertyID: Option<bytes>, kind: Option<bytes>,
    stars: Option<byte>, category: Option<bytes>, amenities: seq<bytes>, longitude: Option<u64>,
    latitude: Option<u64>, date: seq<bytes>, availability: Option<byte>, finalPrice: Option<u32>,
    rateFeature: seq<bytes>, limit: Option<u64>)

  const SEARCH_AVAIL: bytes := Ascii("SEARCHAVAIL")

  function AvailTypes(): (types: seq<byte>)
    ensures |types| == 15
  {
    [1, 1, 1, 1, 1, 2, 1, 1, 3, 3, 1, 2, 3, 1, 3]
  }

  function AvailSlots(p: SearchAvail): (slots: seq<Option<bytes>>)
    ensures |slots| == 15
  {
    [Some(p.segment), Some(p.roomType), p.area, p.propertyID, p.kind, OneByte(p.stars), p.category,
     NonEmptyList(p.amenities), Word(p.longitude, 8), Word(p.latitude, 8), NonEmptyList(p.date),
     OneByte(p.availability), Word32(p.finalPrice), NonEmptyList(p.rateFeature), Word(p.limit, 8)]
  }

  /** Slot by slot, what `AvailSlots` and `AvailTypes` hold. */
  lemma AvailAt(p: SearchAvail)
    ensures var s := AvailSlots(p);
            && s[0] == Some(p.segment)
            && s[1] == Some(p.roomType)
            && s[2] == p.area
            && s[3] == p.propertyID
            && s[4] == p.kind
            && s[5] == OneByte(p.stars)
            && s[6] == p.category
            && s[7] == NonEmptyList(p.amenities)
            && s[8] == Word(p.longitude, 8)
            && s[9] == Word(p.latitude, 8)
            && s[10] == NonEmptyList(p.date)
            && s[11] == OneByte(p.availability)
            && s[12] == Word32(p.finalPrice)
            && s[13] == NonEmptyList(p.rateFeature)
            && s[14] == Word(p.limit, 8)
    ensures var t := AvailTypes();
            && t[0] == 1 && t[1] == 1 && t[2] == 1 && t[3] == 1 && t[4] == 1 && t[5] == 2 && t[6] == 1 && t[7] == 1
            && t[8] == 3 && t[9] == 3 && t[10] == 1 && t[11] == 2 && t[12] == 3 && t[13] == 1 && t[14] == 3
  {
    hide LE, Join, Word, Word32, NonEmptyList, OneByte;
  }

  method BuildSearchAvailPayload(p: SearchAvail) returns (payload: bytes)
    ensures payload == Payload(SEARCH_AVAIL, Layout(AvailTypes(), AvailSlots(p)))
  {
    hide LE, Join, LayoutTo, AvailSlots, AvailTypes;
    AvailAt(p);
    ghost var (types, slots) := (AvailTypes(), AvailSlots(p));
    var fields: seq<Field> := [Field(0x01, 0x01, p.segment), Field(0x02, 0x01, p.roomType)];
    FirstTwo(types, slots);
    fields := Append(fields, 0x03, 0x01, p.area, types, slots);
    fields := Append(fields, 0x04, 0x01, p.propertyID, types, slots);
    fields := Append(fields, 0x05, 0x01, p.kind, types, slots);
    fields := Append(fields, 0x06, 0x02, OneByte(p.stars), types, slots);
    fields := Append(fields, 0x07, 0x01, p.category, types, slots);
    fields := Append(fields, 0x08, 0x01, NonEmptyList(p.amenities), types, slots);
    fields := Append(fields, 0x09, 0x03, Word(p.longitude, 8), types, slots);
    fields := Append(fields, 0x0A, 0x03, Word(p.latitude, 8), types, slots);
    fields := Append(fields, 0x0B, 0x01, NonEmptyList(p.date), types, slots);
    fields := Append(fields, 0x0C, 0x02, OneByte(p.availability), types, slots);
    fields := Append(fields, 0x0D, 0x03, Word32(p.finalPrice), types, slots);
    fields := Append(fields, 0x0E, 0x01, NonEmptyList(p.rateFeature), types, slots);
    fields := Append(fields, 0x0F, 0x03, Word(p.limit, 8), types, slots);
    payload := WritePayload(Ascii("SEARCHAVAIL"), fields);
  }

  /** What a server that knows the fields of the command by id and type takes the request to be. */
  function ReadAvail(fields: seq<Field>): SearchAvail {
    SearchAvail(
      ReadText(Get(fields, 1, 1)), ReadText(Get(fields, 2, 1)), Get(fields, 3, 1), Get(fields, 4, 1), Get(fields, 5, 1),
      ReadByte(Get(fields, 6, 2)), Get(fields, 7, 1), ReadList(Get(fields, 8, 1)), ReadU64(Get(fields, 9, 3)),
      ReadU64(Get(fields, 10, 3)), ReadList(Get(fields, 11, 1)), ReadByte(Get(fields, 12, 2)),
      ReadU32(Get(fields, 13, 3)), ReadList(Get(fields, 14, 1)), ReadU64(Get(fields, 15, 3)))
  }

  ghost predicate AvailListsOk(p: SearchAvail) {
    CommaFree(p.amenities, COMMA) && CommaFree(p.date, COMMA) && CommaFree(p.rateFeature, COMMA)
  }

  lemma AvailReads(p: SearchAvail)
    requires AvailListsOk(p)
    ensures ReadAvail(Layout(AvailTypes(), AvailSlots(p))) == p
  {
    hide LE, FromLE, Join, Split, Get, Layout, LayoutTo, AvailSlots, AvailTypes;
    hide ReadByte, ReadU32, ReadU64, ReadList, OneByte, Word, Word32, NonEmptyList;
    AvailAt(p);
    var (types, slots) := (AvailTypes(), AvailSlots(p));
    GetsSlot(types, slots, 1, 1);
    GetsSlot(types, slots, 2, 1);
    GetsSlot(types, slots, 3, 1);
    GetsSlot(types, slots, 4, 1);
    GetsSlot(types, slots, 5, 1);
    GetsSlot(types, slots, 6, 2);
    ByteReads(p.stars);
    GetsSlot(types, slots, 7, 1);
    GetsSlot(types, slots, 8, 1);
    ListReads(p.amenities);
    GetsSlot(types, slots, 9, 3);
    WordReads(p.longitude);
    GetsSlot(types, slots, 10, 3);
    WordReads(p.latitude);
    GetsSlot(types, slots, 11, 1);
    ListReads(p.date);
    GetsSlot(types, slots, 12, 2);
    ByteReads(p.availability);
    GetsSlot(types, slots, 13, 3);
    Word32Reads(p.finalPrice);
    GetsSlot(types, slots, 14, 1);
    ListReads(p.rateFeature);
    GetsSlot(types, slots, 15, 3);
    WordReads(p.limit);
  }

  /** A SEARCHAVAIL request survives the wire, and what is read there by id, type and width is the request. */
  lemma SearchAvailRoundTrip(p: SearchAvail, clrID: u32, rest: bytes)
    requires Sendable(SEARCH_AVAIL, AvailTypes(), AvailSlots(p))
    ensures SurvivesWire(SEARCH_AVAIL, AvailTypes(), AvailSlots(p), clrID, rest)
    ensures AvailListsOk(p) ==> ReadAvail(Layout(AvailTypes(), AvailSlots(p))) == p
  {
    RequestRoundTrip(SEARCH_AVAIL, AvailTypes(), AvailSlots(p), clrID, rest);
    if AvailListsOk(p) {
      AvailReads(p);
    }
  }

  /** Requests with comma-free list elements have equal payloads only if they are equal. */
  lemma SearchAvailInjective(p: SearchAvail, q: SearchAvail)
    requires AvailListsOk(p) && AvailListsOk(q)
    requires Sendable(SEARCH_AVAIL, AvailTypes(), AvailSlots(p)) && Sendable(SEARCH_AVAIL, AvailTypes(), AvailSlots(q))
    ensures Payload(SEARCH_AVAIL, Layout(AvailTypes(), AvailSlots(p)))
         == Payload(SEARCH_AVAIL, Layout(AvailTypes(), AvailSlots(q)))
       <==> p == q
  {
    hide AvailSlots, AvailTypes, ReadAvail, Layout, Payload;
    PayloadDeterminesSlots(SEARCH_AVAIL, AvailTypes(), AvailSlots(p), AvailSlots(q));
    AvailReads(p);
    AvailReads(q);
  }

  // ---------- SEARCHPROP ----------

  datatype SearchProp = SearchProp(
    segment: bytes, area: Option<bytes>, kind: Option<bytes>, stars: Option<byte>, category: Option<bytes>,
    amenities: Option<seq<bytes>>, longitude: Option<u64>, latitude: Option<u64>, limit: Option<u64>)

  const SEARCH_PROP: bytes := Ascii("SEARCHPROP")

  function PropTypes(): (types: seq<byte>)
    ensures |types| == 9
  {
    [1, 1, 1, 2, 1, 1, 3, 3, 3]
  }

  function PropSlots(p: SearchProp): (slots: seq<Option<bytes>>)
    ensures |slots| == 9
  {
    [Some(p.segment), p.area, p.kind, OneByte(p.stars), p.category, SetList(p.amenities),
     Word(p.longitude, 8), Word(p.latitude, 8), Word(p.limit, 8)]
  }

  lemma PropAt(p: SearchProp)
    ensures var s := PropSlots(p);
            && s[0] == Some(p.segment)
            && s[1] == p.area
            && s[2] == p.kind
            && s[3] == OneByte(p.stars)
            && s[4] == p.category
            && s[5] == SetList(p.amenities)
            && s[6] == Word(p.longitude, 8)
            && s[7] == Word(p.latitude, 8)
            && s[8] == Word(p.limit, 8)
    ensures var t := PropTypes();
            && t[0] == 1 && t[1] == 1 && t[2] == 1 && t[3] == 2 && t[4] == 1 && t[5] == 1
            && t[6] == 3 && t[7] == 3 && t[8] == 3
  {
    hide LE, Join, Word, Word32, SetList, OneByte;
  }

  method BuildSearchPropPayload(p: SearchProp) returns (payload: bytes)
    ensures payload == Payload(SEARCH_PROP, Layout(PropTypes(), PropSlots(p)))
  {
    hide LE, Join, LayoutTo, PropSlots, PropTypes;
    PropAt(p);
    ghost var (types, slots) := (PropTypes(), PropSlots(p));
    var fields: seq<Field> := [Field(0x01, 0x01, p.segment)];
    FirstOne(types, slots);
    fields := Append(fields, 0x02, 0x01, p.area, types, slots);
    fields := Append(fields, 0x03, 0x01, p.kind, types, slots);
    fields := Append(fields, 0x04, 0x02, OneByte(p.stars), types, slots);
    fields := Append(fields, 0x05, 0x01, p.category, types, slots);
    fields := Append(fields, 0x06, 0x01, SetList(p.amenities), types, slots);
    fields := Append(fields, 0x07, 0x03, Word(p.longitude, 8), types, slots);
    fields := Append(fields, 0x08, 0x03, Word(p.latitude, 8), types, slots);
    fields := Append(fields, 0x09, 0x03, Word(p.limit, 8), types, slots);
    payload := WritePayload(Ascii("SEARCHPROP"), fields);
  }

  function ReadProp(fields: seq<Field>): SearchProp {
    SearchProp(
      ReadText(Get(fields, 1, 1)), Get(fields, 2, 1), Get(fields, 3, 1), ReadByte(Get(fields, 4, 2)), Get(fields, 5, 1),
      ReadSetList(Get(fields, 6, 1)), ReadU64(Get(fields, 7, 3)), ReadU64(Get(fields, 8, 3)),
      ReadU64(Get(fields, 9, 3)))
  }

  lemma PropReads(p: SearchProp)
    requires ListOk(p.amenities)
    ensures ReadProp(Layout(PropTypes(), PropSlots(p))) == p.(amenities := Canonical(p.amenities))
  {
    hide LE, FromLE, Join, Split, Get, Layout, LayoutTo, PropSlots, PropTypes;
    hide ReadByte, ReadU64, ReadSetList, OneByte, Word, SetList, Canonical;
    PropAt(p);
    var (types, slots) := (PropTypes(), PropSlots(p));
    GetsSlot(types, slots, 1, 1);
    GetsSlot(types, slots, 2, 1);
    GetsSlot(types, slots, 3, 1);
    GetsSlot(types, slots, 4, 2);
    ByteReads(p.stars);
    GetsSlot(types, slots, 5, 1);
    GetsSlot(types, slots, 6, 1);
    SetListReads(p.amenities);
    GetsSlot(types, slots, 7, 3);
    WordReads(p.longitude);
    GetsSlot(types, slots, 8, 3);
    WordReads(p.latitude);
    GetsSlot(types, slots, 9, 3);
    WordReads(p.limit);
  }

  lemma SearchPropRoundTrip(p: SearchProp, clrID: u32, rest: bytes)
    requires Sendable(SEARCH_PROP, PropTypes(), PropSlots(p))
    ensures SurvivesWire(SEARCH_PROP, PropTypes(), PropSlots(p), clrID, rest)
    ensures ListOk(p.amenities) ==>
              ReadProp(Layout(PropTypes(), PropSlots(p))) == p.(amenities := Canonical(p.amenities))
  {
    RequestRoundTrip(SEARCH_PROP, PropTypes(), PropSlots(p), clrID, rest);
    if ListOk(p.amenities) {
      PropReads(p);
    }
  }

  /** This builder sends a list that is set but empty, so that one pair of lists, and no other, collides. */
  lemma SearchPropInjective(p: SearchProp, q: SearchProp)
    requires ListOk(p.amenities) && ListOk(q.amenities)
    requires Sendable(SEARCH_PROP, PropTypes(), PropSlots(p)) && Sendable(SEARCH_PROP, PropTypes(), PropSlots(q))
    ensures Payload(SEARCH_PROP, Layout(PropTypes(), PropSlots(p)))
         == Payload(SEARCH_PROP, Layout(PropTypes(), PropSlots(q)))
       <==> p.(amenities := Canonical(p.amenities)) == q.(amenities := Canonical(q.amenities))
  {
    hide PropTypes, ReadProp, Layout, Payload, Canonical, SetList;
    PayloadDeterminesSlots(SEARCH_PROP, PropTypes(), PropSlots(p), PropSlots(q));
    PropReads(p);
    PropReads(q);
    PropCanonical(p);
    PropCanonical(q);
  }

  lemma PropCanonical(p: SearchProp)
    ensures PropSlots(p.(amenities := Canonical(p.amenities))) == PropSlots(p)
  {
    CanonicalWrittenAlike(p.amenities);
  }

  // ---------- SETROOMPKG ----------

  datatype SetRoomPkg = SetRoomPkg(
    propertyID: bytes, roomType: bytes, date: bytes, availability: Option<byte>, finalPrice: Option<u32>,
    rateFeature: Option<seq<bytes>>)

  const SET_ROOM_PKG: bytes := Ascii("SETROOMPKG")

  function PkgTypes(): (types: seq<byte>)
    ensures |types| == 6
  {
    [1, 1, 1, 2, 3, 1]
  }

  function PkgSlots(p: SetRoomPkg): (slots: seq<Option<bytes>>)
    ensures |slots| == 6
  {
    [Some(p.propertyID), Some(p.roomType), Some(p.date), OneByte(p.availability), Word32(p.finalPrice),
     SetList(p.rateFeature)]
  }

  datatype BuildError = MissingRequiredFields

  lemma PkgAt(p: SetRoomPkg)
    ensures var s := PkgSlots(p);
            && s[0] == Some(p.propertyID)
            && s[1] == Some(p.roomType)
            && s[2] == Some(p.date)
            && s[3] == OneByte(p.availability)
            && s[4] == Word32(p.finalPrice)
            && s[5] == SetList(p.rateFeature)
    ensures var t := PkgTypes();
            && t[0] == 1 && t[1] == 1 && t[2] == 1 && t[3] == 2 && t[4] == 3 && t[5] == 1
  {
    hide LE, Join, Word, Word32, SetList, OneByte;
  }

  method BuildSetRoomPkgPayload(p: SetRoomPkg) returns (r: Result<bytes, BuildError>)
    ensures r.Err? <==> p.propertyID == [] || p.roomType == [] || p.date == []
    ensures r.Ok? ==> r.value == Payload(SET_ROOM_PKG, Layout(PkgTypes(), PkgSlots(p)))
  {
    if p.propertyID == [] || p.roomType == [] || p.date == [] {
      return Err(MissingRequiredFields);
    }
    hide LE, Join, LayoutTo, PkgSlots, PkgTypes;
    PkgAt(p);
    ghost var (types, slots) := (PkgTypes(), PkgSlots(p));
    var fields: seq<Field> :=
      [Field(0x01, 0x01, p.propertyID), Field(0x02, 0x01, p.roomType), Field(0x03, 0x01, p.date)];
    FirstThree(types, slots);
    fields := Append(fields, 0x04, 0x02, OneByte(p.availability), types, slots);
    fields := Append(fields, 0x05, 0x03, Word32(p.finalPrice), types, slots);
    fields := Append(fields, 0x06, 0x01, SetList(p.rateFeature), types, slots);
    var payload := WritePayload(Ascii("SETROOMPKG"), fields);
    return Ok(payload);
  }

  function ReadPkg(fields: seq<Field>): SetRoomPkg {
    SetRoomPkg(
      ReadText(Get(fields, 1, 1)), ReadText(Get(fields, 2, 1)), ReadText(Get(fields, 3, 1)),
      ReadByte(Get(fields, 4, 2)), ReadU32(Get(fields, 5, 3)), ReadSetList(Get(fields, 6, 1)))
  }

  lemma PkgReads(p: SetRoomPkg)
    requires ListOk(p.rateFeature)
    ensures ReadPkg(Layout(PkgTypes(), PkgSlots(p))) == p.(rateFeature := Canonical(p.rateFeature))
  {
    hide LE, FromLE, Join, Split, Get, Layout, LayoutTo, PkgSlots, PkgTypes;
    hide ReadByte, ReadU32, ReadSetList, OneByte, Word32, SetList, Canonical;
    PkgAt(p);
    var (types, slots) := (PkgTypes(), PkgSlots(p));
    GetsSlot(types, slots, 1, 1);
    GetsSlot(types, slots, 2, 1);
    GetsSlot(types, slots, 3, 1);
    GetsSlot(types, slots, 4, 2);
    ByteReads(p.availability);
    GetsSlot(types, slots, 5, 3);
    Word32Reads(p.finalPrice);
    GetsSlot(types, slots, 6, 1);
    SetListReads(p.rateFeature);
  }

  lemma SetRoomPkgRoundTrip(p: SetRoomPkg, clrID: u32, rest: bytes)
    requires Sendable(SET_ROOM_PKG, PkgTypes(), PkgSlots(p))
    ensures SurvivesWire(SET_ROOM_PKG, PkgTypes(), PkgSlots(p), clrID, rest)
    ensures ListOk(p.rateFeature) ==>
              ReadPkg(Layout(PkgTypes(), PkgSlots(p))) == p.(rateFeature := Canonical(p.rateFeature))
  {
    RequestRoundTrip(SET_ROOM_PKG, PkgTypes(), PkgSlots(p), clrID, rest);
    if ListOk(p.rateFeature) {
      PkgReads(p);
    }
  }

  lemma SetRoomPkgInjective(p: SetRoomPkg, q: SetRoomPkg)
    requires ListOk(p.rateFeature) && ListOk(q.rateFeature)
    requires Sendable(SET_ROOM_PKG, PkgTypes(), PkgSlots(p)) && Sendable(SET_ROOM_PKG, PkgTypes(), PkgSlots(q))
    ensures Payload(SET_ROOM_PKG, Layout(PkgTypes(), PkgSlots(p)))
         == Payload(SET_ROOM_PKG, Layout(PkgTypes(), PkgSlots(q)))
       <==> p.(rateFeature := Canonical(p.rateFeature)) == q.(rateFeature := Canonical(q.rateFeature))
  {
    hide PkgTypes, ReadPkg, Layout, Payload, Canonical, SetList;
    PayloadDeterminesSlots(SET_ROOM_PKG, PkgTypes(), PkgSlots(p), PkgSlots(q));
    PkgReads(p);
    PkgReads(q);
    PkgCanonical(p);
    PkgCanonical(q);
  }

  lemma PkgCanonical(p: SetRoomPkg)
    ensures PkgSlots(p.(rateFeature := Canonical(p.rateFeature))) == PkgSlots(p)
  {
    CanonicalWrittenAlike(p.rateFeature);
  }
}
