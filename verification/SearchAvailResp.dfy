/** The nested decoder of SEARCHAVAIL responses (ParseSearchAvailResp in internal/command/search_avail.go). */
module SearchAvailResp {
  import opened GoBytes
  import opened Frame
  import opened Dates
  import opened PropertyId
  import opened RateFeatures
  import opened Responses

  datatype DayAvail = DayAvail(date: bytes, availability: byte, finalPrice: u32, rateFeature: seq<bytes>)

  datatype PropertyAvail = PropertyAvail(propertyID: bytes, days: seq<DayAvail>)

  datatype AvailError =
    | Failed(why: Failure)
    | BadNumDays
    | ExpectedProperty(index: nat, got: byte, id: u16)
    | MissingDays(propertyID: bytes)
    | ExpectedDays(propertyID: bytes, got: byte)
    | TooShort(propertyID: bytes)
    | CountMismatch(propertyID: bytes, expected: u16, found: u16)
    | LengthMismatch(propertyID: bytes, expectedLen: nat, foundLen: nat)
    | Truncated(propertyID: bytes, day: int)
    | InvalidDate(propertyID: bytes)
    | ExtraFields(consumed: int, total: int)

  // ---------- what the decoder computes ----------

  /** `k` more days from position `at` of a days vector. */
  function Days(codecs: Option<seq<bytes>>, baseYear: nat, id: bytes, data: bytes, at: nat, k: nat)
    : Result<seq<DayAvail>, AvailError>
    requires at + 11 * k <= |data|
    decreases k
  {
    if k == 0 then Ok([]) else
    var date := U16ToDate(baseYear, U16(data[at..at + 2]));
    if date.Err? then Err(InvalidDate(id)) else
    After([DayAvail(date.value, data[at + 2], U32(data[at + 3..at + 7]),
                    RateFeatureNames(codecs, U32(data[at + 7..at + 11])))],
          Days(codecs, baseYear, id, data, at + 11, k - 1))
  }

  /** The properties in the remaining fields, the first of which is number `i`. */
  function Properties(codecs: Option<seq<bytes>>, baseYear: nat, numDays: u16, rest: seq<Field>, i: nat)
    : Result<seq<PropertyAvail>, AvailError>
  {
    if rest == [] then Ok([])
    else if rest[0].fieldType != 0x01 then Err(ExpectedProperty(i, rest[0].fieldType, rest[0].id))
    else
      var id := PropertyID(rest[0].data);
      if |rest| == 1 then Err(MissingDays(id)) else
      var days := Vector(codecs, baseYear, numDays, id, rest[1]);
      if days.Err? then Err(days.error)
      else After([PropertyAvail(id, days.value)], Properties(codecs, baseYear, numDays, rest[2..], i + 2))
  }

  /** One property's days vector. */
  function Vector(codecs: Option<seq<bytes>>, baseYear: nat, numDays: u16, id: bytes, f: Field)
    : Result<seq<DayAvail>, AvailError>
  {
    if f.fieldType != 0x08 then Err(ExpectedDays(id, f.fieldType))
    else if |f.data| < 2 then Err(TooShort(id))
    else if U16(f.data[0..2]) != numDays then Err(CountMismatch(id, numDays, U16(f.data[0..2])))
    else if |f.data| != 2 + 11 * numDays then Err(LengthMismatch(id, 2 + 11 * numDays, |f.data|))
    else Days(codecs, baseYear, id, f.data, 2, numDays)
  }

  function Response(codecs: Option<seq<bytes>>, baseYear: nat, status: bytes, fields: seq<Field>)
    : Result<seq<PropertyAvail>, AvailError>
    requires status == SUCCESS ==> fields != []
  {
    if status != SUCCESS then Err(Failed(FailureOf(fields, ResponseError)))
    else if fields[0].id != 1 || fields[0].fieldType != 0x02 || |fields[0].data| != 2 then Err(BadNumDays)
    else Properties(codecs, baseYear, U16(fields[0].data), fields[1..], 1)
  }

  lemma DaysUnfold(codecs: Option<seq<bytes>>, baseYear: nat, id: bytes, data: bytes, at: nat, k: nat,
                   done: seq<DayAvail>)
    requires at + 11 * k <= |data| && k > 0
    ensures var r := After(done, Days(codecs, baseYear, id, data, at, k));
            var date := U16ToDate(baseYear, U16(data[at..at + 2]));
            if date.Err? then r == Err(InvalidDate(id)) else
            var day := DayAvail(date.value, data[at + 2], U32(data[at + 3..at + 7]),
                                RateFeatureNames(codecs, U32(data[at + 7..at + 11])));
            r == After(done + [day], Days(codecs, baseYear, id, data, at + 11, k - 1))
  {
    hide U16, U32, RateFeatureNames, U16ToDate;
    var date := U16ToDate(baseYear, U16(data[at..at + 2]));
    if date.Ok? {
      var day := DayAvail(date.value, data[at + 2], U32(data[at + 3..at + 7]),
                          RateFeatureNames(codecs, U32(data[at + 7..at + 11])));
      AfterAfter(done, [day], Days(codecs, baseYear, id, data, at + 11, k - 1));
    }
  }

  /** The inner part of the decoder: one property's days, eleven bytes each behind a two-byte count. */
  method ParseDays(codecs: Option<seq<bytes>>, baseYear: nat, numDays: u16, propID: bytes, daysField: Field)
    returns (r: Result<seq<DayAvail>, AvailError>)
    ensures r == Vector(codecs, baseYear, numDays, propID, daysField)
    ensures r.Err? ==> !r.error.Truncated? && !r.error.ExtraFields?
  {
    hide U16, U32, RateFeatureNames, U16ToDate, Days;
    if daysField.fieldType != 0x08 {
      return Err(ExpectedDays(propID, daysField.fieldType));
    }
    var data := daysField.data;
    if |data| < 2 {
      return Err(TooShort(propID));
    }
    var daysCount := U16(data[0..2]);
    if daysCount != numDays {
      return Err(CountMismatch(propID, numDays, daysCount));
    }
    var expectedDataLen := 2 + 11 * (daysCount as int);
    if |data| != expectedDataLen {
      return Err(LengthMismatch(propID, expectedDataLen, |data|));
    }
    var days: seq<DayAvail> := [];
    var dataCursor := 2;
    ghost var whole := Days(codecs, baseYear, propID, data, 2, daysCount);
    AfterAfter([], [], whole);
    var d: nat := 0;
    while d < daysCount
      invariant 0 <= d <= daysCount && dataCursor == 2 + 11 * d
      invariant whole == After(days, Days(codecs, baseYear, propID, data, dataCursor, daysCount - d))
    {
      if dataCursor + 11 > |data| {
        return Err(Truncated(propID, d));
      }
      DaysUnfold(codecs, baseYear, propID, data, dataCursor, daysCount - d, days);
      var datePacked := U16(data[dataCursor..dataCursor + 2]);
      dataCursor := dataCursor + 2;
      var availability := data[dataCursor];
      dataCursor := dataCursor + 1;
      var finalPrice := U32(data[dataCursor..dataCursor + 4]);
      dataCursor := dataCursor + 4;
      var rateFeature := U32(data[dataCursor..dataCursor + 4]);
      dataCursor := dataCursor + 4;
      var dateStr := U16ToDate(baseYear, datePacked);
      if dateStr.Err? {
        return Err(InvalidDate(propID));
      }
      var features := BitmaskToRateFeatureStrings(codecs, rateFeature);
      days := days + [DayAvail(dateStr.value, availability, finalPrice, features)];
      d := d + 1;
    }
    NoDays(codecs, baseYear, propID, data, dataCursor, days);
    return Ok(days);
  }

  lemma NoDays(codecs: Option<seq<bytes>>, baseYear: nat, id: bytes, data: bytes, at: nat, days: seq<DayAvail>)
    requires at <= |data|
    ensures After(days, Days(codecs, baseYear, id, data, at, 0)) == Ok(days)
  {
    assert days + [] == days;
  }

  lemma PropertiesUnfold(codecs: Option<seq<bytes>>, baseYear: nat, numDays: u16, fields: seq<Field>, i: nat,
                         done: seq<PropertyAvail>)
    requires i <= |fields|
    ensures var r := After(done, Properties(codecs, baseYear, numDays, fields[i..], i));
            if i == |fields| then r == Ok(done)
            else if fields[i].fieldType != 0x01 then r == Err(ExpectedProperty(i, fields[i].fieldType, fields[i].id))
            else
              var id := PropertyID(fields[i].data);
              if i + 1 == |fields| then r == Err(MissingDays(id)) else
              var days := Vector(codecs, baseYear, numDays, id, fields[i + 1]);
              if days.Err? then r == Err(days.error)
              else r == After(done + [PropertyAvail(id, days.value)],
                              Properties(codecs, baseYear, numDays, fields[i + 2..], i + 2))
  {
    hide PropertyID, Vector;
    var rest := fields[i..];
    if i == |fields| {
      assert done + [] == done;
    } else if i + 1 < |fields| {
      assert rest[2..] == fields[i + 2..];
      var id := PropertyID(fields[i].data);
      var days := Vector(codecs, baseYear, numDays, id, fields[i + 1]);
      if days.Ok? {
        AfterAfter(done, [PropertyAvail(id, days.value)],
                   Properties(codecs, baseYear, numDays, fields[i + 2..], i + 2));
      }
    }
  }

  /**
   * The decoder itself. A SUCCESS response is indexed at its first field, so it must have one. Its check for a
   * truncated day and its check for fields left over are never what stops it.
   */
  method ParseSearchAvailResp(codecs: Option<seq<bytes>>, baseYear: nat, status: bytes, fields: seq<Field>)
    returns (r: Result<seq<PropertyAvail>, AvailError>)
    requires status == SUCCESS ==> fields != []
    ensures r == Response(codecs, baseYear, status, fields)
    ensures r.Err? ==> !r.error.Truncated? && !r.error.ExtraFields?
  {
    hide U16, PropertyID, Vector, Properties;
    if status != Ascii("SUCCESS") {
      if |fields| > 0 && fields[0].fieldType == 0x01 {
        return Err(Failed(ServerError(fields[0].data)));
      }
      return Err(Failed(ResponseError));
    }
    var numDaysField := fields[0];
    if numDaysField.id != 1 || numDaysField.fieldType != 0x02 || |numDaysField.data| != 2 {
      return Err(BadNumDays);
    }
    var numDays := U16(numDaysField.data);
    var out: seq<PropertyAvail> := [];
    var idx := 1;
    ghost var whole := Properties(codecs, baseYear, numDays, fields[1..], 1);
    AfterAfter([], [], whole);
    while idx < |fields|
      invariant 1 <= idx <= |fields|
      invariant whole == After(out, Properties(codecs, baseYear, numDays, fields[idx..], idx))
    {
      PropertiesUnfold(codecs, baseYear, numDays, fields, idx, out);
      var f := fields[idx];
      if f.fieldType != 0x01 {
        return Err(ExpectedProperty(idx, f.fieldType, f.id));
      }
      var propID := BytesToPropertyID(f.data);
      idx := idx + 1;
      if idx >= |fields| {
        return Err(MissingDays(propID));
      }
      var days := ParseDays(codecs, baseYear, numDays, propID, fields[idx]);
      if days.Err? {
        return Err(days.error);
      }
      idx := idx + 1;
      out := out + [PropertyAvail(propID, days.value)];
    }
    PropertiesUnfold(codecs, baseYear, numDays, fields, idx, out);
    if idx != |fields| {
      return Err(ExtraFields(idx, |fields|));
    }
    return Ok(out);
  }

  // ---------- the encoding it inverts ----------

  datatype RawDay = RawDay(packed: u16, availability: byte, finalPrice: u32, mask: u32)

  /** A property as it is sent; the decoder does not look at the two field ids. */
  datatype RawProperty = RawProperty(idField: u16, id: bytes, daysField: u16, days: seq<RawDay>)

  function DayBytes(d: RawDay): (b: bytes)
    ensures |b| == 11
  {
    LE(d.packed, 2) + [d.availability] + LE(d.finalPrice, 4) + LE(d.mask, 4)
  }

  function DaysBytes(ds: seq<RawDay>): (b: bytes)
    ensures |b| == 11 * |ds|
  {
    if ds == [] then [] else DayBytes(ds[0]) + DaysBytes(ds[1..])
  }

  function PropertyFields(p: RawProperty): seq<Field> {
    [Field(p.idField, 0x01, p.id), Field(p.daysField, 0x08, LE(|p.days|, 2) + DaysBytes(p.days))]
  }

  function PropertiesFields(ps: seq<RawProperty>): (fs: seq<Field>)
    ensures |fs| == 2 * |ps|
  {
    if ps == [] then [] else PropertyFields(ps[0]) + PropertiesFields(ps[1..])
  }

  function ResponseFields(numDays: u16, ps: seq<RawProperty>): seq<Field> {
    [Field(1, 0x02, LE(numDays, 2))] + PropertiesFields(ps)
  }

  // ---------- what an encoding means ----------

  function DayOf(codecs: Option<seq<bytes>>, baseYear: nat, d: RawDay): DayAvail {
    DayAvail(Text(Coded(baseYear, d.packed)), d.availability, d.finalPrice, RateFeatureNames(codecs, d.mask))
  }

  function DaysOf(codecs: Option<seq<bytes>>, baseYear: nat, ds: seq<RawDay>): (days: seq<DayAvail>)
    ensures |days| == |ds|
  {
    if ds == [] then [] else [DayOf(codecs, baseYear, ds[0])] + DaysOf(codecs, baseYear, ds[1..])
  }

  function PropertiesOf(codecs: Option<seq<bytes>>, baseYear: nat, ps: seq<RawProperty>): (out: seq<PropertyAvail>)
    ensures |out| == |ps|
    ensures forall i | 0 <= i < |ps| ::
              out[i] == PropertyAvail(PropertyID(ps[i].id), DaysOf(codecs, baseYear, ps[i].days))
  {
    if ps == [] then [] else
    [PropertyAvail(PropertyID(ps[0].id), DaysOf(codecs, baseYear, ps[0].days))]
    + PropertiesOf(codecs, baseYear, ps[1..])
  }

  predicate RealDays(baseYear: nat, ds: seq<RawDay>) {
    forall i | 0 <= i < |ds| :: Real(Coded(baseYear, ds[i].packed))
  }

  predicate RealDates(baseYear: nat, ps: seq<RawProperty>) {
    forall i | 0 <= i < |ps| :: RealDays(baseYear, ps[i].days)
  }

  predicate Uniform(numDays: u16, ps: seq<RawProperty>) {
    forall i | 0 <= i < |ps| :: |ps[i].days| == numDays
  }

  // ---------- every encoding is decoded ----------

  /** The four values read at a day's position are those of the day encoded there, and the other way round. */
  lemma DayExact(data: bytes, at: nat, d: RawDay)
    requires at + 11 <= |data|
    ensures d == RawDay(U16(data[at..at + 2]), data[at + 2], U32(data[at + 3..at + 7]), U32(data[at + 7..at + 11]))
            <==> data[at..at + 11] == DayBytes(d)
  {
    hide LE, U16, U32;
    var b := data[at..at + 11];
    var (w, x, y, z) := (data[at..at + 2], data[at + 2], data[at + 3..at + 7], data[at + 7..at + 11]);
    assert b == w + [x] + y + z;
    U16RoundTrip(d.packed, w);
    U32RoundTrip(d.finalPrice, y);
    U32RoundTrip(d.mask, z);
    if b == DayBytes(d) {
      Parts(LE(d.packed, 2), [d.availability], LE(d.finalPrice, 4), LE(d.mask, 4));
      Parts(w, [x], y, z);
    }
  }

  /** Days decode when all their dates are of the calendar, and then to what they mean. */
  lemma {:induction false} DaysDecode(codecs: Option<seq<bytes>>, baseYear: nat, id: bytes, data: bytes, at: nat,
                                      ds: seq<RawDay>)
    requires at <= |data| && data[at..] == DaysBytes(ds)
    ensures Days(codecs, baseYear, id, data, at, |ds|)
         == if RealDays(baseYear, ds) then Ok(DaysOf(codecs, baseYear, ds)) else Err(InvalidDate(id))
    decreases |ds|
  {
    hide U16, U32, U16ToDate, RateFeatureNames, DayBytes;
    if ds != [] {
      var d := ds[0];
      assert data[at..at + 11] == data[at..][..11] == DayBytes(d);
      DayExact(data, at, d);
      PackedDateExact(baseYear, d.packed);
      assert data[at + 11..] == data[at..][11..] == DaysBytes(ds[1..]);
      DaysDecode(codecs, baseYear, id, data, at + 11, ds[1..]);
      assert RealDays(baseYear, ds) <==> Real(Coded(baseYear, d.packed)) && RealDays(baseYear, ds[1..]);
    }
  }

  lemma VectorDecode(codecs: Option<seq<bytes>>, baseYear: nat, numDays: u16, id: bytes, p: RawProperty)
    requires |p.days| == numDays
    ensures Vector(codecs, baseYear, numDays, id, PropertyFields(p)[1])
         == if RealDays(baseYear, p.days) then Ok(DaysOf(codecs, baseYear, p.days)) else Err(InvalidDate(id))
  {
    hide LE, U16, Days;
    var data := LE(numDays, 2) + DaysBytes(p.days);
    assert data[0..2] == LE(numDays, 2) && data[2..] == DaysBytes(p.days);
    U16RoundTrip(numDays, data[0..2]);
    DaysDecode(codecs, baseYear, id, data, 2, p.days);
  }

  lemma {:induction false} PropertiesDecode(codecs: Option<seq<bytes>>, baseYear: nat, numDays: u16,
                                            ps: seq<RawProperty>, i: nat)
    requires Uniform(numDays, ps)
    ensures var r := Properties(codecs, baseYear, numDays, PropertiesFields(ps), i);
            if RealDates(baseYear, ps) then r == Ok(PropertiesOf(codecs, baseYear, ps))
            else r.Err? && r.error.InvalidDate?
    decreases |ps|
  {
    hide PropertyID, Vector;
    if ps != [] {
      var p := ps[0];
      VectorDecode(codecs, baseYear, numDays, PropertyID(p.id), p);
      PropertiesDecode(codecs, baseYear, numDays, ps[1..], i + 2);
      assert PropertiesFields(ps)[2..] == PropertiesFields(ps[1..]);
      assert RealDates(baseYear, ps) <==> RealDays(baseYear, p.days) && RealDates(baseYear, ps[1..]);
    }
  }

  /** Every encoded list of properties is accepted, in order, exactly when all its dates are of the calendar. */
  lemma EncodedIsAccepted(codecs: Option<seq<bytes>>, baseYear: nat, numDays: u16, ps: seq<RawProperty>)
    requires Uniform(numDays, ps)
    ensures var r := Response(codecs, baseYear, SUCCESS, ResponseFields(numDays, ps));
            if RealDates(baseYear, ps) then r == Ok(PropertiesOf(codecs, baseYear, ps))
            else r.Err? && r.error.InvalidDate?
  {
    hide LE, U16, Properties;
    U16RoundTrip(numDays, LE(numDays, 2));
    assert ResponseFields(numDays, ps)[1..] == PropertiesFields(ps);
    PropertiesDecode(codecs, baseYear, numDays, ps, 1);
  }

  // ---------- only encodings are accepted ----------

  /** The days a stretch of bytes encodes. */
  lemma {:induction false} ReadDays(data: bytes, at: nat, k: nat) returns (ds: seq<RawDay>)
    requires at + 11 * k == |data|
    ensures |ds| == k && data[at..] == DaysBytes(ds)
    decreases k
  {
    hide U16, U32, DayBytes;
    if k == 0 {
      ds := [];
    } else {
      var d := RawDay(U16(data[at..at + 2]), data[at + 2], U32(data[at + 3..at + 7]), U32(data[at + 7..at + 11]));
      DayExact(data, at, d);
      var later := ReadDays(data, at + 11, k - 1);
      ds := [d] + later;
      assert data[at..] == data[at..at + 11] + data[at + 11..];
    }
  }

  lemma VectorShape(codecs: Option<seq<bytes>>, baseYear: nat, numDays: u16, id: bytes, f: Field)
    returns (ds: seq<RawDay>)
    requires Vector(codecs, baseYear, numDays, id, f).Ok?
    ensures |ds| == numDays && RealDays(baseYear, ds)
    ensures f.fieldType == 0x08 && f.data == LE(numDays, 2) + DaysBytes(ds)
    ensures Vector(codecs, baseYear, numDays, id, f).value == DaysOf(codecs, baseYear, ds)
  {
    hide LE, U16, Days;
    ds := ReadDays(f.data, 2, numDays);
    DaysDecode(codecs, baseYear, id, f.data, 2, ds);
    U16RoundTrip(numDays, f.data[0..2]);
    assert f.data == f.data[0..2] + f.data[2..];
  }

  lemma {:induction false} PropertiesShape(codecs: Option<seq<bytes>>, baseYear: nat, numDays: u16, rest: seq<Field>,
                                           i: nat) returns (ps: seq<RawProperty>)
    requires Properties(codecs, baseYear, numDays, rest, i).Ok?
    ensures rest == PropertiesFields(ps) && Uniform(numDays, ps) && RealDates(baseYear, ps)
    ensures Properties(codecs, baseYear, numDays, rest, i).value == PropertiesOf(codecs, baseYear, ps)
  {
    hide PropertyID, Vector;
    if rest == [] {
      ps := [];
    } else {
      var (f, g) := (rest[0], rest[1]);
      var ds := VectorShape(codecs, baseYear, numDays, PropertyID(f.data), g);
      var later := PropertiesShape(codecs, baseYear, numDays, rest[2..], i + 2);
      var p := RawProperty(f.id, f.data, g.id, ds);
      ps := [p] + later;
      assert ps[1..] == later && rest == PropertyFields(p) + rest[2..];
    }
  }

  /**
   * What is accepted is an encoding, of as many properties as it yields, each with exactly the announced number of
   * days, and it yields what that encoding means.
   */
  lemma AcceptedIsEncoded(codecs: Option<seq<bytes>>, baseYear: nat, fields: seq<Field>)
    returns (numDays: u16, ps: seq<RawProperty>)
    requires fields != [] && Response(codecs, baseYear, SUCCESS, fields).Ok?
    ensures var out := Response(codecs, baseYear, SUCCESS, fields).value;
            && fields == ResponseFields(numDays, ps) && Uniform(numDays, ps) && RealDates(baseYear, ps)
            && out == PropertiesOf(codecs, baseYear, ps)
            && |fields| == 1 + 2 * |out|
            && forall i | 0 <= i < |out| :: |out[i].days| == numDays
  {
    hide LE, U16, Properties;
    numDays := U16(fields[0].data);
    U16RoundTrip(numDays, fields[0].data);
    ps := PropertiesShape(codecs, baseYear, numDays, fields[1..], 1);
    assert fields == [fields[0]] + fields[1..];
  }

  /** From a server's message on the wire to the properties the caller sees. */
  lemma ResponseEndToEnd(codecs: Option<seq<bytes>>, baseYear: nat, clrID: u32, numDays: u16, ps: seq<RawProperty>,
                         rest: bytes)
    requires Uniform(numDays, ps) && RealDates(baseYear, ps)
    requires WellFormed(Message(clrID, SUCCESS, ResponseFields(numDays, ps)))
    ensures var deliveries := Deliveries(Wire(Message(clrID, SUCCESS, ResponseFields(numDays, ps))) + rest);
            && deliveries != [] && deliveries[0].clrID == clrID
            && deliveries[0].result.fields == ResponseFields(numDays, ps)
            && Response(codecs, baseYear, deliveries[0].result.status, deliveries[0].result.fields)
               == Ok(PropertiesOf(codecs, baseYear, ps))
  {
    hide Response, Wire, Deliveries;
    var m := Message(clrID, SUCCESS, ResponseFields(numDays, ps));
    FirstDelivered(m, rest);
    EncodedIsAccepted(codecs, baseYear, numDays, ps);
  }
}
