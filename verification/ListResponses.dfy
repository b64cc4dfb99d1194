/**
 * The list decoders (internal/command/get_segments.go, prop_room_date_list.go, get_codecs.go, search_prop.go).
 */
module ListResponses {
  import opened GoBytes
  import opened Frame
  import opened Dates
  import opened PropertyId
  import opened Responses

  datatype ListError =
    | Failed(why: Failure)
    | OddFieldCount
    | ExpectedSegment(index: int, got: byte)
    | MissingCount(segment: bytes)
    | ExpectedCount(index: int, got: byte)
    | BadCountLength(length: nat)
    | BadFieldID(found: u16, expected: int)
    | BadFieldType(id: u16)
    | NotOneField(count: nat)
    | NotYaml(got: byte)

  // ---------- GETSEGMENTS ----------

  datatype SegmentInfo = SegmentInfo(segment: bytes, propCount: u32)

  /** A segment as it is sent; the decoder does not look at the two field ids. */
  datatype RawSegment = RawSegment(nameField: u16, countField: u16, info: SegmentInfo)

  function SegmentFields(s: RawSegment): seq<Field> {
    [Field(s.nameField, 0x01, s.info.segment), Field(s.countField, 0x03, LE(s.info.propCount, 4))]
  }

  function SegmentsFields(ss: seq<RawSegment>): (fs: seq<Field>)
    ensures |fs| == 2 * |ss|
  {
    if ss == [] then [] else SegmentsFields(ss[..|ss| - 1]) + SegmentFields(ss[|ss| - 1])
  }

  function Infos(ss: seq<RawSegment>): seq<SegmentInfo> {
    seq(|ss|, i requires 0 <= i < |ss| => ss[i].info)
  }

  /** A pair of fields the decoder takes for a segment. */
  predicate IsPair(f: Field, g: Field) {
    f.fieldType == 0x01 && g.fieldType == 0x03 && |g.data| == 4
  }

  /**
   * The list is accepted exactly when the fields are pairs, and is what those pairs encode. The check for a missing
   * count is never what stops the decoder.
   */
  method ParseGetSegmentsResp(status: bytes, fields: seq<Field>)
    returns (r: Result<seq<SegmentInfo>, ListError>, ghost raw: seq<RawSegment>)
    ensures status != SUCCESS ==> r == Err(Failed(FailureOf(fields, ResponseError)))
    ensures status == SUCCESS ==>
              (r.Ok? <==> && |fields| % 2 == 0
                          && forall k | 0 <= k < |fields| / 2 :: IsPair(fields[2 * k], fields[2 * k + 1]))
    ensures r.Ok? ==> fields == SegmentsFields(raw) && r.value == Infos(raw)
    ensures r.Err? ==> !r.error.MissingCount?
  {
    hide LE, U32, SegmentsFields, SegmentFields, Infos;
    raw := [];
    NoSegments();
    if status != Ascii("SUCCESS") {
      if |fields| > 0 && fields[0].fieldType == 0x01 {
        return Err(Failed(ServerError(fields[0].data))), raw;
      }
      return Err(Failed(ResponseError)), raw;
    }
    if |fields| % 2 != 0 {
      return Err(OddFieldCount), raw;
    }
    var list: seq<SegmentInfo> := [];
    var i := 0;
    while i < |fields|
      invariant 0 <= i <= |fields| && i % 2 == 0
      invariant forall k | 0 <= k < i / 2 :: IsPair(fields[2 * k], fields[2 * k + 1])
      invariant fields[..i] == SegmentsFields(raw) && list == Infos(raw)
    {
      if fields[i].fieldType != 0x01 {
        NotAllPairs(fields, i / 2);
        return Err(ExpectedSegment(i, fields[i].fieldType)), raw;
      }
      var segment := fields[i].data;
      if i + 1 >= |fields| {
        return Err(MissingCount(segment)), raw;
      }
      if fields[i + 1].fieldType != 0x03 {
        NotAllPairs(fields, i / 2);
        return Err(ExpectedCount(i + 1, fields[i + 1].fieldType)), raw;
      }
      if |fields[i + 1].data| != 4 {
        NotAllPairs(fields, i / 2);
        return Err(BadCountLength(|fields[i + 1].data|)), raw;
      }
      var propCount := U32(fields[i + 1].data);
      U32RoundTrip(propCount, fields[i + 1].data);
      ghost var s := RawSegment(fields[i].id, fields[i + 1].id, SegmentInfo(segment, propCount));
      OneMoreSegment(raw, s, fields[i], fields[i + 1]);
      raw := raw + [s];
      assert fields[..i + 2] == fields[..i] + [fields[i], fields[i + 1]];
      list := list + [SegmentInfo(segment, propCount)];
      i := i + 2;
    }
    assert fields[..i] == fields;
    return Ok(list), raw;
  }

  lemma NoSegments()
    ensures SegmentsFields([]) == [] && Infos([]) == []
  {
  }

  lemma OneMoreSegment(ss: seq<RawSegment>, s: RawSegment, f: Field, g: Field)
    requires f == Field(s.nameField, 0x01, s.info.segment)
    requires g == Field(s.countField, 0x03, LE(s.info.propCount, 4))
    ensures SegmentsFields(ss + [s]) == SegmentsFields(ss) + [f, g] && Infos(ss + [s]) == Infos(ss) + [s.info]
  {
    hide LE;
    assert (ss + [s])[..|ss|] == ss;
  }

  lemma NotAllPairs(fields: seq<Field>, k: nat)
    requires 2 * k + 1 < |fields| && !IsPair(fields[2 * k], fields[2 * k + 1])
    ensures !forall k | 0 <= k < |fields| / 2 :: IsPair(fields[2 * k], fields[2 * k + 1])
  {
  }

  /** Every encoded list is made of pairs, so it is accepted. */
  lemma {:induction false} SegmentsArePairs(ss: seq<RawSegment>, k: nat)
    requires k < |ss|
    ensures IsPair(SegmentsFields(ss)[2 * k], SegmentsFields(ss)[2 * k + 1])
  {
    hide LE;
    if k < |ss| - 1 {
      SegmentsArePairs(ss[..|ss| - 1], k);
    }
  }

  /** And it is accepted as itself: no two lists have the same fields. */
  lemma {:induction false} SegmentsDetermined(ss: seq<RawSegment>, tt: seq<RawSegment>)
    requires SegmentsFields(ss) == SegmentsFields(tt)
    ensures ss == tt
    decreases |ss|
  {
    hide LE, SegmentFields;
    if ss != [] {
      var n := |ss| - 1;
      LastSegment(ss);
      LastSegment(tt);
      SegmentDetermined(ss[n], tt[n]);
      SegmentsDetermined(ss[..n], tt[..n]);
      assert ss == ss[..n] + [ss[n]] && tt == tt[..n] + [tt[n]];
    }
  }

  lemma LastSegment(ss: seq<RawSegment>)
    requires ss != []
    ensures var (n, fs) := (|ss| - 1, SegmentsFields(ss));
            fs[..2 * n] == SegmentsFields(ss[..n]) && fs[2 * n..] == SegmentFields(ss[n])
  {
    hide LE;
  }

  lemma SegmentDetermined(s: RawSegment, t: RawSegment)
    requires SegmentFields(s) == SegmentFields(t)
    ensures s == t
  {
    hide LE;
    assert SegmentFields(s)[0] == SegmentFields(t)[0] && SegmentFields(s)[1] == SegmentFields(t)[1];
    Widths();
    LEInjective(s.info.propCount, t.info.propCount, 4);
  }

  // ---------- PROPROOMDATELIST ----------

  predicate Sorted(s: seq<bytes>) {
    forall i, j | 0 <= i < j < |s| :: AtMost(s[i], s[j])
  }

  /** `slices.Sort`, by insertion. */
  function Sort(s: seq<bytes>): (r: seq<bytes>)
    ensures multiset(r) == multiset(s)
    ensures Sorted(r)
  {
    if s == [] then [] else
    assert s == s[..|s| - 1] + [s[|s| - 1]];
    Insert(s[|s| - 1], Sort(s[..|s| - 1]))
  }

  function Insert(x: bytes, s: seq<bytes>): (r: seq<bytes>)
    requires Sorted(s)
    ensures multiset(r) == multiset(s) + multiset{x}
    ensures Sorted(r)
  {
    if s == [] then [x]
    else if AtMost(x, s[0]) then
      InsertFront(x, s);
      [x] + s
    else
      InsertBehind(x, s);
      assert s == [s[0]] + s[1..];
      [s[0]] + Insert(x, s[1..])
  }

  lemma InsertFront(x: bytes, s: seq<bytes>)
    requires Sorted(s) && s != [] && AtMost(x, s[0])
    ensures Sorted([x] + s)
  {
    forall j | 0 <= j < |s| ensures AtMost(x, s[j]) {
      if j > 0 { LessTrans(x, s[0], s[j]); }
    }
  }

  lemma InsertBehind(x: bytes, s: seq<bytes>)
    requires Sorted(s) && s != [] && !AtMost(x, s[0])
    ensures Sorted(s[1..])
    ensures forall r: seq<bytes> | Sorted(r) && multiset(r) == multiset(s[1..]) + multiset{x} :: Sorted([s[0]] + r)
  {
    forall r: seq<bytes> | Sorted(r) && multiset(r) == multiset(s[1..]) + multiset{x} ensures Sorted([s[0]] + r) {
      forall j | 0 <= j < |r| ensures AtMost(s[0], r[j]) {
        assert r[j] in multiset(r);
        if r[j] == x {
          LessTotal(x, s[0]);
        } else {
          assert r[j] in s[1..];
        }
      }
    }
  }

  /** The non-empty strings among the fields. */
  function Strings(fields: seq<Field>): seq<bytes> {
    if fields == [] then [] else
    var (before, last) := (Strings(fields[..|fields| - 1]), fields[|fields| - 1].data);
    if last == [] then before else before + [last]
  }

  /** The data of every field, empty or not. */
  function AllData(fields: seq<Field>): seq<bytes> {
    seq(|fields|, i requires 0 <= i < |fields| => fields[i].data)
  }

  /** Every text is kept as often as it was sent, but for the empty one, which is dropped. */
  lemma {:induction false} StringsCount(fields: seq<Field>, s: bytes)
    ensures multiset(Strings(fields))[s] == if s == [] then 0 else multiset(AllData(fields))[s]
  {
    if fields != [] {
      var (before, last) := (fields[..|fields| - 1], fields[|fields| - 1].data);
      StringsCount(before, s);
      assert AllData(fields) == AllData(before) + [last];
    }
  }

  /** On success: the non-empty strings, each as often as it was sent, in ascending order. */
  method ParsePropRoomDateListResp(status: bytes, fields: seq<Field>) returns (r: Result<seq<bytes>, ListError>)
    ensures status != SUCCESS ==> r == Err(Failed(FailureOf(fields, ResponseError)))
    ensures status == SUCCESS ==> r.Ok? && Sorted(r.value) && multiset(r.value) == multiset(Strings(fields))
    ensures status == SUCCESS ==>
              forall s :: multiset(r.value)[s] == if s == [] then 0 else multiset(AllData(fields))[s]
  {
    if status != Ascii("SUCCESS") {
      if |fields| > 0 && fields[0].fieldType == 0x01 {
        return Err(Failed(ServerError(fields[0].data)));
      }
      return Err(Failed(ResponseError));
    }
    var out: seq<bytes> := [];
    for i := 0 to |fields|
      invariant out == Strings(fields[..i])
    {
      var s := fields[i].data;
      assert fields[..i + 1][..i] == fields[..i];
      if s != [] {
        out := out + [s];
      }
    }
    assert fields[..|fields|] == fields;
    forall s ensures multiset(out)[s] == if s == [] then 0 else multiset(AllData(fields))[s] {
      StringsCount(fields, s);
    }
    return Ok(Sort(out));
  }

  /** There is only one ascending order of given strings. */
  lemma {:induction false} SortedUnique(a: seq<bytes>, b: seq<bytes>)
    requires Sorted(a) && Sorted(b) && multiset(a) == multiset(b)
    ensures a == b
  {
    assert |a| == |multiset(a)| == |multiset(b)| == |b|;
    if a != [] {
      hide Sorted, AtMost;
      SameFirst(a, b);
      SortedTail(a);
      SortedTail(b);
      SortedUnique(a[1..], b[1..]);
      assert a == [a[0]] + a[1..] && b == [b[0]] + b[1..];
    }
  }

  lemma SameFirst(a: seq<bytes>, b: seq<bytes>)
    requires Sorted(a) && Sorted(b) && multiset(a) == multiset(b) && a != [] && b != []
    ensures a[0] == b[0]
  {
    hide Sorted, AtMost;
    assert a[0] in a && b[0] in b;
    assert a[0] in multiset(b) && b[0] in multiset(a);
    FirstIsLeast(a, b[0]);
    FirstIsLeast(b, a[0]);
    LessTotal(a[0], b[0]);
  }

  lemma SortedTail(s: seq<bytes>)
    requires Sorted(s) && s != []
    ensures Sorted(s[1..]) && multiset(s[1..]) == multiset(s) - multiset{s[0]}
  {
    assert s == [s[0]] + s[1..];
  }

  lemma FirstIsLeast(s: seq<bytes>, x: bytes)
    requires Sorted(s) && x in multiset(s)
    ensures s != [] && AtMost(s[0], x)
  {
    var j :| 0 <= j < |s| && s[j] == x;
    if j == 0 {
      LessIrreflexive(x, x);
    }
  }

  /** Well-formed dates come back in the order of the calendar. */
  lemma SortedDatesAreChronological(dates: seq<bytes>, i: nat, j: nat)
    requires Sorted(dates) && i < j < |dates|
    requires forall d | d in dates :: Matches(d) && Real(Spelled(d))
    ensures !Before(Spelled(dates[j]), Spelled(dates[i]))
  {
    assert dates[i] in dates && dates[j] in dates;
    TextOfSpelled(dates[i]);
    TextOfSpelled(dates[j]);
    TextOrders(Spelled(dates[j]), Spelled(dates[i]));
  }

  // ---------- GETCODECS ----------

  /** Accepted exactly when there is one field of the codec type, whose text is split at its commas. */
  method ParseGetCodecsResp(status: bytes, fields: seq<Field>) returns (r: Result<seq<bytes>, ListError>)
    ensures status != SUCCESS ==> r == Err(Failed(FailureOf(fields, UnknownError)))
    ensures status == SUCCESS ==> (r.Ok? <==> |fields| == 1 && fields[0].fieldType == 0x09)
    ensures r.Ok? ==> r.value == Split(fields[0].data, COMMA) && Join(r.value, [COMMA]) == fields[0].data
  {
    if status != Ascii("SUCCESS") {
      if |fields| > 0 && fields[0].fieldType == 0x01 {
        return Err(Failed(ServerError(fields[0].data)));
      }
      return Err(Failed(UnknownError));
    }
    if |fields| != 1 {
      return Err(NotOneField(|fields|));
    }
    var field := fields[0];
    if field.fieldType != 0x09 {
      return Err(NotYaml(field.fieldType));
    }
    JoinOfSplit(field.data, COMMA);
    return Ok(Split(field.data, COMMA));
  }

  /** A text is split into these names exactly when they are at least one, have no comma, and join to it. */
  lemma CodecsRoundTrip(text: bytes, names: seq<bytes>)
    ensures Split(text, COMMA) == names <==>
            names != [] && CommaFree(names, COMMA) && Join(names, [COMMA]) == text
  {
    JoinOfSplit(text, COMMA);
    if names != [] && CommaFree(names, COMMA) && Join(names, [COMMA]) == text {
      SplitOfJoin(names, COMMA);
    }
  }

  // ---------- SEARCHPROP ----------

  /** Field `i` of a well-formed answer: numbered from one, modulo 2^16, and of the string type. */
  predicate IsPropertyField(f: Field, i: nat) {
    f.id == (i + 1) % 0x1_0000 && f.fieldType == 0x01
  }

  method ParseSearchPropResp(status: bytes, fields: seq<Field>) returns (r: Result<seq<bytes>, ListError>)
    ensures status != SUCCESS ==>
              r == Err(Failed(if fields != [] && fields[0].id == 1 then FailureOf(fields, ResponseError)
                              else ResponseError))
    ensures status == SUCCESS ==> (r.Ok? <==> forall i | 0 <= i < |fields| :: IsPropertyField(fields[i], i))
    ensures r.Ok? ==> |r.value| == |fields| && forall i | 0 <= i < |fields| :: r.value[i] == PropertyID(fields[i].data)
  {
    hide PropertyID;
    if status != Ascii("SUCCESS") {
      if |fields| > 0 && fields[0].id == 0x01 && fields[0].fieldType == 0x01 {
        return Err(Failed(ServerError(fields[0].data)));
      }
      return Err(Failed(ResponseError));
    }
    var ids: seq<bytes> := [];
    for i := 0 to |fields|
      invariant |ids| == i && forall k | 0 <= k < i :: ids[k] == PropertyID(fields[k].data)
      invariant forall k | 0 <= k < i :: IsPropertyField(fields[k], k)
    {
      var f := fields[i];
      if f.id != (i + 1) % 0x1_0000 {
        return Err(BadFieldID(f.id, i + 1));
      }
      if f.fieldType != 0x01 {
        return Err(BadFieldType(f.id));
      }
      var id := BytesToPropertyID(f.data);
      ids := ids + [id];
    }
    return Ok(ids);
  }

  /** How a server answers: one string field for each property, numbered from one in sixteen bits. */
  function AnswerFields(raw: seq<bytes>): (fs: seq<Field>)
    ensures |fs| == |raw|
  {
    if raw == [] then [] else
    var n := |raw| - 1;
    AnswerFields(raw[..n]) + [Field((n + 1) % 0x1_0000, 0x01, raw[n])]
  }

  lemma {:induction false} AnswerFieldAt(raw: seq<bytes>, i: nat)
    requires i < |raw|
    ensures AnswerFields(raw)[i] == Field((i + 1) % 0x1_0000, 0x01, raw[i])
  {
    if i < |raw| - 1 {
      AnswerFieldAt(raw[..|raw| - 1], i);
    }
  }

  /** What the decoder accepts is exactly what such a server sends. */
  lemma AnswersExact(fields: seq<Field>)
    ensures (forall i | 0 <= i < |fields| :: IsPropertyField(fields[i], i)) <==> fields == AnswerFields(AllData(fields))
  {
    var raw := AllData(fields);
    forall i | 0 <= i < |fields| ensures AnswerFields(raw)[i] == Field((i + 1) % 0x1_0000, 0x01, fields[i].data) {
      AnswerFieldAt(raw, i);
    }
  }

  /** So an answer with short ids, each packed into sixteen bytes, is accepted and decoded to those ids in order. */
  lemma AnswerRoundTrip(ids: seq<bytes>, raw: seq<bytes>)
    requires |raw| == |ids|
    requires forall i | 0 <= i < |ids| :: |ids[i]| <= 15 && 0 !in ids[i] && raw[i] == PropertyId.Pack(ids[i], 16)
    ensures var fields := AnswerFields(raw);
            forall i | 0 <= i < |ids| :: IsPropertyField(fields[i], i) && PropertyID(fields[i].data) == ids[i]
  {
    hide PropertyId.Pack, PropertyID;
    forall i | 0 <= i < |ids|
      ensures IsPropertyField(AnswerFields(raw)[i], i) && PropertyID(AnswerFields(raw)[i].data) == ids[i]
    {
      AnswerFieldAt(raw, i);
      UnpackOfPack(ids[i], 16);
    }
  }
}
