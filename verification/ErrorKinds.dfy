/** How anything that goes wrong becomes one error value (pkg/types/err.go). */
module ErrorKinds {
  import opened GoBytes

  datatype ErrorKind = KindClient | KindRequest | KindInternal | KindRetry

  datatype RoomzinError = RoomzinError(kind: ErrorKind, code: bytes, msg: bytes)

  /** An error value: plain text, an already classified error, or text wrapped around another error. */
  datatype GoError =
    | Plain(text: bytes)
    | Classified(e: RoomzinError)
    | Wrapped(text: bytes, inner: GoError)

  /** What `RzError` may be handed. `Other` is any other value, by the text it prints as. */
  datatype Input = Nil | AnError(err: GoError) | AString(s: bytes) | Other(text: bytes)

  /** `RoomzinError.Error`. */
  function Flatten(e: RoomzinError): bytes {
    e.code + [COLON] + e.msg
  }

  function ErrorText(err: GoError): bytes {
    match err
    case Plain(text) => text
    case Classified(e) => Flatten(e)
    case Wrapped(text, _) => text
  }

  /** `errors.As`: the first classified error along the chain. */
  function As(err: GoError): Option<RoomzinError> {
    match err
    case Plain(_) => None
    case Classified(e) => Some(e)
    case Wrapped(_, inner) => As(inner)
  }

  function CodeOf(kind: ErrorKind): bytes {
    match kind
    case KindClient => Ascii("CLIENT_ERROR")
    case KindRequest => Ascii("REQUEST_ERROR")
    case KindRetry => Ascii("RETRY_ERROR")
    case KindInternal => Ascii("INTERNAL_ERROR")
  }

  const REQUEST_CODES: seq<bytes> :=
    [Ascii("VALIDATION_ERROR"), Ascii("NOT_FOUND"), Ascii("OVERFLOW"), Ascii("UNDERFLOW"), Ascii("FORBIDDEN")]
  const RETRY_CODES: seq<bytes> := [Ascii("503"), Ascii("429"), Ascii("308"), Ascii("405")]

  function KindOf(code: bytes): ErrorKind {
    if code == Ascii("AUTH_ERROR") then KindClient
    else if code in REQUEST_CODES then KindRequest
    else if code in RETRY_CODES then KindRetry
    else KindInternal
  }

  /** `strings.Cut` at the first colon. */
  function Cut(s: bytes): (bytes, bytes) {
    var i := Index(s, COLON);
    if i == |s| then (s, []) else (s[..i], s[i + 1..])
  }

  function Classify(s: bytes): RoomzinError {
    var (code, msg) := Cut(s);
    RoomzinError(KindOf(code), code, msg)
  }

  function InputText(v: Input): bytes {
    match v
    case Nil => Ascii("<nil>")
    case AnError(err) => ErrorText(err)
    case AString(s) => s
    case Other(text) => text
  }

  function RzError(v: Input, kind: Option<ErrorKind>): Option<RoomzinError> {
    if v.Nil? then None
    else if v.AnError? && As(v.err).Some? then As(v.err)
    else if kind.Some? then Some(RoomzinError(kind.value, CodeOf(kind.value), InputText(v)))
    else
      match v
      case AnError(err) => Some(Classify(ErrorText(err)))
      case AString(s) => Some(Classify(s))
      case _ => Some(RoomzinError(KindInternal, CodeOf(KindInternal), InputText(v)))
  }

  /** `isKind`, behind `IsClient`, `IsRequest`, `IsInternal` and `IsCluster`. */
  predicate IsKind(err: GoError, want: ErrorKind) {
    As(err).Some? && As(err).value.kind == want
  }

  lemma CutOfFlat(code: bytes, msg: bytes)
    requires COLON !in code
    ensures Cut(code + [COLON] + msg) == (code, msg)
  {
    IndexOfPrefix(code, COLON, msg);
    Parts(code, [COLON], msg, []);
    assert code + [COLON] + msg + [] == code + [COLON] + msg;
  }

  /** Cutting loses nothing but the colon: putting it back gives the text, exactly when there was one. */
  lemma CutRejoined(s: bytes)
    ensures COLON !in Cut(s).0
    ensures Cut(s).0 + [COLON] + Cut(s).1 == s <==> COLON in s
  {
    var i := Index(s, COLON);
    assert COLON !in s[..i];
    assert s[..|s|] == s;
    if i < |s| {
      assert s[i] == COLON;
      assert s == s[..i] + [COLON] + s[i + 1..];
    } else {
      assert |s + [COLON] + []| == |s| + 1;
    }
  }

  /** Classifying a text, flattening the result and classifying again changes nothing. */
  lemma ClassificationStable(s: bytes)
    ensures Classify(Flatten(Classify(s))) == Classify(s)
    ensures Flatten(Classify(s)) == s <==> COLON in s
  {
    hide Cut, KindOf;
    CutRejoined(s);
    CutOfFlat(Cut(s).0, Cut(s).1);
  }

  /** A server's text is cut at its first colon, and the code before it decides which of the predicates holds. */
  lemma ServerText(code: bytes, msg: bytes)
    requires COLON !in code
    ensures RzError(AString(code + [COLON] + msg), None).Some?
    ensures var e := RzError(AString(code + [COLON] + msg), None).value;
            var err := Classified(e);
            && e.code == code && e.msg == msg && ErrorText(err) == code + [COLON] + msg
            && RzError(AnError(Plain(code + [COLON] + msg)), None) == Some(e)
            && (IsKind(err, KindClient) <==> code == Ascii("AUTH_ERROR"))
            && (IsKind(err, KindRequest) <==>
                  || code == Ascii("VALIDATION_ERROR") || code == Ascii("NOT_FOUND") || code == Ascii("OVERFLOW")
                  || code == Ascii("UNDERFLOW") || code == Ascii("FORBIDDEN"))
            && (IsKind(err, KindRetry) <==>
                  code == Ascii("503") || code == Ascii("429") || code == Ascii("308") || code == Ascii("405"))
            && (IsKind(err, KindInternal) <==>
                  !IsKind(err, KindClient) && !IsKind(err, KindRequest) && !IsKind(err, KindRetry))
  {
    hide Cut;
    CutOfFlat(code, msg);
    CodesDiffer(code);
  }

  lemma CodesDiffer(code: bytes)
    ensures code == Ascii("AUTH_ERROR") ==> code !in REQUEST_CODES
    ensures code in RETRY_CODES ==> |code| == 3 && code !in REQUEST_CODES && code != Ascii("AUTH_ERROR")
  {
    assert |code| == 10 && code[0] == 65 ==> code !in REQUEST_CODES by {
      assert Ascii("OVERFLOW")[0] == 79;
    }
    assert Ascii("AUTH_ERROR")[0] == 65;
  }

  /** Without an explicit kind, whatever came in: wrapped, flattened to a string and wrapped again it is the same. */
  lemma RewrapStable(v: Input)
    requires v.AnError? || v.AString?
    requires v.AnError? ==> As(v.err).None?
    ensures var e := RzError(v, None).value;
            RzError(AString(Flatten(e)), None) == Some(e) && RzError(AnError(Plain(Flatten(e))), None) == Some(e)
  {
    ClassificationStable(InputText(v));
  }

  /** An error wrapped in one text after another, the first text outermost. */
  function Layers(texts: seq<bytes>, err: GoError): GoError {
    if texts == [] then err else Wrapped(texts[0], Layers(texts[1..], err))
  }

  lemma {:induction false} AsLayers(texts: seq<bytes>, err: GoError)
    ensures As(Layers(texts, err)) == As(err)
  {
    if texts != [] {
      AsLayers(texts[1..], err);
    }
  }

  /**
   * Under any number of layers of text, a classified error is found again, whatever kind is asked for; and without
   * one nothing is found, so that no predicate holds.
   */
  lemma RewrapIdentity(texts: seq<bytes>, e: RoomzinError, text: bytes, kind: Option<ErrorKind>)
    ensures RzError(AnError(Layers(texts, Classified(e))), kind) == Some(e)
    ensures forall want :: IsKind(Layers(texts, Classified(e)), want) <==> want == e.kind
    ensures As(Layers(texts, Plain(text))) == None
    ensures forall want :: !IsKind(Layers(texts, Plain(text)), want)
  {
    AsLayers(texts, Classified(e));
    AsLayers(texts, Plain(text));
  }

  /** Whatever comes in unclassified keeps its text: under the asked kind's code, or cut after the server's code. */
  lemma TextIsKept(v: Input, text: bytes, kind: Option<ErrorKind>)
    requires v == AString(text) || v == Other(text) || v == AnError(Plain(text))
             || exists inner :: As(inner).None? && v == AnError(Wrapped(text, inner))
    ensures RzError(Nil, kind) == None
    ensures RzError(v, kind).Some?
    ensures var e := RzError(v, kind).value;
            && (kind.Some? ==> e.kind == kind.value)
            && (kind.None? && v.Other? ==> e.kind == KindInternal)
            && (kind.Some? || v.Other? ==>
                  && e.msg == text
                  && (e.kind == KindClient ==> Flatten(e) == Ascii("CLIENT_ERROR") + [COLON] + text)
                  && (e.kind == KindRequest ==> Flatten(e) == Ascii("REQUEST_ERROR") + [COLON] + text)
                  && (e.kind == KindInternal ==> Flatten(e) == Ascii("INTERNAL_ERROR") + [COLON] + text)
                  && (e.kind == KindRetry ==> Flatten(e) == Ascii("RETRY_ERROR") + [COLON] + text))
            && (kind.None? && !v.Other? && COLON in text ==> Flatten(e) == text)
            && (kind.None? && !v.Other? && COLON !in text ==> e.code == text && e.msg == [])
  {
    hide KindOf, Cut;
    if kind.None? && !v.Other? {
      ClassificationStable(text);
      if COLON !in text {
        CutWhole(text);
      }
    }
  }

  lemma CutWhole(s: bytes)
    requires COLON !in s
    ensures Cut(s) == (s, [])
  {
  }

  /** An explicit kind survives flattening and rewrapping only when it is the internal one. */
  lemma ExplicitKindLost(v: Input, kind: ErrorKind)
    requires !v.Nil? && (v.AnError? ==> As(v.err).None?)
    ensures var e := RzError(v, Some(kind)).value;
            && e.kind == kind && e.msg == InputText(v)
            && (RzError(AString(Flatten(e)), None) == Some(e) <==> kind == KindInternal)
  {
    var e := RzError(v, Some(kind)).value;
    OwnCodes(kind);
    CutOfFlat(e.code, e.msg);
  }

  /** The four codes the client itself assigns have no colon, and none is a code of the server's. */
  lemma OwnCodes(kind: ErrorKind)
    ensures COLON !in CodeOf(kind) && KindOf(CodeOf(kind)) == KindInternal
  {
    NoColon("CLIENT_ERROR");
    NoColon("REQUEST_ERROR");
    NoColon("RETRY_ERROR");
    NoColon("INTERNAL_ERROR");
  }

  lemma NoColon(s: string)
    requires forall c | c in s :: c < 128 as char && c != ':'
    ensures COLON !in Ascii(s)
  {
    forall i | 0 <= i < |s| ensures Ascii(s)[i] != COLON {
      assert s[i] in s;
    }
  }
}
