/** The two forms of a property id on the wire (BytesToPropertyID in internal/protocol/helpers.go). */
module PropertyId {
  import opened GoBytes

  const SHORT_MARK: byte := 0xF0

  function UntilZero(s: bytes): (r: bytes)
    ensures r <= s && 0 !in r
    ensures |r| < |s| ==> s[|r|] == 0
  {
    if s == [] || s[0] == 0 then [] else [s[0]] + UntilZero(s[1..])
  }

  /** The UUID versions the client recognises. */
  predicate KnownVersion(b: byte) {
    var version := b as int / 16;
    version == 1 || version == 2 || version == 3 || version == 4 || version == 5 || version == 7
  }

  // ---------- the text form of section 4 of RFC 9562 ----------

  function HexDigit(n: nat): byte
    requires n < 16
  {
    if n < 10 then 48 + n as byte else 87 + n as byte
  }

  function Hex(s: bytes): (t: bytes)
    ensures |t| == 2 * |s|
  {
    if s == [] then [] else [HexDigit(s[0] as int / 16), HexDigit(s[0] as int % 16)] + Hex(s[1..])
  }

  function UuidText(u: bytes): (t: bytes)
    requires |u| == 16
    ensures |t| == 36
  {
    Hex(u[..4]) + [DASH] + Hex(u[4..6]) + [DASH] + Hex(u[6..8]) + [DASH] + Hex(u[8..10]) + [DASH] + Hex(u[10..])
  }

  lemma {:induction false} HexInjective(a: bytes, b: bytes)
    requires |a| == |b| && Hex(a) == Hex(b)
    ensures a == b
  {
    if a != [] {
      var (s, t) := (Hex(a), Hex(b));
      assert s[0] == t[0] && s[1] == t[1];
      assert s[2..] == Hex(a[1..]) && t[2..] == Hex(b[1..]);
      HexInjective(a[1..], b[1..]);
      assert a == [a[0]] + a[1..] && b == [b[0]] + b[1..];
    }
  }

  lemma UuidTextInjective(a: bytes, b: bytes)
    requires |a| == 16 && |b| == 16 && UuidText(a) == UuidText(b)
    ensures a == b
  {
    hide Hex;
    var (s, t) := (UuidText(a), UuidText(b));
    UuidParts(a);
    UuidParts(b);
    HexInjective(a[..4], b[..4]);
    HexInjective(a[4..6], b[4..6]);
    HexInjective(a[6..8], b[6..8]);
    HexInjective(a[8..10], b[8..10]);
    HexInjective(a[10..], b[10..]);
    assert a == a[..4] + a[4..6] + a[6..8] + a[8..10] + a[10..];
    assert b == b[..4] + b[4..6] + b[6..8] + b[8..10] + b[10..];
  }

  lemma UuidParts(u: bytes)
    requires |u| == 16
    ensures var t := UuidText(u);
            && t[..8] == Hex(u[..4]) && t[9..13] == Hex(u[4..6]) && t[14..18] == Hex(u[6..8])
            && t[19..23] == Hex(u[8..10]) && t[24..] == Hex(u[10..])
  {
    hide Hex;
  }

  // ---------- decoding ----------

  /** The first sixteen bytes, padded with zeros when there are fewer. */
  function Sixteen(data: bytes): (u: bytes)
    ensures |u| == 16
  {
    if |data| >= 16 then data[..16] else data + Zeros(16 - |data|)
  }

  function Zeros(n: nat): bytes {
    seq(n, _ => 0)
  }

  function PropertyID(data: bytes): bytes {
    if |data| < 7 then []
    else if data[6] == SHORT_MARK then UntilZero(data[..6]) + UntilZero(data[7..])
    else if KnownVersion(data[6]) then UuidText(Sixteen(data))
    else []
  }

  /** The counting loop of each segment: how many bytes come before the first zero. */
  method CountUntilZero(data: bytes, lo: nat, hi: nat) returns (n: nat)
    requires lo <= hi <= |data|
    ensures n <= hi - lo && data[lo..lo + n] == UntilZero(data[lo..hi])
  {
    n := 0;
    while lo + n < hi && data[lo + n] != 0
      invariant lo + n <= hi && forall i | lo <= i < lo + n :: data[i] != 0
    {
      n := n + 1;
    }
    UntilZeroIs(data[lo..hi], n);
  }

  lemma {:induction false} UntilZeroIs(s: bytes, n: nat)
    requires n <= |s| && (forall i | 0 <= i < n :: s[i] != 0) && (n == |s| || s[n] == 0)
    ensures UntilZero(s) == s[..n]
  {
    if n > 0 {
      UntilZeroIs(s[1..], n - 1);
      assert s[..n] == [s[0]] + s[1..][..n - 1];
    }
  }

  method BytesToPropertyID(data: bytes) returns (id: bytes)
    ensures id == PropertyID(data)
  {
    hide UntilZero, UuidText;
    if |data| < 7 {
      return [];
    }
    if data[6] == 0xF0 {
      var leftLen := CountUntilZero(data, 0, 6);
      var rightLen := CountUntilZero(data, 7, |data|);
      assert data[0..6] == data[..6] && data[7..|data|] == data[7..] && data[0..leftLen] == data[..leftLen];
      return data[..leftLen] + data[7..7 + rightLen];
    }
    var version := data[6] as int / 16;
    if version == 1 || version == 2 || version == 3 || version == 4 || version == 5 || version == 7 {
      var uuidBytes := Sixteen(data);
      return UuidText(uuidBytes);
    }
    return [];
  }

  /** When a property decodes to no id at all. */
  lemma EmptyIdIff(data: bytes)
    ensures PropertyID(data) == [] <==>
            || |data| < 7
            || (data[6] == SHORT_MARK && data[0] == 0 && (|data| == 7 || data[7] == 0))
            || (data[6] != SHORT_MARK && !KnownVersion(data[6]))
  {
  }

  // ---------- reading the text form ----------

  /** What a lower-case hexadecimal digit stands for; sixteen for any other byte. */
  function DigitValue(b: byte): nat {
    if 48 <= b <= 57 then b as int - 48 else if 97 <= b <= 102 then b as int - 87 else 16
  }

  /** Where the two digits of byte `i` stand, after the dashes before it. */
  function DigitsAt(i: nat): nat {
    2 * i + if i < 4 then 0 else if i < 6 then 1 else if i < 8 then 2 else if i < 10 then 3 else 4
  }

  lemma {:induction false} HexReads(s: bytes, i: nat)
    requires i < |s|
    ensures DigitValue(Hex(s)[2 * i]) < 16 && DigitValue(Hex(s)[2 * i + 1]) < 16
    ensures DigitValue(Hex(s)[2 * i]) * 16 + DigitValue(Hex(s)[2 * i + 1]) == s[i] as int
  {
    if i > 0 {
      HexReads(s[1..], i - 1);
      assert Hex(s)[2..] == Hex(s[1..]);
    }
  }

  /**
   * A UUID's text: dashes in four places and lower-case digits elsewhere, which read, byte by byte and the upper half
   * first, as the bytes received, and as zero where fewer than sixteen came.
   */
  lemma UuidDigits(data: bytes, i: nat)
    requires |data| >= 7 && KnownVersion(data[6]) && i < 16
    ensures var t := PropertyID(data);
            && |t| == 36 && t[8] == DASH && t[13] == DASH && t[18] == DASH && t[23] == DASH
            && DigitValue(t[DigitsAt(i)]) < 16 && DigitValue(t[DigitsAt(i) + 1]) < 16
            && DigitValue(t[DigitsAt(i)]) * 16 + DigitValue(t[DigitsAt(i) + 1])
               == if i < |data| then data[i] as int else 0
  {
    hide UuidText, DigitValue, UntilZero;
    var u := Sixteen(data);
    UuidReads(u, i);
    assert u[i] == if i < |data| then data[i] else 0;
  }

  lemma UuidDashes(u: bytes)
    requires |u| == 16
    ensures var t := UuidText(u); t[8] == DASH && t[13] == DASH && t[18] == DASH && t[23] == DASH
  {
    hide Hex;
  }

  lemma UuidReads(u: bytes, i: nat)
    requires |u| == 16 && i < 16
    ensures var t := UuidText(u);
            && t[8] == DASH && t[13] == DASH && t[18] == DASH && t[23] == DASH
            && DigitValue(t[DigitsAt(i)]) < 16 && DigitValue(t[DigitsAt(i) + 1]) < 16
            && DigitValue(t[DigitsAt(i)]) * 16 + DigitValue(t[DigitsAt(i) + 1]) == u[i] as int
  {
    hide Hex, DigitValue;
    UuidParts(u);
    UuidDashes(u);
    hide UuidText;
    if i < 4 {
      PartReads(UuidText(u), 0, u[..4], i);
    } else if i < 6 {
      PartReads(UuidText(u), 9, u[4..6], i - 4);
    } else if i < 8 {
      PartReads(UuidText(u), 14, u[6..8], i - 6);
    } else if i < 10 {
      PartReads(UuidText(u), 19, u[8..10], i - 8);
    } else {
      PartReads(UuidText(u), 24, u[10..], i - 10);
    }
  }

  lemma PartReads(t: bytes, at: nat, part: bytes, j: nat)
    requires j < |part| && at + 2 * |part| <= |t| && t[at..at + 2 * |part|] == Hex(part)
    ensures DigitValue(t[at + 2 * j]) < 16 && DigitValue(t[at + 2 * j + 1]) < 16
    ensures DigitValue(t[at + 2 * j]) * 16 + DigitValue(t[at + 2 * j + 1]) == part[j] as int
  {
    hide Hex, DigitValue;
    HexReads(part, j);
    assert t[at + 2 * j] == t[at..at + 2 * |part|][2 * j];
    assert t[at + 2 * j + 1] == t[at..at + 2 * |part|][2 * j + 1];
  }

  // ---------- encoding ----------

  function Min(a: nat, b: nat): nat {
    if a < b then a else b
  }

  /** The short form of `id` in `n` bytes: six, the marker, the rest, with zeros where the id ends. */
  function Pack(id: bytes, n: nat): (data: bytes)
    requires n >= 7 && |id| <= n - 1
    ensures |data| == n && data[6] == SHORT_MARK
  {
    var k := Min(6, |id|);
    id[..k] + Zeros(6 - k) + [SHORT_MARK] + id[k..] + Zeros(n - 7 - (|id| - k))
  }

  lemma {:induction false} UntilZeroOfPadded(s: bytes, n: nat)
    requires 0 !in s
    ensures UntilZero(s + Zeros(n)) == s
  {
    if s != [] {
      UntilZeroOfPadded(s[1..], n);
      assert (s + Zeros(n))[1..] == s[1..] + Zeros(n);
      assert s[0] in s;
    }
  }

  /** Unpacking the short form of any zero-free id that fits gives the id back, in every buffer size. */
  lemma UnpackOfPack(id: bytes, n: nat)
    requires n >= 7 && |id| <= n - 1 && 0 !in id
    ensures PropertyID(Pack(id, n)) == id
  {
    var data := Pack(id, n);
    var k := Min(6, |id|);
    assert data[..6] == id[..k] + Zeros(6 - k);
    assert data[7..] == id[k..] + Zeros(n - 7 - (|id| - k));
    UntilZeroOfPadded(id[..k], 6 - k);
    UntilZeroOfPadded(id[k..], n - 7 - (|id| - k));
    assert id[..k] + id[k..] == id;
  }

  /** Sixteen bytes as a server writes them: a short id, zero-free and packed, or a UUID of a known version. */
  ghost predicate Canonical(data: bytes) {
    |data| == 16 && (KnownVersion(data[6]) || exists id :: PacksTo(id, data))
  }

  predicate PacksTo(id: bytes, data: bytes) {
    |id| <= 15 && 0 !in id && |data| == 16 && data == Pack(id, 16)
  }

  /** No two canonical encodings decode to the same id. */
  lemma PropertyIDInjective(a: bytes, b: bytes)
    requires Canonical(a) && Canonical(b)
    ensures PropertyID(a) == PropertyID(b) <==> a == b
  {
    CanonicalForm(a);
    CanonicalForm(b);
    if KnownVersion(a[6]) && KnownVersion(b[6]) && PropertyID(a) == PropertyID(b) {
      UuidTextInjective(a, b);
    }
  }

  /** A UUID decodes to 36 bytes; a short id to at most 15, from which it can be packed again. */
  lemma CanonicalForm(data: bytes)
    requires Canonical(data)
    ensures KnownVersion(data[6]) ==> PropertyID(data) == UuidText(data) && |PropertyID(data)| == 36
    ensures !KnownVersion(data[6]) ==> |PropertyID(data)| <= 15 && data == Pack(PropertyID(data), 16)
  {
    if KnownVersion(data[6]) {
      assert data[..16] == data;
    } else {
      var id :| PacksTo(id, data);
      UnpackOfPack(id, 16);
    }
  }
}
