/** Rate features as a bit mask (internal/protocol/helpers.go) and their validation (pkg/types/codecs.go). */
module RateFeatures {
  import opened GoBytes

  function Pow2(n: nat): (p: nat)
    ensures p > 0
  {
    if n == 0 then 1 else 2 * Pow2(n - 1)
  }

  /** `mask & (1 << i) != 0`. */
  predicate Bit(mask: u32, i: nat) {
    mask / Pow2(i) % 2 == 1
  }

  /** The positions below `n` whose bits are set, in ascending order. */
  function SetBits(mask: u32, n: nat): (idx: seq<int>)
    ensures forall j | 0 <= j < |idx| :: 0 <= idx[j] < n
    ensures forall j, k | 0 <= j < k < |idx| :: idx[j] < idx[k]
  {
    if n == 0 then [] else
    var before := SetBits(mask, n - 1);
    if Bit(mask, n - 1) then before + [n - 1] else before
  }

  lemma {:induction false} SetBitsExact(mask: u32, n: nat, i: nat)
    ensures i in SetBits(mask, n) <==> i < n && Bit(mask, i)
  {
    hide Bit;
    if n > 0 {
      SetBitsExact(mask, n - 1, i);
    }
  }

  /** The bits in use: 24, or fewer when there are fewer codecs. */
  function Used(names: seq<bytes>): nat {
    if |names| < 24 then |names| else 24
  }

  function Named(names: seq<bytes>, idx: seq<int>): (out: seq<bytes>)
    requires forall j | 0 <= j < |idx| :: 0 <= idx[j] < |names|
    ensures |out| == |idx|
  {
    seq(|idx|, j requires 0 <= j < |idx| => names[idx[j]])
  }

  /** What a mask decodes to; without codecs, to nothing. */
  function RateFeatureNames(codecs: Option<seq<bytes>>, mask: u32): seq<bytes> {
    if codecs.None? then [] else Named(codecs.value, SetBits(mask, Used(codecs.value)))
  }

  method BitmaskToRateFeatureStrings(codecs: Option<seq<bytes>>, mask: u32) returns (out: seq<bytes>)
    ensures out == RateFeatureNames(codecs, mask)
  {
    hide Bit;
    if codecs.None? || codecs.value == [] {
      return [];
    }
    var names := codecs.value;
    out := [];
    var i := 0;
    while i < 24 && i < |names|
      invariant i <= Used(names) && out == Named(names, SetBits(mask, i))
    {
      if Bit(mask, i) {
        out := out + [names[i]];
      }
      assert Named(names, SetBits(mask, i + 1)) == out;
      i := i + 1;
    }
  }

  // ---------- going back ----------

  /** The value of the mask's low `n` bits. */
  function Masked(mask: u32, n: nat): nat {
    if n == 0 then 0 else Masked(mask, n - 1) + if Bit(mask, n - 1) then Pow2(n - 1) else 0
  }

  /** Setting the bit of every name that occurs. */
  function Encode(names: seq<bytes>, features: seq<bytes>, n: nat): nat
    requires n <= |names|
  {
    if n == 0 then 0 else Encode(names, features, n - 1) + if names[n - 1] in features then Pow2(n - 1) else 0
  }

  lemma SplitLow(m: nat, p: nat)
    requires p > 0
    ensures m % (2 * p) == m % p + (if m / p % 2 == 1 then p else 0)
  {
    var (q, r) := (m / p, m % p);
    assert m == p * q + r;
    var (h, b) := (q / 2, q % 2);
    assert p * q == p * (2 * h + b) == (2 * p) * h + p * b;
    assert m == (2 * p) * h + (p * b + r);
    assert 0 <= p * b + r < 2 * p;
    DivisionUnique(m, 2 * p, h, p * b + r);
  }

  lemma DivisionUnique(m: nat, d: nat, q: nat, r: nat)
    requires d > 0 && m == d * q + r && r < d
    ensures m % d == r
  {
    var q' := m / d;
    assert m == d * q' + m % d;
    if q > q' {
      assert d * (q - q') == d * q - d * q';
      AtLeastOnce(d, q - q');
    } else if q < q' {
      assert d * (q' - q) == d * q' - d * q;
      AtLeastOnce(d, q' - q);
    }
  }

  lemma AtLeastOnce(d: nat, k: nat)
    requires k >= 1
    ensures d * k >= d
  {
    assert d * k == d * (k - 1) + d;
  }

  lemma {:induction false} MaskedIsRemainder(mask: u32, n: nat)
    ensures Masked(mask, n) == mask % Pow2(n)
  {
    if n > 0 {
      MaskedIsRemainder(mask, n - 1);
      SplitLow(mask, Pow2(n - 1));
    }
  }

  predicate Distinct(names: seq<bytes>) {
    forall i, j | 0 <= i < j < |names| :: names[i] != names[j]
  }

  /** With distinct codecs a name is decoded exactly when its bit is set. */
  lemma NameIffBit(names: seq<bytes>, mask: u32, i: nat)
    requires Distinct(names) && i < |names|
    ensures names[i] in RateFeatureNames(Some(names), mask) <==> i < 24 && Bit(mask, i)
  {
    hide Bit;
    var idx := SetBits(mask, Used(names));
    var out := Named(names, idx);
    SetBitsExact(mask, Used(names), i);
    if i < 24 && Bit(mask, i) {
      var j :| 0 <= j < |idx| && idx[j] == i;
      assert out[j] == names[i];
    }
    if names[i] in out {
      var j :| 0 <= j < |out| && out[j] == names[i];
      assert names[idx[j]] == names[i] && idx[j] in idx;
    }
  }

  /** Encoding the decoded names again gives the used bits of the mask. */
  lemma RoundTrip(names: seq<bytes>, mask: u32)
    requires Distinct(names)
    ensures Encode(names, RateFeatureNames(Some(names), mask), Used(names)) == mask % Pow2(Used(names))
  {
    EncodeIsMasked(names, mask, Used(names));
    MaskedIsRemainder(mask, Used(names));
  }

  lemma {:induction false} EncodeIsMasked(names: seq<bytes>, mask: u32, n: nat)
    requires Distinct(names) && n <= Used(names)
    ensures Encode(names, RateFeatureNames(Some(names), mask), n) == Masked(mask, n)
  {
    hide Bit, RateFeatureNames, SetBits, Named;
    if n > 0 {
      EncodeIsMasked(names, mask, n - 1);
      NameIffBit(names, mask, n - 1);
    }
  }

  // ---------- ValidateRateFeatures ----------

  /** The inputs that are no codec, in order. */
  function Unknown(names: seq<bytes>, input: seq<bytes>): seq<bytes> {
    if input == [] then [] else
    var (before, last) := (Unknown(names, input[..|input| - 1]), input[|input| - 1]);
    if last in names then before else before + [last]
  }

  const PREFIX: bytes := Ascii("Invalid rate features: ")

  /** The loop touches the codecs only when there is something to check. */
  method ValidateRateFeatures(codecs: Option<seq<bytes>>, input: seq<bytes>) returns (err: Option<bytes>)
    requires input != [] ==> codecs.Some?
    ensures err.None? <==> forall i | 0 <= i < |input| :: input[i] in codecs.value
    ensures err.Some? ==> err.value == PREFIX + Join(Unknown(codecs.value, input), Ascii(", "))
  {
    var invalid: seq<bytes> := [];
    for i := 0 to |input|
      invariant invalid == if i == 0 then [] else Unknown(codecs.value, input[..i])
      invariant invalid == [] <==> forall j | 0 <= j < i :: input[j] in codecs.value
    {
      assert input[..i + 1][..i] == input[..i];
      if input[i] !in codecs.value {
        invalid := invalid + [input[i]];
      }
    }
    assert input[..|input|] == input;
    err := if |invalid| > 0 then Some(Ascii("Invalid rate features: ") + Join(invalid, Ascii(", "))) else None;
  }

  /** What the client decoded with its codecs always passes its own validation. */
  lemma DecodedIsValid(names: seq<bytes>, mask: u32)
    ensures var out := RateFeatureNames(Some(names), mask);
            && (forall i | 0 <= i < |out| :: out[i] in names)
            && |out| == |SetBits(mask, Used(names))|
            && Unknown(names, out) == []
  {
    var out := RateFeatureNames(Some(names), mask);
    var idx := SetBits(mask, Used(names));
    forall i | 0 <= i < |out| ensures out[i] in names {
      assert out[i] == names[idx[i]];
    }
    NoneUnknown(names, out);
  }

  lemma {:induction false} NoneUnknown(names: seq<bytes>, input: seq<bytes>)
    requires forall i | 0 <= i < |input| :: input[i] in names
    ensures Unknown(names, input) == []
  {
    if input != [] {
      NoneUnknown(names, input[..|input| - 1]);
    }
  }
}
