/** Go's bytes, unsigned words and strings, and the few library functions the client relies on. */
module GoBytes {
  newtype byte = x: int | 0 <= x < 0x100
  type u16 = x: int | 0 <= x < 0x1_0000
  type u32 = x: int | 0 <= x < 0x1_0000_0000
  type u64 = x: int | 0 <= x < 0x1_0000_0000_0000_0000

  // A Go string is a sequence of bytes, so strings and byte slices share a type.
  type bytes = seq<byte>

  const TWO_32 := 0x1_0000_0000
  const COMMA: byte := ',' as byte
  const DASH: byte := '-' as byte
  const COLON: byte := ':' as byte

  /** The conversions `byte(n)` and `uint32(n)`. */
  function ToByte(n: nat): (b: byte)
    ensures n < 0x100 <==> b as int == n
  {
    (n % 0x100) as byte
  }

  function ToU32(n: nat): (w: u32)
    ensures n < TWO_32 <==> w == n
    ensures w <= n
  {
    n % TWO_32
  }

  datatype Option<+T> = None | Some(value: T)

  datatype Result<+T, +E> = Ok(value: T) | Err(error: E)

  /** A list decoded so far, followed by what decoding the rest yields. */
  function After<T, E>(done: seq<T>, rest: Result<seq<T>, E>): Result<seq<T>, E> {
    if rest.Ok? then Ok(done + rest.value) else rest
  }

  lemma AfterAfter<T, E>(a: seq<T>, b: seq<T>, rest: Result<seq<T>, E>)
    ensures After(a, After(b, rest)) == After(a + b, rest)
    ensures After([], rest) == rest
  {
    if rest.Ok? {
      assert a + (b + rest.value) == a + b + rest.value;
      assert [] + rest.value == rest.value;
    }
  }

  /** The bytes of an ASCII literal. */
  function Ascii(s: string): (b: bytes)
    ensures |b| == |s|
    ensures forall i | 0 <= i < |s| && s[i] as int < 0x80 :: b[i] as int == s[i] as int
  {
    seq(|s|, i requires 0 <= i < |s| => (s[i] as int % 0x100) as byte)
  }

  // ---------- encoding/binary.LittleEndian ----------

  /** The `k` low bytes of `n`, least significant first; higher bytes are dropped, as a Go conversion drops them. */
  function LE(n: nat, k: nat): (b: bytes)
    ensures |b| == k
  {
    if k == 0 then [] else [ToByte(n)] + LE(n / 0x100, k - 1)
  }

  function FromLE(b: bytes): nat {
    if b == [] then 0 else b[0] as int + 0x100 * FromLE(b[1..])
  }

  function Pow256(k: nat): nat {
    if k == 0 then 1 else 0x100 * Pow256(k - 1)
  }

  lemma Widths()
    ensures Pow256(1) == 0x100 && Pow256(2) == 0x1_0000 && Pow256(4) == TWO_32
    ensures Pow256(8) == 0x1_0000_0000_0000_0000
  {
    assert Pow256(3) == 0x100_0000;
    assert Pow256(4) == 0x1_0000_0000;
    assert Pow256(6) == 0x1_0000_0000_0000;
  }

  lemma {:induction false} FromLEBound(b: bytes)
    ensures FromLE(b) < Pow256(|b|)
  {
    if b != [] {
      FromLEBound(b[1..]);
    }
  }

  /** Reading back what was written gives the number; writing back what was read gives the bytes. */
  lemma {:induction false} FromLEOfLE(n: nat, k: nat)
    requires n < Pow256(k)
    ensures FromLE(LE(n, k)) == n
  {
    if k > 0 {
      FromLEOfLE(n / 0x100, k - 1);
      assert LE(n, k)[1..] == LE(n / 0x100, k - 1);
    }
  }

  lemma {:induction false} LEOfFromLE(b: bytes)
    ensures LE(FromLE(b), |b|) == b
  {
    if b != [] {
      LEOfFromLE(b[1..]);
      var n := FromLE(b);
      assert n % 0x100 == b[0] as int && n / 0x100 == FromLE(b[1..]);
    }
  }

  function U16(b: bytes): u16
    requires |b| == 2
  {
    FromLEBound(b);
    Widths();
    FromLE(b)
  }

  function U32(b: bytes): u32
    requires |b| == 4
  {
    FromLEBound(b);
    Widths();
    FromLE(b)
  }

  lemma U16RoundTrip(n: u16, b: bytes)
    requires |b| == 2
    ensures U16(b) == n <==> b == LE(n, 2)
  {
    Widths();
    FromLEOfLE(n, 2);
    LEOfFromLE(b);
  }

  lemma U32RoundTrip(n: u32, b: bytes)
    requires |b| == 4
    ensures U32(b) == n <==> b == LE(n, 4)
  {
    Widths();
    FromLEOfLE(n, 4);
    LEOfFromLE(b);
  }

  lemma LEInjective(m: nat, n: nat, k: nat)
    requires m < Pow256(k) && n < Pow256(k)
    requires LE(m, k) == LE(n, k)
    ensures m == n
  {
    FromLEOfLE(m, k);
    FromLEOfLE(n, k);
  }

  /** Where four concatenated parts lie. */
  lemma Parts<T>(a: seq<T>, b: seq<T>, c: seq<T>, d: seq<T>)
    ensures var s := a + b + c + d;
            var i, j, k := |a|, |a| + |b|, |a| + |b| + |c|;
            && |s| == k + |d|
            && s[..i] == a && s[i..j] == b && s[j..k] == c && s[k..] == d
  {
  }

  // ---------- strings.Join, strings.Split, strings.Cut ----------

  function Join(parts: seq<bytes>, sep: bytes): bytes {
    if parts == [] then [] else if |parts| == 1 then parts[0] else parts[0] + sep + Join(parts[1..], sep)
  }

  /** The first index of `c`, or the length when `c` does not occur. */
  function Index(s: bytes, c: byte): (i: nat)
    ensures i <= |s| && c !in s[..i]
    ensures i < |s| ==> s[i] == c
    ensures c in s <==> i < |s|
  {
    if s == [] || s[0] == c then 0 else 1 + Index(s[1..], c)
  }

  lemma {:induction false} IndexOfPrefix(a: bytes, c: byte, rest: bytes)
    requires c !in a
    ensures Index(a, c) == |a|
    ensures Index(a + [c] + rest, c) == |a|
  {
    var s := a + [c] + rest;
    if a == [] {
      assert s[0] == c;
    } else {
      IndexOfPrefix(a[1..], c, rest);
      assert s[1..] == a[1..] + [c] + rest;
      assert s[0] == a[0];
    }
  }

  function Split(s: bytes, c: byte): (parts: seq<bytes>)
    ensures parts != []
    ensures CommaFree(parts, c)
    decreases |s|
  {
    var i := Index(s, c);
    if i == |s| then assert s[..i] == s; [s] else [s[..i]] + Split(s[i + 1..], c)
  }

  ghost predicate CommaFree(parts: seq<bytes>, c: byte) {
    forall p :: p in parts ==> c !in p
  }

  lemma JoinCons(p: bytes, parts: seq<bytes>, sep: bytes)
    requires parts != []
    ensures Join([p] + parts, sep) == p + sep + Join(parts, sep)
  {
    assert ([p] + parts)[1..] == parts;
  }

  lemma {:induction false} SplitOfJoin(parts: seq<bytes>, c: byte)
    requires parts != [] && CommaFree(parts, c)
    ensures Split(Join(parts, [c]), c) == parts
  {
    if |parts| == 1 {
      IndexOfPrefix(parts[0], c, []);
    } else {
      var p, later := parts[0], Join(parts[1..], [c]);
      SplitOfJoin(parts[1..], c);
      assert parts == [p] + parts[1..];
      JoinCons(p, parts[1..], [c]);
      IndexOfPrefix(p, c, later);
      Parts(p, [c], later, []);
      assert p + [c] + later + [] == p + [c] + later;
    }
  }

  lemma JoinOne(p: bytes, sep: bytes)
    ensures Join([p], sep) == p
  {
  }

  lemma SplitStep(s: bytes, c: byte)
    ensures var i := Index(s, c);
            Split(s, c) == if i == |s| then [s] else [s[..i]] + Split(s[i + 1..], c)
  {
    assert s[..|s|] == s;
  }

  lemma {:induction false} JoinOfSplit(s: bytes, c: byte)
    ensures Join(Split(s, c), [c]) == s
    decreases |s|
  {
    hide Join, Split, Index;
    SplitStep(s, c);
    var i := Index(s, c);
    if i == |s| {
      JoinOne(s, [c]);
    } else {
      JoinOfSplit(s[i + 1..], c);
      JoinCons(s[..i], Split(s[i + 1..], c), [c]);
      assert s == s[..i] + [c] + s[i + 1..];
    }
  }

  // ---------- string comparison ----------

  predicate Less(a: bytes, b: bytes) {
    if b == [] then false
    else if a == [] then true
    else if a[0] != b[0] then a[0] < b[0]
    else Less(a[1..], b[1..])
  }

  predicate AtMost(a: bytes, b: bytes) {
    !Less(b, a)
  }

  lemma {:induction false} LessTrans(a: bytes, b: bytes, c: bytes)
    requires AtMost(a, b) && AtMost(b, c)
    ensures AtMost(a, c)
  {
    if a != [] && b != [] && c != [] && a[0] == b[0] == c[0] {
      LessTrans(a[1..], b[1..], c[1..]);
    }
  }

  lemma {:induction false} LessTotal(a: bytes, b: bytes)
    ensures AtMost(a, b) || AtMost(b, a)
    ensures AtMost(a, b) && AtMost(b, a) ==> a == b
  {
    if a != [] && b != [] && a[0] == b[0] {
      LessTotal(a[1..], b[1..]);
    }
  }

  /** One string is below another when it is a proper prefix, or has the lower byte where they first differ. */
  lemma {:induction false} LessExact(a: bytes, b: bytes)
    ensures Less(a, b) <==>
            (a <= b && a != b) || exists i :: 0 <= i < |a| && i < |b| && a[..i] == b[..i] && a[i] < b[i]
  {
    if a != [] && b != [] && a[0] == b[0] {
      LessExact(a[1..], b[1..]);
      var (x, y) := (a[1..], b[1..]);
      assert a == [a[0]] + x && b == [b[0]] + y;
      if Less(x, y) && !(x <= y) {
        var i :| 0 <= i < |x| && i < |y| && x[..i] == y[..i] && x[i] < y[i];
        assert a[..i + 1] == [a[0]] + x[..i] && b[..i + 1] == [b[0]] + y[..i];
        assert a[i + 1] < b[i + 1];
      }
      forall i | 0 <= i < |a| && i < |b| && a[..i] == b[..i] && a[i] < b[i] ensures Less(a, b) {
        LessAt(a, b, i);
      }
    } else if a != [] && b != [] {
      assert a[..0] == b[..0];
      forall i | 0 <= i < |a| && i < |b| && a[..i] == b[..i] && a[i] < b[i] ensures Less(a, b) {
        LessAt(a, b, i);
      }
    }
  }

  /** The first place where two strings differ decides the comparison. */
  lemma {:induction false} LessAt(a: bytes, b: bytes, i: nat)
    requires i < |a| && i < |b| && a[..i] == b[..i] && a[i] < b[i]
    ensures Less(a, b)
  {
    if i > 0 {
      assert a[0] == a[..i][0] == b[..i][0] == b[0];
      assert a[1..][..i - 1] == a[..i][1..] == b[..i][1..] == b[1..][..i - 1];
      LessAt(a[1..], b[1..], i - 1);
    }
  }
}
