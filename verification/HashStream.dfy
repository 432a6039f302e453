// The streaming hashes of the C runtime: buffering and padding around a compression function that
// is left open.
module HashStream {

  import opened ByteOrder

  // A hash by its block size, the size and byte order of its length field, its word size, its
  // initial words and its compression function.
  datatype Scheme = Scheme(block: nat, field: nat, bigEndian: bool, wordSize: nat, init: seq<nat>, compress: (seq<nat>, Bytes) -> seq<nat>)
  {
    predicate Valid() { (block == 64 && field == 8) || (block == 128 && field == 16 && bigEndian) }
  }

  function Sha256(compress: (seq<nat>, Bytes) -> seq<nat>): Scheme {
    Scheme(64, 8, true, 4, [0x6a09e667, 0xbb67ae85, 0x3c6ef372, 0xa54ff53a, 0x510e527f, 0x9b05688c, 0x1f83d9ab, 0x5be0cd19], compress)
  }

  function Sha512(compress: (seq<nat>, Bytes) -> seq<nat>): Scheme {
    Scheme(128, 16, true, 8,
      [0x6a09e667f3bcc908, 0xbb67ae8584caa73b, 0x3c6ef372fe94f82b, 0xa54ff53a5f1d36f1, 0x510e527fade682d1, 0x9b05688c2b3e6c1f, 0x1f83d9abfb41bd6b, 0x5be0cd19137e2179],
      compress)
  }

  function Sha384(compress: (seq<nat>, Bytes) -> seq<nat>): Scheme {
    Sha512(compress).(init := [
      0xcbbb9d5dc1059ed8, 0x629a292a367cd507, 0x9159015a3070dd17, 0x152fecd8f70e5939,
      0x67332667ffc00b31, 0x8eb44a8768581511, 0xdb0c2e0d64f98fa7, 0x47b5481dbefa4fa4])
  }

  function Sha1(compress: (seq<nat>, Bytes) -> seq<nat>): Scheme {
    Scheme(64, 8, true, 4, [0x67452301, 0xefcdab89, 0x98badcfe, 0x10325476, 0xc3d2e1f0], compress)
  }

  function Md5(compress: (seq<nat>, Bytes) -> seq<nat>): Scheme {
    Scheme(64, 8, false, 4, [0x67452301, 0xefcdab89, 0x98badcfe, 0x10325476], compress)
  }

  lemma SchemesAreValid(compress: (seq<nat>, Bytes) -> seq<nat>)
    ensures Sha256(compress).Valid() && Sha512(compress).Valid() && Sha384(compress).Valid() && Sha1(compress).Valid() && Md5(compress).Valid()
  {}

  // ---- the initial words ------------------------------------------------------------------------------

  // The first fractional bits of a square root: `unit` is two to their number, `whole` the integer part.
  predicate RootFraction(word: nat, prime: nat, whole: nat, unit: nat) {
    (whole * unit + word) * (whole * unit + word) <= prime * unit * unit < (whole * unit + word + 1) * (whole * unit + word + 1) && word < unit
  }

  // The words of SHA-256 and SHA-512 are 32 and 64 bits of the square roots of the first eight primes,
  // those of SHA-384 64 bits of the roots of the next eight (sections 5.3.3 to 5.3.5 of FIPS 180-4).
  lemma InitialWords(compress: (seq<nat>, Bytes) -> seq<nat>)
    ensures var h := Sha256(compress).init; var u := 0x1_0000_0000;
      && |h| == 8
      && RootFraction(h[0], 2, 1, u) && RootFraction(h[1], 3, 1, u) && RootFraction(h[2], 5, 2, u) && RootFraction(h[3], 7, 2, u)
      && RootFraction(h[4], 11, 3, u) && RootFraction(h[5], 13, 3, u) && RootFraction(h[6], 17, 4, u) && RootFraction(h[7], 19, 4, u)
    ensures var h := Sha512(compress).init; var u := 0x1_0000_0000_0000_0000;
      && |h| == 8
      && RootFraction(h[0], 2, 1, u) && RootFraction(h[1], 3, 1, u) && RootFraction(h[2], 5, 2, u) && RootFraction(h[3], 7, 2, u)
      && RootFraction(h[4], 11, 3, u) && RootFraction(h[5], 13, 3, u) && RootFraction(h[6], 17, 4, u) && RootFraction(h[7], 19, 4, u)
    ensures var h := Sha384(compress).init; var u := 0x1_0000_0000_0000_0000;
      && |h| == 8
      && RootFraction(h[0], 23, 4, u) && RootFraction(h[1], 29, 5, u) && RootFraction(h[2], 31, 5, u) && RootFraction(h[3], 37, 6, u)
      && RootFraction(h[4], 41, 6, u) && RootFraction(h[5], 43, 6, u) && RootFraction(h[6], 47, 6, u) && RootFraction(h[7], 53, 7, u)
  {}

  // Those of SHA-1 and MD5 count up and down in hexadecimal digits, as bytes of the hash's own order.
  lemma CountingWords(compress: (seq<nat>, Bytes) -> seq<nat>)
    ensures var s := Md5(compress);
      |s.init| == 4 && Word(s, s.init[0]) == [0x01, 0x23, 0x45, 0x67] && Word(s, s.init[1]) == [0x89, 0xAB, 0xCD, 0xEF]
      && Word(s, s.init[2]) == [0xFE, 0xDC, 0xBA, 0x98] && Word(s, s.init[3]) == [0x76, 0x54, 0x32, 0x10]
    ensures var s := Sha1(compress);
      |s.init| == 5 && s.init[..4] == Md5(compress).init && Word(s, s.init[4]) == [0xC3, 0xD2, 0xE1, 0xF0]
  {}

  // ---- the order of bytes --------------------------------------------------------------------------------

  function BigValue(bs: Bytes): nat { if bs == [] then 0 else 256 * BigValue(bs[..|bs| - 1]) + bs[|bs| - 1] }

  function LittleValue(bs: Bytes): nat { if bs == [] then 0 else 256 * LittleValue(bs[1..]) + bs[0] }

  lemma {:induction false} BytesMean(n: nat, k: nat)
    requires n < Pow256(k)
    ensures BigValue(BE(n, k)) == n && LittleValue(LE(n, k)) == n
  {
    if k > 0 {
      BytesMean(n / 256, k - 1);
      assert BE(n, k)[..k - 1] == BE(n / 256, k - 1) && LE(n, k)[1..] == LE(n / 256, k - 1);
    }
  }

  // The words of a digest: the most significant byte first, or last for MD5.
  lemma WordMeans(s: Scheme, w: nat)
    requires s.Valid() && w < Pow256(s.wordSize)
    ensures |Word(s, w)| == s.wordSize && (if s.bigEndian then BigValue(Word(s, w)) else LittleValue(Word(s, w))) == w
  {
    BytesMean(w, s.wordSize);
  }

  // ---- one-shot hashing ------------------------------------------------------------------------------

  // The words after all whole blocks of a message.
  function Absorb(s: Scheme, h: seq<nat>, m: Bytes): seq<nat>
    requires s.Valid()
    decreases |m|
  {
    if |m| < s.block then h else Absorb(s, s.compress(h, m[..s.block]), m[s.block..])
  }

  // What does not fill a block.
  function Remainder(s: Scheme, m: Bytes): Bytes
    requires s.Valid()
    decreases |m|
  {
    if |m| < s.block then m else Remainder(s, m[s.block..])
  }

  function Word(s: Scheme, w: nat): Bytes { if s.bigEndian then BE(w, s.wordSize) else LE(w, s.wordSize) }

  function Words(s: Scheme, h: seq<nat>): Bytes { if h == [] then [] else Words(s, h[..|h| - 1]) + Word(s, h[|h| - 1]) }

  function Zeros(k: nat): (r: Bytes)
    ensures |r| == k
  {
    if k == 0 then [] else Zeros(k - 1) + [0]
  }

  // How many zero bytes padding takes: the fewest that leave room for just the length field.
  function ZeroCount(s: Scheme, length: nat): nat
    requires s.Valid()
  {
    (2 * s.block - s.field - 1 - length % s.block) % s.block
  }

  function LengthField(s: Scheme, length: nat): Bytes
    requires s.Valid()
  {
    if s.bigEndian then BE(8 * length, s.field) else LE(8 * length, s.field)
  }

  // The padded message of section 5.1 of FIPS 180-4 and sections 3.1 and 3.2 of RFC 1321.
  function Pad(s: Scheme, m: Bytes): Bytes
    requires s.Valid()
  {
    m + [0x80] + Zeros(ZeroCount(s, |m|)) + LengthField(s, |m|)
  }

  function Hash(s: Scheme, m: Bytes): Bytes
    requires s.Valid()
  {
    Words(s, Absorb(s, s.init, Pad(s, m)))
  }

  // So many zeros make the padded message end with a block.
  predicate Closes(s: Scheme, length: nat, zeros: nat)
    requires s.Valid()
  {
    (length + 1 + zeros + s.field) % s.block == 0
  }

  // Padding fills whole blocks with the fewest zeros that do.
  lemma PadFillsBlocks(s: Scheme, m: Bytes)
    requires s.Valid()
    ensures |Pad(s, m)| % s.block == 0 && ZeroCount(s, |m|) < s.block
    ensures Closes(s, |m|, ZeroCount(s, |m|)) && forall k: nat :: Closes(s, |m|, k) ==> ZeroCount(s, |m|) <= k
  {
    var n := |m|;
    var z := ZeroCount(s, n);
    if s.block == 64 { Fills64(n, z); } else { Fills128(n, z); }
    forall k: nat | Closes(s, n, k) ensures z <= k {
      if s.block == 64 { Fewest64(n, z, k); } else { Fewest128(n, z, k); }
    }
    assert |Pad(s, m)| == n + 1 + z + s.field;
  }

  lemma Fills64(n: nat, z: nat)
    requires z == (119 - n % 64) % 64
    ensures z < 64 && (n + 9 + z) % 64 == 0
  {}

  lemma Fills128(n: nat, z: nat)
    requires z == (239 - n % 128) % 128
    ensures z < 128 && (n + 17 + z) % 128 == 0
  {}

  lemma Fewest64(n: nat, z: nat, k: nat)
    requires z < 64 && (n + 9 + z) % 64 == 0 && (n + 9 + k) % 64 == 0
    ensures z <= k
  {}

  lemma Fewest128(n: nat, z: nat, k: nat)
    requires z < 128 && (n + 17 + z) % 128 == 0 && (n + 17 + k) % 128 == 0
    ensures z <= k
  {}

  // ---- absorbing a message in pieces -----------------------------------------------------------------

  lemma {:induction false} AbsorbSplit(s: Scheme, h: seq<nat>, m: Bytes, p: Bytes)
    requires s.Valid()
    ensures Absorb(s, h, m + p) == Absorb(s, Absorb(s, h, m), Remainder(s, m) + p)
    ensures Remainder(s, m + p) == Remainder(s, Remainder(s, m) + p)
    ensures |Remainder(s, m)| < s.block
    decreases |m|
  {
    if |m| >= s.block {
      assert (m + p)[..s.block] == m[..s.block] && (m + p)[s.block..] == m[s.block..] + p;
      AbsorbSplit(s, s.compress(h, m[..s.block]), m[s.block..], p);
    }
  }

  lemma {:induction false} RemainderLength(s: Scheme, m: Bytes)
    requires s.Valid()
    ensures |Remainder(s, m)| == |m| % s.block
    decreases |m|
  {
    OneBlockLess(s, |m|);
    if |m| >= s.block { RemainderLength(s, m[s.block..]); }
  }

  lemma OneBlockLess(s: Scheme, n: nat)
    requires s.Valid()
    ensures n % s.block == if n < s.block then n else (n - s.block) % s.block
  {
    if s.block == 64 { BlockOf64(n); } else { BlockOf128(n); }
  }

  lemma BlockOf64(n: nat)
    ensures n % 64 == if n < 64 then n else (n - 64) % 64
  {}

  lemma BlockOf128(n: nat)
    ensures n % 128 == if n < 128 then n else (n - 128) % 128
  {}

  // ---- the length field ---------------------------------------------------------------------------------

  // Only the low 64 bits of the bit count are written.
  function WrittenField(s: Scheme, bits: nat): Bytes
    requires s.Valid()
  {
    if s.bigEndian then Zeros(s.field - 8) + BE(bits, 8) else LE(bits, 8) + Zeros(s.field - 8)
  }

  // The whole field of the standard: always where that has 64 bits, and where it has 128, when the
  // bit count fits in the lower half.
  predicate InStandard(s: Scheme, length: nat) { s.field == 8 || (8 * length / WRAP) % WRAP == 0 }

  // What a number and its remainder have in common are their low bytes.
  lemma {:induction false} LowBytes(q: nat, r: nat, k: nat)
    ensures BE(Pow256(k) * q + r, k) == BE(r, k) && LE(Pow256(k) * q + r, k) == LE(r, k)
  {
    if k > 0 {
      NextByte(Pow256(k - 1), q, r);
      LowBytes(q, r / 256, k - 1);
    }
  }

  lemma NextByte(p: nat, q: nat, r: nat)
    ensures (256 * p * q + r) % 256 == r % 256 && (256 * p * q + r) / 256 == p * q + r / 256
  {
    var x := p * q;
    assert 256 * p * q == 256 * x;
  }

  lemma {:induction false} HighAndLow(q: nat, r: nat, j: nat, k: nat)
    requires r < Pow256(k)
    ensures BE(Pow256(k) * q + r, j + k) == BE(q, j) + BE(r, k)
    decreases k
  {
    hide BE;
    if k == 0 {
      NoBytes(r);
      assert BE(q, j) + [] == BE(q, j);
    } else {
      NextByte(Pow256(k - 1), q, r);
      HighAndLow(q, r / 256, j, k - 1);
      LastByte(Pow256(k) * q + r, j + k);
      LastByte(r, k);
      assert BE(q, j) + (BE(r / 256, k - 1) + [r % 256]) == BE(q, j) + BE(r / 256, k - 1) + [r % 256];
    }
  }

  lemma NoBytes(n: nat)
    ensures BE(n, 0) == []
  {}

  lemma LastByte(n: nat, k: nat)
    requires k > 0
    ensures BE(n, k) == BE(n / 256, k - 1) + [n % 256]
  {}

  lemma {:induction false} ZeroBytes(r: nat, k: nat)
    requires r < Pow256(k)
    ensures BE(r, k) == Zeros(k) <==> r == 0
  {
    if k > 0 {
      ZeroBytes(r / 256, k - 1);
      assert BE(r, k)[..k - 1] == BE(r / 256, k - 1) && Zeros(k)[..k - 1] == Zeros(k - 1) && BE(r, k)[k - 1] == r % 256;
    }
  }

  lemma FieldIsStandard(s: Scheme, length: nat)
    requires s.Valid()
    ensures WrittenField(s, 8 * length % WRAP) == LengthField(s, length) <==> InStandard(s, length)
  {
    hide Pow256, LE, BE, Zeros;
    var bits := 8 * length;
    var q, r := bits / WRAP, bits % WRAP;
    assert bits == WRAP * q + r && q == WRAP * (q / WRAP) + q % WRAP;
    EightBytes();
    LowBytes(q, r, 8);
    NoZeros();
    if s.field == 8 {
      assert Zeros(0) + BE(r, 8) == BE(r, 8) && LE(r, 8) + Zeros(0) == LE(r, 8);
    } else {
      HighAndLow(q, r, 8, 8);
      LowBytes(q / WRAP, q % WRAP, 8);
      ZeroBytes(q % WRAP, 8);
      var high, low := BE(q, 8), BE(r, 8);
      assert (high + low)[..8] == high && (Zeros(8) + low)[..8] == Zeros(8);
    }
  }

  lemma NoZeros()
    ensures Zeros(0) == []
  {}

  // ---- the streaming state ------------------------------------------------------------------------------

  const WRAP: nat := 0x1_0000_0000_0000_0000

  class Hasher {
    const s: Scheme
    var h: seq<nat>
    var len: nat
    const buf: array<Byte>
    var n: nat
    ghost var message: Bytes

    // The words are those of the whole blocks taken in so far, and the buffer holds the rest.
    ghost predicate Buffered()
      reads this, buf
    {
      && s.Valid() && buf.Length == s.block && n < s.block
      && h == Absorb(s, s.init, message) && buf[..n] == Remainder(s, message)
    }

    ghost predicate Valid()
      reads this, buf
    {
      Buffered() && len == |message| % WRAP
    }

    constructor (scheme: Scheme)
      requires scheme.Valid()
      ensures Valid() && s == scheme && message == [] && fresh(buf)
    {
      s := scheme;
      h, len, n, message := scheme.init, 0, 0, [];
      buf := new Byte[scheme.block];
    }

    // Any split of a message over updates absorbs the message.
    method Update(p: Bytes)
      requires Valid()
      modifies this`h, this`len, this`n, this`message, buf
      ensures Valid() && message == old(message) + p
    {
      hide Absorb, Remainder;
      len := (len + |p|) % WRAP;
      Wraps(|message|, |p|);
      var i := 0;
      while i < |p|
        invariant len == (|old(message)| + |p|) % WRAP
        invariant 0 <= i <= |p| && Buffered() && message == old(message) + p[..i]
      {
        var take := s.block - n;
        if take > |p| - i { take := |p| - i; }
        Take(p[i..i + take]);
        assert p[..i] + p[i..i + take] == p[..i + take];
        i := i + take;
      }
      assert p[..|p|] == p;
    }

    // What fits in the buffer; a full buffer is compressed.
    method Take(piece: Bytes)
      requires Buffered() && 0 < |piece| <= s.block - n
      modifies this`h, this`n, this`message, buf
      ensures Buffered() && message == old(message) + piece
    {
      hide Absorb, Remainder;
      AbsorbSplit(s, s.init, message, piece);
      ghost var held := buf[..n] + piece;
      forall k | 0 <= k < |piece| { buf[n + k] := piece[k]; }
      n := n + |piece|;
      assert buf[..n] == held;
      message := message + piece;
      if n == s.block {
        OneBlock(s, h, held);
        assert buf[..] == held;
        h := s.compress(h, buf[..]);
        n := 0;
      } else {
        NoBlock(s, h, held);
      }
    }

    // The digest of what was absorbed.
    method Final() returns (out: Bytes)
      requires Valid()
      modifies this`h, this`len, this`n, this`message, buf
      ensures InStandard(s, |old(message)|) ==> out == Hash(s, old(message))
      ensures out == Words(s, Absorb(s, s.init, old(message) + [0x80] + Zeros(ZeroCount(s, |old(message)|)) + WrittenField(s, 8 * |old(message)| % WRAP)))
    {
      hide Absorb, Remainder, WrittenField, ZeroCount, Zeros, Words, Pad;
      var bits := BitCount();
      ghost var m := message;
      Update([0x80]);
      PadWithZeros(m);
      var field := Field(bits);
      Update(field);
      out := Digest();
      if InStandard(s, |m|) { Standard(s, m); }
    }

    method BitCount() returns (bits: nat)
      requires Valid()
      ensures bits == 8 * |message| % WRAP && bits < WRAP
    {
      hide Buffered;
      Eightfold(|message|);
      bits := 8 * len % WRAP;
    }

    method Digest() returns (out: Bytes)
      requires Valid()
      ensures out == Words(s, Absorb(s, s.init, message))
    {
      hide Absorb, Remainder;
      out := [];
      assert h[..|h|] == h;
      for i := 0 to |h|
        invariant out == Words(s, h[..i])
      {
        assert h[..i + 1][..i] == h[..i];
        out := out + Word(s, h[i]);
      }
    }

    method PadWithZeros(ghost m: Bytes)
      requires Valid() && message == m + [0x80]
      modifies this`h, this`len, this`n, this`message, buf
      ensures Valid() && message == m + [0x80] + Zeros(ZeroCount(s, |m|))
    {
      hide Absorb, ZeroCount, Remainder, Closes;
      ghost var k := 0;
      ghost var start := message;
      PadFillsBlocks(s, m);
      while n != s.block - s.field
        invariant Valid() && message == start + Zeros(k) && k <= ZeroCount(s, |m|)
        decreases ZeroCount(s, |m|) - k
      {
        Aligned(s, |m|, k);
        RemainderLength(s, message);
        Update([0]);
        k := k + 1;
      }
      Aligned(s, |m|, k);
      RemainderLength(s, message);
    }

    // The length field, byte by byte.
    method Field(bits: nat) returns (field: Bytes)
      requires s.Valid() && bits < WRAP
      ensures field == WrittenField(s, bits)
    {
      hide BE, LE, Zeros;
      var v := bits;
      var bytes: Bytes := [];
      NoDigits(bits);
      for i := 0 to 8
        invariant s.bigEndian ==> BE(v, 8 - i) + bytes == BE(bits, 8)
        invariant !s.bigEndian ==> bytes + LE(v, 8 - i) == LE(bits, 8)
      {
        NextDigit(v, 8 - i, bytes);
        bytes := if s.bigEndian then [v % 256] + bytes else bytes + [v % 256];
        v := v / 256;
      }
      NoDigitsLeft(v, bytes);
      field := if s.bigEndian then Zeros(s.field - 8) + bytes else bytes + Zeros(s.field - 8);
    }
  }

  lemma NoDigits(bits: nat)
    ensures BE(bits, 8) + [] == BE(bits, 8) && [] + LE(bits, 8) == LE(bits, 8)
  {
    hide BE, LE;
  }

  lemma NoDigitsLeft(v: nat, bytes: Bytes)
    ensures BE(v, 0) + bytes == bytes && bytes + LE(v, 0) == bytes
  {}

  lemma NextDigit(v: nat, k: nat, bytes: Bytes)
    requires k > 0
    ensures BE(v, k) + bytes == BE(v / 256, k - 1) + ([v % 256] + bytes)
    ensures bytes + LE(v, k) == bytes + [v % 256] + LE(v / 256, k - 1)
  {
    assert BE(v, k) == BE(v / 256, k - 1) + [v % 256] && LE(v, k) == [v % 256] + LE(v / 256, k - 1);
    hide BE, LE;
  }

  lemma Eightfold(n: nat)
    ensures 8 * (n % WRAP) % WRAP == 8 * n % WRAP
  {
    var q := n / WRAP;
    assert 8 * n == 8 * (n % WRAP) + 8 * q * WRAP;
  }

  lemma Wraps(a: nat, b: nat)
    ensures (a % WRAP + b) % WRAP == (a + b) % WRAP
  {}

  lemma OneBlock(s: Scheme, h: seq<nat>, block: Bytes)
    requires s.Valid() && |block| == s.block
    ensures Absorb(s, h, block) == s.compress(h, block) && Remainder(s, block) == []
  {
    assert block[..s.block] == block && block[s.block..] == [];
  }

  lemma NoBlock(s: Scheme, h: seq<nat>, part: Bytes)
    requires s.Valid() && |part| < s.block
    ensures Absorb(s, h, part) == h && Remainder(s, part) == part
  {}

  // The loop stops exactly where the message can be closed.
  lemma Aligned(s: Scheme, length: nat, k: nat)
    requires s.Valid()
    ensures (length + 1 + k) % s.block == s.block - s.field <==> Closes(s, length, k)
  {
    if s.block == 64 { Aligned64(length + 1 + k); } else { Aligned128(length + 1 + k); }
  }

  lemma Aligned64(n: nat)
    ensures n % 64 == 56 <==> (n + 8) % 64 == 0
  {
    var r := n % 64;
    assert (n + 8) % 64 == if r < 56 then r + 8 else r - 56;
  }

  lemma Aligned128(n: nat)
    ensures n % 128 == 112 <==> (n + 16) % 128 == 0
  {
    var r := n % 128;
    assert (n + 16) % 128 == if r < 112 then r + 16 else r - 112;
  }

  lemma Standard(s: Scheme, m: Bytes)
    requires s.Valid() && InStandard(s, |m|)
    ensures m + [0x80] + Zeros(ZeroCount(s, |m|)) + WrittenField(s, 8 * |m| % WRAP) == Pad(s, m)
  {
    hide Zeros, ZeroCount, WrittenField, LengthField, Pow256;
    FieldIsStandard(s, |m|);
  }

  lemma EightBytes()
    ensures Pow256(8) == WRAP
  {
    assert Pow256(1) == 256 * Pow256(0) && Pow256(2) == 256 * Pow256(1) && Pow256(3) == 256 * Pow256(2) && Pow256(4) == 256 * Pow256(3);
    assert Pow256(5) == 256 * Pow256(4) && Pow256(6) == 256 * Pow256(5) && Pow256(7) == 256 * Pow256(6);
  }

  // Hashing in any number of pieces is hashing the message.
  method HashPieces(s: Scheme, pieces: seq<Bytes>) returns (out: Bytes)
    requires s.Valid() && InStandard(s, |Concat(pieces)|)
    ensures out == Hash(s, Concat(pieces))
  {
    hide Hash;
    var hasher := new Hasher(s);
    assert pieces[..0] == [];
    for i := 0 to |pieces|
      invariant hasher.Valid() && hasher.s == s && hasher.message == Concat(pieces[..i]) && fresh(hasher) && fresh(hasher.buf)
    {
      assert pieces[..i + 1][..i] == pieces[..i];
      hasher.Update(pieces[i]);
    }
    assert pieces[..|pieces|] == pieces;
    out := hasher.Final();
  }

  // SHA-384 is the streaming of SHA-512 from other initial words, cut to 48 bytes.
  method CryptoSha384(compress: (seq<nat>, Bytes) -> seq<nat>, data: Bytes) returns (out: Bytes)
    requires (forall h, b :: |h| == 8 ==> |compress(h, b)| == 8) && 8 * |data| < WRAP
    ensures |Hash(Sha384(compress), data)| == 64 && out == Hash(Sha384(compress), data)[..48]
  {
    hide Absorb, Pad;
    SchemesAreValid(compress);
    var s := Sha384(compress);
    assert Concat([data]) == data by { assert [data][..0] == [] && [] + data == data; }
    var whole := HashPieces(s, [data]);
    EightWords(s, s.init, Pad(s, data));
    WordsLength(s, Absorb(s, s.init, Pad(s, data)));
    out := whole[..48];
  }

  lemma {:induction false} EightWords(s: Scheme, h: seq<nat>, m: Bytes)
    requires s.Valid() && |h| == 8 && forall h, b :: |h| == 8 ==> |s.compress(h, b)| == 8
    ensures |Absorb(s, h, m)| == 8
    decreases |m|
  {
    if |m| >= s.block { EightWords(s, s.compress(h, m[..s.block]), m[s.block..]); }
  }

  lemma {:induction false} WordsLength(s: Scheme, h: seq<nat>)
    requires s.wordSize == 8
    ensures |Words(s, h)| == 8 * |h|
  {
    if h != [] { WordsLength(s, h[..|h| - 1]); }
  }

  function Concat(pieces: seq<Bytes>): Bytes {
    if pieces == [] then [] else Concat(pieces[..|pieces| - 1]) + pieces[|pieces| - 1]
  }
}
