// The passphrase-protected container around an artifact. The cipher and the key derivation are
// parameters; all that is known of them is that opening undoes sealing.
module SealedContainer {
  import opened Wrappers
  import opened ByteOrder
  import opened ArtifactCodec
  import opened ArtifactBijection
  import opened ArtifactIO

  // "KRYSEAL1" and a zero byte
  const SEALED_MAGIC: Bytes := [0x4B, 0x52, 0x59, 0x53, 0x45, 0x41, 0x4C, 0x31, 0]

  const SEALED_VERSION: nat := 1
  const MIN_ITERATIONS: nat := 1000
  const MAX_ITERATIONS: nat := 10_000_000
  const DEFAULT_ITERATIONS: nat := 200_000

  // The derived key is a function of passphrase, salt and iterations.
  datatype Cipher = Cipher(
    key: (Bytes, Bytes, nat) -> Bytes, seal: (Bytes, Bytes, Bytes) -> Bytes, open': (Bytes, Bytes, Bytes) -> Option<Bytes>)
  {
    // The authentication tag has sixteen bytes, and only what was sealed opens.
    ghost predicate Valid() {
      forall k, n, p :: |seal(k, n, p)| == |p| + 16 && open'(k, n, seal(k, n, p)) == Some(p)
    }

    ghost predicate Authentic() {
      forall k, n, c :: open'(k, n, c).Some? ==> c == seal(k, n, open'(k, n, c).value)
    }
  }

  datatype Container = Container(iterations: nat, salt: Bytes, nonce: Bytes, sealed: Bytes)

  predicate WellFormed(c: Container) {
    && MIN_ITERATIONS <= c.iterations <= MAX_ITERATIONS && |c.salt| == 16 && |c.nonce| == 12
    && 16 <= |c.sealed| < Pow256(8)
  }

  // ---- the framing -----------------------------------------------------------------------------------

  function Frame(c: Container): Bytes {
    SEALED_MAGIC + (LE(SEALED_VERSION, 4) + (LE(c.iterations, 4) + (c.salt + (c.nonce + (LE(|c.sealed|, 8) + c.sealed)))))
  }

  function ReadSealed(s: Bytes): Option<Bytes> {
    match ReadInt(s, 8)
    case Got(length, rest) =>
      if length < 16 || length > |rest| then None
      else
        (match ReadExactly(rest, length)
         case Got(sealed, last) => if last == [] then Some(sealed) else None
         case _ => None)
    case _ => None
  }

  function ReadRandoms(s: Bytes, iterations: nat): Option<Container> {
    match ReadExactly(s, 16)
    case Got(salt, afterSalt) =>
      (match ReadExactly(afterSalt, 12)
       case Got(nonce, afterNonce) =>
         (match ReadSealed(afterNonce)
          case Some(sealed) => Some(Container(iterations, salt, nonce, sealed))
          case None => None)
       case _ => None)
    case _ => None
  }

  function Unframe(data: Bytes): Option<Container> {
    if !(SEALED_MAGIC <= data) then None
    else
      match ReadInt(data[|SEALED_MAGIC|..], 4)
      case Got(version, afterVersion) =>
        if version != SEALED_VERSION then None
        else
          (match ReadInt(afterVersion, 4)
           case Got(iterations, afterIterations) =>
             if iterations < MIN_ITERATIONS || iterations > MAX_ITERATIONS then None else ReadRandoms(afterIterations, iterations)
           case _ => None)
      case _ => None
  }

  lemma IntegersFit()
    ensures MAX_ITERATIONS < Pow256(4)
  {
    assert Pow256(1) == 256 * Pow256(0) && Pow256(2) == 256 * Pow256(1) && Pow256(3) == 256 * Pow256(2) && Pow256(4) == 256 * Pow256(3);
  }

  lemma UnframeAfterFrame(c: Container)
    requires WellFormed(c)
    ensures Unframe(Frame(c)) == Some(c)
  {
    hide LE, Pow256, ReadInt, ReadExactly;
    IntegersFit();
    var sized := LE(|c.sealed|, 8) + c.sealed;
    var nonced := c.nonce + sized;
    var salted := c.salt + nonced;
    var counted := LE(c.iterations, 4) + salted;
    var versioned := LE(SEALED_VERSION, 4) + counted;
    assert Frame(c)[|SEALED_MAGIC|..] == versioned;
    IntReads(SEALED_VERSION, 4, counted);
    IntReads(c.iterations, 4, salted);
    ExactlyReads(c.salt, 16, nonced);
    ExactlyReads(c.nonce, 12, sized);
    IntReads(|c.sealed|, 8, c.sealed);
    ExactlyReads(c.sealed, |c.sealed|, []);
    assert c.sealed + [] == c.sealed;
  }

  // What is accepted is exactly the frame of what is read, short integers and all.
  lemma UnframedIsFrame(data: Bytes)
    requires Unframe(data).Some?
    ensures WellFormed(Unframe(data).value) && data == Frame(Unframe(data).value)
  {
    hide LE, Pow256, ReadInt, ReadExactly;
    var s := data[|SEALED_MAGIC|..];
    var afterVersion := ReadInt(s, 4).rest;
    var afterIterations := ReadInt(afterVersion, 4).rest;
    var afterSalt := ReadExactly(afterIterations, 16).rest;
    var afterNonce := ReadExactly(afterSalt, 12).rest;
    var afterLength := ReadInt(afterNonce, 8).rest;
    NothingAtEnd();
    IntExact(s, 4);
    IntExact(afterVersion, 4);
    ExactlyExact(afterIterations, 16);
    ExactlyExact(afterSalt, 12);
    IntExact(afterNonce, 8);
    ExactlyExact(afterLength, ReadInt(afterNonce, 8).value);
    var c := Unframe(data).value;
    assert c.sealed + [] == c.sealed;
  }

  lemma NothingAtEnd()
    ensures ReadInt([], 4) == Malformed && ReadExactly([], 16) == Malformed
  {}

  // ---- sealing and opening ---------------------------------------------------------------------------

  // The work factor used: non-positive asks for the default.
  function Iterations(asked: int): int { if asked <= 0 then DEFAULT_ITERATIONS else asked }

  function Seal(x: Cipher, plain: Bytes, passphrase: Bytes, asked: int, salt: Bytes, nonce: Bytes): Option<Bytes> {
    var n := Iterations(asked);
    if passphrase == [] || n < MIN_ITERATIONS || n > MAX_ITERATIONS then None
    else Some(Frame(Container(n, salt, nonce, x.seal(x.key(passphrase, salt, n), nonce, plain))))
  }

  function Unseal(x: Cipher, data: Bytes, passphrase: Bytes, maxBytes: nat): Option<Bytes> {
    if |data| > maxBytes || passphrase == [] then None
    else
      match Unframe(data)
      case None => None
      case Some(c) => x.open'(x.key(passphrase, c.salt, c.iterations), c.nonce, c.sealed)
  }

  lemma UnsealAfterSeal(x: Cipher, plain: Bytes, passphrase: Bytes, asked: int, salt: Bytes, nonce: Bytes, maxBytes: nat)
    requires x.Valid() && |salt| == 16 && |nonce| == 12 && |plain| + 16 < Pow256(8)
    requires Seal(x, plain, passphrase, asked, salt, nonce).Some?
    ensures var sealed := Seal(x, plain, passphrase, asked, salt, nonce).value;
      Unseal(x, sealed, passphrase, maxBytes) == if |sealed| <= maxBytes then Some(plain) else None
  {
    hide Frame, Unframe, Pow256;
    var n := Iterations(asked);
    UnframeAfterFrame(Container(n, salt, nonce, x.seal(x.key(passphrase, salt, n), nonce, plain)));
  }

  // With an authentic cipher, whatever opens was sealed with that passphrase: the input is the one
  // that sealing the plaintext with the stored salt and nonce gives.
  lemma OnlySealedOpens(x: Cipher, data: Bytes, passphrase: Bytes, maxBytes: nat)
    requires x.Valid() && x.Authentic() && Unseal(x, data, passphrase, maxBytes).Some?
    ensures var c := Unframe(data).value;
      Seal(x, Unseal(x, data, passphrase, maxBytes).value, passphrase, c.iterations, c.salt, c.nonce) == Some(data)
  {
    hide Frame, Unframe;
    UnframedIsFrame(data);
  }

  // ---- the two operations ----------------------------------------------------------------------------

  method EncryptArtifact(x: Cipher, plain: Bytes, passphrase: Bytes, asked: int, salt: Bytes, nonce: Bytes) returns (r: Option<Bytes>)
    requires |salt| == 16 && |nonce| == 12
    ensures r == Seal(x, plain, passphrase, asked, salt, nonce)
  {
    hide LE;
    if passphrase == [] { return None; }
    var iterations := if asked <= 0 then DEFAULT_ITERATIONS else asked;
    if iterations < MIN_ITERATIONS || iterations > MAX_ITERATIONS { return None; }
    var sealed := x.seal(x.key(passphrase, salt, iterations), nonce, plain);
    var b := new Buffer();
    b.Write(SEALED_MAGIC);
    b.WriteInt(SEALED_VERSION, 4);
    b.WriteInt(iterations, 4);
    b.Write(salt);
    b.Write(nonce);
    b.WriteInt(|sealed|, 8);
    b.Write(sealed);
    FrameLayout(Container(iterations, salt, nonce, sealed), b.data);
    r := Some(b.data);
  }

  lemma FrameLayout(c: Container, data: Bytes)
    requires data == [] + SEALED_MAGIC + LE(SEALED_VERSION, 4) + LE(c.iterations, 4) + c.salt + c.nonce + LE(|c.sealed|, 8) + c.sealed
    ensures data == Frame(c)
  {
    hide LE;
  }

  method DecryptArtifact(x: Cipher, data: Bytes, passphrase: Bytes, maxBytes: nat) returns (r: Option<Bytes>)
    ensures r == Unseal(x, data, passphrase, maxBytes)
  {
    if |data| > maxBytes { return None; }
    var c := ReadContainer(data);
    if c.None? || passphrase == [] { return None; }
    r := x.open'(x.key(passphrase, c.value.salt, c.value.iterations), c.value.nonce, c.value.sealed);
  }

  method ReadContainer(data: Bytes) returns (r: Option<Container>)
    ensures r == Unframe(data)
  {
    hide ReadInt, ReadExactly;
    if !(SEALED_MAGIC <= data) { return None; }
    var reader := new Reader(data[|SEALED_MAGIC|..]);
    assert reader.s[0..] == reader.s;
    var version, ok := reader.Int(4);
    if !ok || version != SEALED_VERSION { return None; }
    var iterations, salt, nonce, length, sealed;
    iterations, ok := reader.Int(4);
    if !ok || iterations < MIN_ITERATIONS || iterations > MAX_ITERATIONS { return None; }
    salt, ok := reader.Exactly(16);
    if !ok { return None; }
    nonce, ok := reader.Exactly(12);
    if !ok { return None; }
    length, ok := reader.Int(8);
    if !ok || length < 16 || length > reader.Len() { return None; }
    sealed, ok := reader.Exactly(length);
    if !ok || reader.Len() != 0 { return None; }
    r := Some(Container(iterations, salt, nonce, sealed));
  }
}
