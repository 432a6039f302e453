// UTF-8 as the JSON codec reads and writes it.
module JsonUtf8 {

  type Byte = b: int | 0 <= b < 256

  type Text = seq<Byte>

  // ---- RFC 3629 ------------------------------------------------------------------------------------

  predicate Scalar(cp: nat) { cp < 0x110000 && !(0xD800 <= cp <= 0xDFFF) }

  // The encoding of a code point; the parser writes its unescaped characters with it.
  function Utf8(cp: nat): Text
    requires cp < 0x110000
  {
    if cp < 0x80 then [cp]
    else if cp < 0x800 then [0xC0 + cp / 64, 0x80 + cp % 64]
    else if cp < 0x10000 then [0xE0 + cp / 4096, 0x80 + cp / 64 % 64, 0x80 + cp % 64]
    else [0xF0 + cp / 262144, 0x80 + cp / 4096 % 64, 0x80 + cp / 64 % 64, 0x80 + cp % 64]
  }

  // The table of section 3 of RFC 3629: how many bytes, what marks them, and where the bits go.
  lemma Utf8Table(cp: nat)
    requires cp < 0x110000
    ensures |Utf8(cp)| == if cp <= 0x7F then 1 else if cp <= 0x7FF then 2 else if cp <= 0xFFFF then 3 else 4
    ensures |Utf8(cp)| == 1 ==> Utf8(cp)[0] == cp
    ensures |Utf8(cp)| > 1 ==> forall i :: 1 <= i < |Utf8(cp)| ==> 0x80 <= Utf8(cp)[i] <= 0xBF
    ensures |Utf8(cp)| == 2 ==> 0xC0 <= Utf8(cp)[0] <= 0xDF && cp == (Utf8(cp)[0] as int - 0xC0) * 0x40 + (Utf8(cp)[1] as int - 0x80)
    ensures |Utf8(cp)| == 3 ==> 0xE0 <= Utf8(cp)[0] <= 0xEF && cp == (Utf8(cp)[0] as int - 0xE0) * 0x1000 + (Utf8(cp)[1] as int - 0x80) * 0x40 + (Utf8(cp)[2] as int - 0x80)
    ensures |Utf8(cp)| == 4 ==>
      0xF0 <= Utf8(cp)[0] <= 0xF7 && cp == (Utf8(cp)[0] as int - 0xF0) * 0x40000 + (Utf8(cp)[1] as int - 0x80) * 0x1000 + (Utf8(cp)[2] as int - 0x80) * 0x40 + (Utf8(cp)[3] as int - 0x80)
  {
    var a, b, c := cp / 64, cp / 4096, cp / 262144;
    assert cp == 64 * a + cp % 64 && a == 64 * b + a % 64 && b == 64 * c + b % 64;
    assert b == a / 64 && c == b / 64;
  }

  function EncodeAll(cps: seq<nat>): Text
    requires forall i :: 0 <= i < |cps| ==> Scalar(cps[i])
  {
    if cps == [] then [] else assert Scalar(cps[0]); Utf8(cps[0]) + EncodeAll(cps[1..])
  }

  // Well-formed UTF-8: the encoding of some scalar values.
  ghost predicate Strict(s: Text) { exists cps: seq<nat> :: Encodes(cps, s) }

  ghost predicate Encodes(cps: seq<nat>, s: Text) { (forall i :: 0 <= i < |cps| ==> Scalar(cps[i])) && s == EncodeAll(cps) }

  // ---- the recogniser -------------------------------------------------------------------------------

  // The two top bits are 10.
  predicate Tail(b: Byte) { b / 64 == 2 }

  // The length of the multi-byte sequence at the front, zero when there is none.
  function Sequence(s: Text): (n: nat)
    ensures n <= |s| && (n == 0 || 2 <= n <= 4)
  {
    if s == [] then 0
    else
      var a := s[0];
      if 0xC2 <= a <= 0xDF then (if |s| >= 2 && Tail(s[1]) then 2 else 0)
      else if a == 0xE0 then (if |s| >= 3 && 0xA0 <= s[1] <= 0xBF && Tail(s[2]) then 3 else 0)
      else if 0xE1 <= a <= 0xEC || 0xEE <= a <= 0xEF then (if |s| >= 3 && Tail(s[1]) && Tail(s[2]) then 3 else 0)
      else if a == 0xED then (if |s| >= 3 && 0x80 <= s[1] <= 0x9F && Tail(s[2]) then 3 else 0)
      else if a == 0xF0 then (if |s| >= 4 && 0x90 <= s[1] <= 0xBF && Tail(s[2]) && Tail(s[3]) then 4 else 0)
      else if 0xF1 <= a <= 0xF3 then (if |s| >= 4 && Tail(s[1]) && Tail(s[2]) && Tail(s[3]) then 4 else 0)
      else if a == 0xF4 then (if |s| >= 4 && 0x80 <= s[1] <= 0x8F && Tail(s[2]) && Tail(s[3]) then 4 else 0)
      else 0
  }

  // The code point of a recognised sequence.
  function CodePoint(s: Text): nat
    requires Sequence(s) > 0
  {
    var a: int, b: int := s[0], s[1];
    if Sequence(s) == 2 then (a - 0xC0) * 64 + (b - 0x80)
    else
      var c: int := s[2];
      if Sequence(s) == 3 then (a - 0xE0) * 4096 + (b - 0x80) * 64 + (c - 0x80)
      else
        var d: int := s[3];
        (a - 0xF0) * 262144 + (b - 0x80) * 4096 + (c - 0x80) * 64 + (d - 0x80)
  }

  lemma Digits64(w: nat, x: nat, y: nat, z: nat)
    requires x < 64 && y < 64 && z < 64
    ensures var n := w * 262144 + x * 4096 + y * 64 + z;
      n / 262144 == w && n / 4096 == w * 64 + x && n / 4096 % 64 == x && n / 64 % 64 == y && n % 64 == z && n / 64 == w * 4096 + x * 64 + y
  {
    var n := w * 262144 + x * 4096 + y * 64 + z;
    assert n / 64 == w * 4096 + x * 64 + y;
    assert n / 4096 == w * 64 + x;
  }

  // What is recognised is the encoding of a scalar value, in its only form.
  lemma SequenceEncodes(s: Text)
    requires Sequence(s) > 0
    ensures Scalar(CodePoint(s)) && CodePoint(s) >= 0x80 && s[..Sequence(s)] == Utf8(CodePoint(s))
  {
    if Sequence(s) == 2 { TwoEncode(s); } else if Sequence(s) == 3 { ThreeEncode(s); } else { FourEncode(s); }
  }

  lemma TwoEncode(s: Text)
    requires Sequence(s) == 2
    ensures Scalar(CodePoint(s)) && CodePoint(s) >= 0x80 && s[..2] == Utf8(CodePoint(s))
  {
    Digits64(0, 0, s[0] - 0xC0, s[1] - 0x80);
  }

  lemma ThreeEncode(s: Text)
    requires Sequence(s) == 3
    ensures Scalar(CodePoint(s)) && CodePoint(s) >= 0x80 && s[..3] == Utf8(CodePoint(s))
  {
    Digits64(0, s[0] - 0xE0, s[1] - 0x80, s[2] - 0x80);
    var cp := CodePoint(s);
    assert 0x800 <= cp < 0x10000;
  }

  lemma FourEncode(s: Text)
    requires Sequence(s) == 4
    ensures Scalar(CodePoint(s)) && CodePoint(s) >= 0x80 && s[..4] == Utf8(CodePoint(s))
  {
    Digits64(s[0] - 0xF0, s[1] - 0x80, s[2] - 0x80, s[3] - 0x80);
    var cp := CodePoint(s);
    assert 0x10000 <= cp < 0x110000;
  }

  // Every scalar value outside ASCII is recognised, whatever follows.
  lemma EncodingIsSequence(cp: nat, rest: Text)
    requires Scalar(cp) && cp >= 0x80
    ensures Sequence(Utf8(cp) + rest) == |Utf8(cp)|
  {
    if cp < 0x800 { TwoRead(cp, rest); } else if cp < 0x10000 { ThreeRead(cp, rest); } else { FourRead(cp, rest); }
  }

  lemma TwoRead(cp: nat, rest: Text)
    requires 0x80 <= cp < 0x800
    ensures |Utf8(cp)| == 2 && Sequence(Utf8(cp) + rest) == 2
  {
    var s := Utf8(cp) + rest;
    assert s[0] == 0xC0 + cp / 64 && s[1] == 0x80 + cp % 64;
    assert 2 <= cp / 64 < 32;
  }

  lemma ThreeRead(cp: nat, rest: Text)
    requires Scalar(cp) && 0x800 <= cp < 0x10000
    ensures |Utf8(cp)| == 3 && Sequence(Utf8(cp) + rest) == 3
  {
    var x, y, z := cp / 4096, cp / 64 % 64, cp % 64;
    assert cp / 64 == x * 64 + y && cp == x * 4096 + y * 64 + z;
    var s := Utf8(cp) + rest;
    assert s[0] == 0xE0 + x && s[1] == 0x80 + y && s[2] == 0x80 + z;
    assert x == 0 ==> y >= 32;
    assert x == 13 ==> y < 32;
  }

  lemma FourRead(cp: nat, rest: Text)
    requires 0x10000 <= cp < 0x110000
    ensures |Utf8(cp)| == 4 && Sequence(Utf8(cp) + rest) == 4
  {
    var w, x, y, z := cp / 262144, cp / 4096 % 64, cp / 64 % 64, cp % 64;
    assert cp / 4096 == w * 64 + x;
    var s := Utf8(cp) + rest;
    assert s[0] == 0xF0 + w && s[1] == 0x80 + x && s[2] == 0x80 + y && s[3] == 0x80 + z;
    assert w == 0 ==> x >= 16;
    assert w <= 4 && (w == 4 ==> x < 16);
  }

  // ---- what a string is after a trip through the parser -----------------------------------------------

  const REPLACEMENT: nat := 0xFFFD

  // Each byte that starts no sequence becomes U+FFFD.
  function Scrub(s: Text): Text {
    if s == [] then []
    else if s[0] < 0x80 then [s[0]] + Scrub(s[1..])
    else if Sequence(s) == 0 then Utf8(REPLACEMENT) + Scrub(s[1..])
    else s[..Sequence(s)] + Scrub(s[Sequence(s)..])
  }

  lemma {:induction false} ScrubGrows(s: Text)
    ensures |Scrub(s)| >= |s|
  {
    if s != [] {
      if s[0] < 0x80 || Sequence(s) == 0 { ScrubGrows(s[1..]); } else { ScrubGrows(s[Sequence(s)..]); }
    }
  }

  lemma EncodesMore(cp: nat, s: Text)
    requires Scalar(cp) && Strict(s)
    ensures Strict(Utf8(cp) + s)
  {
    var cps: seq<nat> :| Encodes(cps, s);
    assert ([cp] + cps)[1..] == cps;
    assert Encodes([cp] + cps, Utf8(cp) + s);
  }

  lemma {:induction false} ScrubbedIsStrict(s: Text)
    ensures Strict(Scrub(s))
  {
    if s == [] {
      assert Encodes([], []);
    } else if s[0] < 0x80 {
      ScrubbedIsStrict(s[1..]);
      EncodesMore(s[0], Scrub(s[1..]));
    } else if Sequence(s) == 0 {
      ScrubbedIsStrict(s[1..]);
      EncodesMore(REPLACEMENT, Scrub(s[1..]));
    } else {
      ScrubbedIsStrict(s[Sequence(s)..]);
      SequenceEncodes(s);
      EncodesMore(CodePoint(s), Scrub(s[Sequence(s)..]));
    }
  }

  lemma {:induction false} EncodedIsUnchanged(cps: seq<nat>)
    requires forall i :: 0 <= i < |cps| ==> Scalar(cps[i])
    ensures Scrub(EncodeAll(cps)) == EncodeAll(cps)
  {
    if cps != [] {
      var rest := EncodeAll(cps[1..]);
      EncodedIsUnchanged(cps[1..]);
      var s := Utf8(cps[0]) + rest;
      if cps[0] < 0x80 {
        assert s[1..] == rest;
      } else {
        EncodingIsSequence(cps[0], rest);
        assert s[..Sequence(s)] == Utf8(cps[0]) && s[Sequence(s)..] == rest;
      }
    }
  }

  // Exactly the strict strings survive.
  lemma UnchangedExactly(s: Text)
    ensures Scrub(s) == s <==> Strict(s)
  {
    ScrubbedIsStrict(s);
    if Strict(s) {
      var cps :| Encodes(cps, s);
      EncodedIsUnchanged(cps);
    }
  }
}
