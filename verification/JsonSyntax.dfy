// JSON texts by section 2 to 7 of RFC 8259, written out as syntax trees with their spelling and their
// meaning, and the parser against them: it accepts exactly the spellings of trees nested at most 256
// deep, and gives their meaning. Beyond the standard it lets a surrogate without its partner and a
// byte that starts no character stand for U+FFFD.
module JsonSyntax {
  import opened Wrappers
  import opened JsonUtf8
  import opened JsonTree
  import opened JsonWriter
  import opened JsonGrammar
  import opened JsonRoundTrip

  // ---- characters of strings ---------------------------------------------------------------------------

  datatype Char =
    | Raw(c: Byte)
    | Wide(cp: nat)
    | Short(letter: Byte)
    | Unit(digits: Text)
    | Pair(high: Text, low: Text)
    | Lone(digits: Text)
    | Stray(c: Byte)

  // The value of a hexadecimal digit of either case.
  function HexOf(b: Byte): int {
    if 0x30 <= b <= 0x39 then b - 0x30 else if 0x41 <= b <= 0x46 then b - 0x41 + 10 else if 0x61 <= b <= 0x66 then b - 0x61 + 10 else -1
  }

  predicate FourHex(d: Text) { |d| == 4 && HexOf(d[0]) >= 0 && HexOf(d[1]) >= 0 && HexOf(d[2]) >= 0 && HexOf(d[3]) >= 0 }

  function FromHex(d: Text): (v: nat)
    requires FourHex(d)
    ensures v < 0x10000
  {
    ((HexOf(d[0]) * 16 + HexOf(d[1])) * 16 + HexOf(d[2])) * 16 + HexOf(d[3])
  }

  predicate Utf16Low(d: Text) { FourHex(d) && 0xDC00 <= FromHex(d) < 0xE000 }

  predicate Utf16High(d: Text) { FourHex(d) && 0xD800 <= FromHex(d) < 0xDC00 }

  function Spell(ch: Char): Text {
    match ch
    case Raw(c) => [c]
    case Wide(cp) => if cp < 0x110000 then Utf8(cp) else []
    case Short(letter) => [0x5C, letter]
    case Unit(d) => [0x5C, 0x75] + d
    case Pair(h, l) => [0x5C, 0x75] + h + [0x5C, 0x75] + l
    case Lone(d) => [0x5C, 0x75] + d
    case Stray(c) => [c]
  }

  // What stands behind a surrogate to make a pair.
  predicate LowNext(after: Text) { |after| >= 6 && after[0] == 0x5C && after[1] == 0x75 && Utf16Low(after[2..6]) }

  // A character of a string, in front of the rest of the text.
  ghost predicate Spelled(ch: Char, after: Text) {
    match ch
    case Raw(c) => 0x20 <= c < 0x80 && c != 0x22 && c != 0x5C
    case Wide(cp) => Scalar(cp) && cp >= 0x80
    case Short(letter) => letter in {0x22, 0x5C, 0x2F, 0x62, 0x66, 0x6E, 0x72, 0x74}
    case Unit(d) => FourHex(d) && !Utf16Low(d) && !Utf16High(d)
    case Pair(h, l) => Utf16High(h) && Utf16Low(l)
    case Lone(d) => Utf16Low(d) || (Utf16High(d) && !LowNext(after))
    case Stray(c) => c >= 0x80 && NoCharacter([c] + after)
  }

  // No character's encoding is at the front.
  ghost predicate NoCharacter(s: Text) { forall cp :: Scalar(cp) && cp >= 0x80 ==> !(Utf8(cp) <= s) }

  // The code point a character stands for.
  function Code(ch: Char): nat {
    match ch
    case Raw(c) => c
    case Wide(cp) => cp
    case Short(letter) =>
      if letter == 0x62 then 8 else if letter == 0x66 then 12 else if letter == 0x6E then 10 else if letter == 0x72 then 13 else if letter == 0x74 then 9 else letter
    case Unit(d) => if FourHex(d) then FromHex(d) else 0
    case Pair(h, l) => if Utf16High(h) && Utf16Low(l) then 0x10000 + (FromHex(h) - 0xD800) * 0x400 + (FromHex(l) - 0xDC00) else 0
    case Lone(_) => 0xFFFD
    case Stray(_) => 0xFFFD
  }

  lemma CodeIsScalar(ch: Char, after: Text)
    requires Spelled(ch, after)
    ensures Scalar(Code(ch))
  {}

  function SpellAll(cs: seq<Char>): Text { if cs == [] then [] else Spell(cs[0]) + SpellAll(cs[1..]) }

  ghost predicate SpelledAll(cs: seq<Char>, after: Text) {
    cs != [] ==> Spelled(cs[0], SpellAll(cs[1..]) + after) && SpelledAll(cs[1..], after)
  }

  // The characters as UTF-8.
  function Mean(cs: seq<Char>): Text {
    if cs == [] then [] else (if Code(cs[0]) < 0x110000 then Utf8(Code(cs[0])) else []) + Mean(cs[1..])
  }

  // ---- escapes ------------------------------------------------------------------------------------------

  lemma HexAgrees(b: Byte)
    ensures HexValue(b) == if HexOf(b) >= 0 then Some(HexOf(b) as nat) else None
  {}

  lemma FourAgree(d: Text, rest: Text)
    requires |d| == 4
    ensures Hex4(d + rest) == if FourHex(d) then Ok(FromHex(d), rest) else Err(BadEscape)
  {
    HexAgrees(d[0]);
    HexAgrees(d[1]);
    HexAgrees(d[2]);
    HexAgrees(d[3]);
    assert (d + rest)[4..] == rest && (d + rest)[0] == d[0] && (d + rest)[1] == d[1] && (d + rest)[2] == d[2] && (d + rest)[3] == d[3];
  }

  // A single escape of a scalar value.
  lemma UnitReads(d: Text, rest: Text)
    requires FourHex(d) && !Utf16Low(d) && !Utf16High(d)
    ensures UnicodeEscape(d + rest) == Ok(FromHex(d), rest)
  {
    FourAgree(d, rest);
  }

  // The two escapes of a scalar value beyond the first plane.
  lemma PairReads(h: Text, l: Text, rest: Text)
    requires Utf16High(h) && Utf16Low(l)
    ensures UnicodeEscape(h + [0x5C, 0x75] + l + rest) == Ok(0x10000 + (FromHex(h) - 0xD800) * 0x400 + (FromHex(l) - 0xDC00), rest)
  {
    var tail := [0x5C, 0x75] + (l + rest);
    assert h + [0x5C, 0x75] + l + rest == h + tail;
    FourAgree(h, tail);
    assert tail[2..] == l + rest;
    FourAgree(l, rest);
  }

  // Every scalar value there has exactly one such pair of values.
  lemma EveryScalarHasAPair(cp: nat)
    requires 0x10000 <= cp < 0x110000
    ensures var h, l := 0xD800 + (cp - 0x10000) / 0x400, 0xDC00 + (cp - 0x10000) % 0x400;
      0xD800 <= h < 0xDC00 && 0xDC00 <= l < 0xE000 && 0x10000 + (h - 0xD800) * 0x400 + (l - 0xDC00) == cp
  {}

  lemma LoneReads(d: Text, after: Text)
    requires Utf16Low(d) || (Utf16High(d) && !LowNext(after))
    requires |after| >= 2 && after[0] == 0x5C && after[1] == 0x75 ==> |after| >= 6 && FourHex(after[2..6])
    ensures UnicodeEscape(d + after) == Ok(0xFFFD, after)
  {
    FourAgree(d, after);
    if Utf16High(d) && |after| >= 2 && after[0] == 0x5C && after[1] == 0x75 {
      assert after[2..] == after[2..6] + after[6..];
      FourAgree(after[2..6], after[6..]);
    }
  }

  // ---- strings ------------------------------------------------------------------------------------------

  lemma CharReads(ch: Char, after: Text)
    requires Spelled(ch, after)
    requires |after| >= 2 && after[0] == 0x5C && after[1] == 0x75 ==> |after| >= 6 && FourHex(after[2..6])
    ensures StringBody(Spell(ch) + after) == Prepend(Utf8(Code(ch)), StringBody(after))
  {
    hide StringBody, UnicodeEscape, Utf8, Sequence, NoCharacter, FromHex, HexOf, FourHex, LowNext, Prepend;
    match ch
    case Raw(c) => RawReads(c, after);
    case Wide(cp) => WideReads(cp, after);
    case Short(letter) => ShortReads(letter, after);
    case Unit(d) =>
      UnitReads(d, after);
      OneEscapeReads(d, FromHex(d), after);
    case Pair(h, l) => TwoEscapesRead(h, l, after);
    case Lone(d) =>
      LoneReads(d, after);
      OneEscapeReads(d, 0xFFFD, after);
    case Stray(c) => StrayReads(c, after);
  }

  lemma OneEscapeReads(d: Text, cp: nat, after: Text)
    requires UnicodeEscape(d + after) == Ok(cp, after)
    ensures StringBody([0x5C, 0x75] + d + after) == Prepend(Utf8(cp), StringBody(after))
  {
    hide StringBody, UnicodeEscape, Utf8, Prepend;
    EscapeReads(d + after, cp, after);
    assert [0x5C, 0x75] + d + after == [0x5C, 0x75] + (d + after);
  }

  lemma TwoEscapesRead(h: Text, l: Text, after: Text)
    requires Utf16High(h) && Utf16Low(l)
    ensures StringBody(Spell(Pair(h, l)) + after) == Prepend(Utf8(Code(Pair(h, l))), StringBody(after))
  {
    hide StringBody, UnicodeEscape, Utf8, FromHex, HexOf, FourHex, Prepend;
    var x := h + [0x5C, 0x75] + l + after;
    PairReads(h, l, after);
    EscapeReads(x, Code(Pair(h, l)), after);
    assert Spell(Pair(h, l)) + after == [0x5C, 0x75] + x;
  }

  lemma EscapeReads(x: Text, cp: nat, after: Text)
    requires UnicodeEscape(x) == Ok(cp, after)
    ensures StringBody([0x5C, 0x75] + x) == Prepend(Utf8(cp), StringBody(after))
  {
    hide UnicodeEscape, Utf8, Sequence;
    assert ([0x5C, 0x75] + x)[2..] == x;
  }

  lemma RawReads(c: Byte, after: Text)
    requires 0x20 <= c < 0x80 && c != 0x22 && c != 0x5C
    ensures StringBody([c] + after) == Prepend(Utf8(c), StringBody(after))
  {
    hide UnicodeEscape, Utf8, Sequence;
    OneByte(c);
    assert ([c] + after)[1..] == after;
  }

  lemma OneByte(c: Byte)
    requires c < 0x80
    ensures Utf8(c) == [c]
  {}

  lemma WideReads(cp: nat, after: Text)
    requires Scalar(cp) && cp >= 0x80
    ensures StringBody(Utf8(cp) + after) == Prepend(Utf8(cp), StringBody(after))
  {
    var s := Utf8(cp) + after;
    EncodingIsSequence(cp, after);
    assert s[0] >= 0x80;
    hide Utf8, Sequence;
    assert s[..Sequence(s)] == Utf8(cp) && s[Sequence(s)..] == after;
  }

  lemma ShortReads(letter: Byte, after: Text)
    requires letter in {0x22, 0x5C, 0x2F, 0x62, 0x66, 0x6E, 0x72, 0x74}
    ensures StringBody([0x5C, letter] + after) == Prepend(Utf8(Code(Short(letter))), StringBody(after))
  {
    hide Sequence, UnicodeEscape;
    assert ([0x5C, letter] + after)[2..] == after;
  }

  lemma NoneIsFound(s: Text)
    requires NoCharacter(s)
    ensures Sequence(s) == 0
  {
    if Sequence(s) > 0 { SequenceEncodes(s); }
  }

  lemma StrayReads(c: Byte, after: Text)
    requires c >= 0x80 && NoCharacter([c] + after)
    ensures StringBody([c] + after) == Prepend(Utf8(0xFFFD), StringBody(after))
  {
    hide Sequence, NoCharacter, Utf8;
    NoneIsFound([c] + after);
    assert ([c] + after)[1..] == after;
  }

  // An escape that starts behind a character is spelled out.
  lemma EscapeNext(cs: seq<Char>, rest: Text)
    requires SpelledAll(cs, [0x22] + rest)
    ensures var after := SpellAll(cs) + ([0x22] + rest);
      |after| >= 2 && after[0] == 0x5C && after[1] == 0x75 ==> |after| >= 6 && FourHex(after[2..6])
  {
    if cs == [] {
      assert SpellAll(cs) + ([0x22] + rest) == [0x22] + rest;
    } else {
      hide Spell, Spelled, FourHex;
      var tail := SpellAll(cs[1..]) + ([0x22] + rest);
      assert SpellAll(cs) + ([0x22] + rest) == Spell(cs[0]) + tail;
      EscapeStarts(cs[0], tail);
    }
  }

  lemma EscapeStarts(ch: Char, tail: Text)
    requires Spelled(ch, tail)
    ensures var after := Spell(ch) + tail; |after| >= 2 && after[0] == 0x5C && after[1] == 0x75 ==> |after| >= 6 && FourHex(after[2..6])
  {
    hide FromHex, NoCharacter, LowNext, HexOf;
    var after := Spell(ch) + tail;
    match ch
    case Raw(c) => assert after[0] == c;
    case Wide(cp) => WideByte(cp); assert after[0] == Utf8(cp)[0];
    case Short(letter) => assert after[1] == letter;
    case Unit(d) => assert after[2..6] == d;
    case Pair(h, l) => assert after[2..6] == h;
    case Lone(d) => assert after[2..6] == d;
    case Stray(c) => assert after[0] == c;
  }

  lemma WideByte(cp: nat)
    requires Scalar(cp) && cp >= 0x80
    ensures Utf8(cp) != [] && forall i :: 0 <= i < |Utf8(cp)| ==> Utf8(cp)[i] >= 0x80
  {}

  // A spelled string reads as its characters.
  lemma {:induction false} StringMeans(cs: seq<Char>, rest: Text)
    requires SpelledAll(cs, [0x22] + rest)
    ensures StringBody(SpellAll(cs) + ([0x22] + rest)) == Ok(Mean(cs), rest)
  {
    hide StringBody, Utf8, Spell, Spelled, Code;
    if cs == [] {
      QuoteEnds(rest);
      assert SpellAll(cs) + ([0x22] + rest) == [0x22] + rest;
    } else {
      var after := SpellAll(cs[1..]) + ([0x22] + rest);
      assert SpellAll(cs) + ([0x22] + rest) == Spell(cs[0]) + after;
      StringMeans(cs[1..], rest);
      EscapeNext(cs[1..], rest);
      CharReads(cs[0], after);
      CodeIsScalar(cs[0], after);
    }
  }

  lemma QuoteEnds(rest: Text)
    ensures StringBody([0x22] + rest) == Ok([], rest)
  {
    assert ([0x22] + rest)[1..] == rest;
  }

  // Every string the parser reads is spelled.
  lemma {:induction false} StringSyntax(s: Text) returns (cs: seq<Char>)
    requires StringBody(s).Ok?
    ensures var rest := StringBody(s).rest; s == SpellAll(cs) + ([0x22] + rest) && SpelledAll(cs, [0x22] + rest) && StringBody(s).value == Mean(cs)
    decreases |s|
  {
    var rest := StringBody(s).rest;
    if s[0] == 0x22 {
      cs := [];
      assert s == [] + ([0x22] + rest);
    } else {
      var ch, after := FirstChar(s);
      var more := StringSyntax(after);
      cs := [ch] + more;
      JoinChars(ch, more, s, after, rest);
    }
  }

  lemma JoinChars(ch: Char, more: seq<Char>, s: Text, after: Text, rest: Text)
    requires s == Spell(ch) + after && Spelled(ch, after) && after == SpellAll(more) + ([0x22] + rest) && SpelledAll(more, [0x22] + rest)
    ensures var cs := [ch] + more;
      s == SpellAll(cs) + ([0x22] + rest) && SpelledAll(cs, [0x22] + rest) && Mean(cs) == Utf8(Code(ch)) + Mean(more)
  {
    hide Spell, Spelled, Code, Utf8;
    CodeIsScalar(ch, after);
    assert ([ch] + more)[1..] == more;
    assert SpellAll([ch] + more) + ([0x22] + rest) == Spell(ch) + after;
  }

  // The first character of an accepted string.
  lemma FirstChar(s: Text) returns (ch: Char, after: Text)
    requires StringBody(s).Ok? && s != [] && s[0] != 0x22
    ensures |after| < |s| && s == Spell(ch) + after && Spelled(ch, after)
    ensures StringBody(after).Ok? && StringBody(s) == Prepend(Utf8(Code(ch)), StringBody(after)) && Code(ch) < 0x110000
  {
    hide Utf8, Sequence, UnicodeEscape;
    if s[0] == 0x5C && s[1] == 0x75 {
      ch, after := FirstEscape(s);
    } else if s[0] == 0x5C {
      ch, after := Short(s[1]), s[2..];
      ShortReads(s[1], after);
      assert s == [0x5C, s[1]] + after;
    } else if s[0] < 0x80 {
      ch, after := Raw(s[0]), s[1..];
      OneByte(s[0]);
      assert s == [s[0]] + after;
    } else if Sequence(s) == 0 {
      ch, after := Stray(s[0]), s[1..];
      assert s == [s[0]] + after;
      NothingFound(s);
      StrayReads(s[0], after);
    } else {
      SequenceEncodes(s);
      ch, after := Wide(CodePoint(s)), s[Sequence(s)..];
      assert s == Utf8(CodePoint(s)) + after;
    }
  }

  lemma NothingFound(s: Text)
    requires Sequence(s) == 0
    ensures NoCharacter(s)
  {
    forall cp | Scalar(cp) && cp >= 0x80 ensures !(Utf8(cp) <= s) {
      if Utf8(cp) <= s {
        assert s == Utf8(cp) + s[|Utf8(cp)|..];
        EncodingIsSequence(cp, s[|Utf8(cp)|..]);
      }
    }
  }

  lemma FirstEscape(s: Text) returns (ch: Char, after: Text)
    requires StringBody(s).Ok? && |s| >= 2 && s[0] == 0x5C && s[1] == 0x75
    ensures |after| < |s| && s == Spell(ch) + after && Spelled(ch, after)
    ensures StringBody(after).Ok? && StringBody(s) == Prepend(Utf8(Code(ch)), StringBody(after)) && Code(ch) < 0x110000
  {
    hide UnicodeEscape, Utf8, Sequence, SimpleEscape, Hex4, HexValue, HexOf, FromHex, FourHex;
    var u := s[2..];
    assert UnicodeEscape(u).Ok?;
    FirstUnit(u);
    ch, after := UnitAtFront(u);
    assert s == [0x5C, 0x75] + u;
  }

  lemma FirstUnit(u: Text)
    requires UnicodeEscape(u).Ok?
    ensures |u| >= 4 && FourHex(u[..4])
  {
    assert u == u[..4] + u[4..];
    FourAgree(u[..4], u[4..]);
  }

  lemma PairAtFront(d: Text, t: Text) returns (ch: Char, after: Text)
    requires UnicodeEscape(d + t).Ok? && |d| == 4 && FourHex(d) && Utf16High(d) && LowNext(t)
    ensures |after| < |t| && [0x5C, 0x75] + (d + t) == Spell(ch) + after && Spelled(ch, after)
    ensures UnicodeEscape(d + t) == Ok(Code(ch), after)
  {
    hide UnicodeEscape, Hex4, HexValue, HexOf, FromHex, FourHex;
    var l := t[2..6];
    ch, after := Pair(d, l), t[6..];
    assert t == [0x5C, 0x75] + l + after && d + t == d + [0x5C, 0x75] + l + after;
    PairReads(d, l, after);
  }

  lemma UnitAtFront(u: Text) returns (ch: Char, after: Text)
    requires UnicodeEscape(u).Ok? && |u| >= 4 && FourHex(u[..4])
    ensures |after| < |u| && [0x5C, 0x75] + u == Spell(ch) + after && Spelled(ch, after)
    ensures UnicodeEscape(u) == Ok(Code(ch), after)
  {
    hide UnicodeEscape, Hex4, HexValue, HexOf, FromHex, FourHex;
    var d, t := u[..4], u[4..];
    assert u == d + t;
    if Utf16High(d) && LowNext(t) {
      ch, after := PairAtFront(d, t);
    } else if Utf16High(d) || Utf16Low(d) {
      ch, after := Lone(d), t;
      LoneValue(d, t);
    } else {
      ch, after := Unit(d), t;
      UnitReads(d, t);
    }
  }

  // A high surrogate that is followed by an escape is accepted only when that has its four digits.
  lemma HexBehind(d: Text, t: Text)
    requires Utf16High(d) && |t| >= 2 && t[0] == 0x5C && t[1] == 0x75 && UnicodeEscape(d + t).Ok?
    ensures |t| >= 6 && FourHex(t[2..6])
  {
    FourAgree(d, t);
    assert Hex4(t[2..]).Ok?;
    assert t[2..] == t[2..6] + t[6..];
    FourAgree(t[2..6], t[6..]);
  }

  lemma LoneValue(d: Text, t: Text)
    requires Utf16Low(d) || (Utf16High(d) && !LowNext(t))
    requires UnicodeEscape(d + t).Ok?
    ensures UnicodeEscape(d + t) == Ok(0xFFFD, t)
  {
    FourAgree(d, t);
    if Utf16High(d) && |t| >= 2 && t[0] == 0x5C && t[1] == 0x75 {
      HexBehind(d, t);
      LoneReads(d, t);
    }
  }

  // ---- what follows a string does not matter ------------------------------------------------------------

  lemma LowNextHere(x: Text, rest: Text)
    ensures LowNext(x + [0x22] + rest) <==> LowNext(x + [0x22])
  {
    var a, b := x + [0x22], x + [0x22] + rest;
    if |x| >= 6 {
      assert a[2..6] == b[2..6];
    } else if |a| >= 6 {
      assert a[2..6] == b[2..6];
    } else if |b| >= 6 {
      assert b[|x|] == 0x22 && |x| < 6;
      if |x| >= 2 { assert b[2..6][|x| - 2] == 0x22; }
    }
  }

  lemma NoCharacterHere(x: Text, rest: Text)
    ensures NoCharacter(x + [0x22] + rest) <==> NoCharacter(x + [0x22])
  {
    forall cp | Scalar(cp) && cp >= 0x80 ensures Utf8(cp) <= x + [0x22] + rest <==> Utf8(cp) <= x + [0x22] {
      WideByte(cp);
      PrefixHere(Utf8(cp), x, rest);
    }
  }

  lemma PrefixHere(u: Text, x: Text, rest: Text)
    requires forall i :: 0 <= i < |u| ==> u[i] >= 0x80
    ensures u <= x + [0x22] + rest <==> u <= x + [0x22]
  {
    var a, b := x + [0x22], x + [0x22] + rest;
    if |u| > |x| {
      assert b[|x|] == 0x22;
      assert u[|x|] >= 0x80;
    } else {
      assert a[..|u|] == b[..|u|];
    }
  }

  lemma {:induction false} AnyContext(cs: seq<Char>, rest: Text)
    ensures SpelledAll(cs, [0x22] + rest) <==> SpelledAll(cs, [0x22])
  {
    if cs != [] {
      AnyContext(cs[1..], rest);
      SpelledHere(cs[0], SpellAll(cs[1..]), rest);
    }
  }

  lemma SpelledHere(ch: Char, x: Text, rest: Text)
    ensures Spelled(ch, x + ([0x22] + rest)) <==> Spelled(ch, x + [0x22])
  {
    hide LowNext, NoCharacter;
    assert x + ([0x22] + rest) == x + [0x22] + rest;
    match ch
    case Lone(_) => LowNextHere(x, rest);
    case Stray(c) =>
      NoCharacterHere([c] + x, rest);
      assert [c] + (x + [0x22] + rest) == [c] + x + [0x22] + rest && [c] + (x + [0x22]) == [c] + x + [0x22];
    case _ =>
  }

  // ---- numbers --------------------------------------------------------------------------------------------

  datatype Exponent = Exponent(marker: Byte, sign: Text, digits: Text)

  datatype Num = Num(minus: bool, whole: Text, fraction: Option<Text>, exponent: Option<Exponent>)

  predicate Decimals(ds: Text) { ds != [] && forall i :: 0 <= i < |ds| ==> 0x30 <= ds[i] <= 0x39 }

  predicate NumSpelled(n: Num) {
    && Decimals(n.whole) && (|n.whole| > 1 ==> n.whole[0] != 0x30)
    && (n.fraction.Some? ==> Decimals(n.fraction.value))
    && (n.exponent.Some? ==>
          var e := n.exponent.value;
          (e.marker == 0x65 || e.marker == 0x45) && (e.sign == [] || e.sign == [0x2B] || e.sign == [0x2D]) && Decimals(e.digits))
  }

  function SpellWhole(n: Num): Text { (if n.minus then [0x2D] else []) + n.whole }

  function SpellFraction(n: Num): Text { if n.fraction.Some? then [0x2E] + n.fraction.value else [] }

  function SpellExponent(n: Num): Text {
    if n.exponent.Some? then [n.exponent.value.marker] + n.exponent.value.sign + n.exponent.value.digits else []
  }

  function SpellNum(n: Num): Text { SpellWhole(n) + SpellFraction(n) + SpellExponent(n) }

  function Pow10(k: nat): nat { if k == 0 then 1 else 10 * Pow10(k - 1) }

  // The digits by their places.
  function PlaceValue(ds: Text): int { if ds == [] then 0 else (ds[0] - 0x30) * Pow10(|ds| - 1) + PlaceValue(ds[1..]) }

  // An integer of 64 bits is one; any other number keeps its spelling.
  function MeanNum(n: Num): Json {
    var v := if n.minus then 0 - PlaceValue(n.whole) else PlaceValue(n.whole);
    if n.fraction.Some? || n.exponent.Some? then Float(SpellNum(n))
    else if -0x8000_0000_0000_0000 <= v < 0x8000_0000_0000_0000 then Int(v)
    else Number(SpellNum(n))
  }

  lemma {:induction false} PlacesSnoc(ds: Text, d: Byte)
    ensures PlaceValue(ds + [d]) == 10 * PlaceValue(ds) + (d - 0x30)
  {
    if ds == [] {
      assert [d][1..] == [] && Pow10(0) == 1 && [] + [d] == [d];
    } else {
      PlacesSnoc(ds[1..], d);
      assert (ds + [d])[1..] == ds[1..] + [d];
      Tenfold(ds[0] as int - 0x30, Pow10(|ds| - 1));
    }
  }

  lemma Tenfold(a: int, p: nat)
    ensures a * (10 * p) == 10 * (a * p)
  {}

  lemma {:induction false} PlacesAreNatural(ds: Text)
    requires AllDigits(ds)
    ensures PlaceValue(ds) == Natural(ds)
  {
    if ds != [] {
      var k := |ds| - 1;
      PlacesAreNatural(ds[..k]);
      PlacesSnoc(ds[..k], ds[k]);
      assert ds == ds[..k] + [ds[k]];
    }
  }

  lemma WholeEnds(n: Num, after: Text)
    requires NumSpelled(n) && (after == [] || !IsDigit(after[0]))
    ensures IntegerEnd(SpellWhole(n) + after) == Some(|SpellWhole(n)|)
  {
    var s := SpellWhole(n) + after;
    var a := if n.minus then 1 else 0;
    assert s[a] == n.whole[0] && Starts(s, MINUS) == n.minus;
    if n.whole[0] != 0x30 {
      assert s[a..] == n.whole + after;
      RunOf(n.whole, after);
    }
  }

  lemma FractionEnds(front: Text, n: Num, after: Text)
    requires NumSpelled(n) && (after == [] || (!IsDigit(after[0]) && after[0] != 0x2E))
    ensures FractionEnd(front + SpellFraction(n) + after, |front|) == Some(|front| + |SpellFraction(n)|)
  {
    var s := front + SpellFraction(n) + after;
    if n.fraction.Some? {
      assert s[|front| + 1..] == n.fraction.value + after && s[|front| + 1] == n.fraction.value[0];
      RunOf(n.fraction.value, after);
    } else {
      assert |s| > |front| ==> s[|front|] == after[0];
    }
  }

  lemma ExponentEnds(front: Text, n: Num, after: Text)
    requires NumSpelled(n) && (after == [] || (!IsDigit(after[0]) && after[0] != 0x65 && after[0] != 0x45))
    ensures ExponentEnd(front + SpellExponent(n) + after, |front|) == Some(|front| + |SpellExponent(n)|)
  {
    var s := front + SpellExponent(n) + after;
    if n.exponent.Some? {
      ExponentRuns(front, n.exponent.value, after);
    } else {
      assert |s| > |front| ==> s[|front|] == after[0];
    }
  }

  lemma ExponentRuns(front: Text, e: Exponent, after: Text)
    requires (e.marker == 0x65 || e.marker == 0x45) && (e.sign == [] || e.sign == [0x2B] || e.sign == [0x2D]) && Decimals(e.digits)
    requires after == [] || !IsDigit(after[0])
    ensures var x := [e.marker] + e.sign + e.digits; ExponentEnd(front + x + after, |front|) == Some(|front| + |x|)
  {
    hide DigitRun;
    var c, k := |front|, |e.sign|;
    var s := front + ([e.marker] + e.sign + e.digits) + after;
    var ahead := front + [e.marker] + e.sign;
    assert s == ahead + (e.digits + after) && |ahead| == c + 1 + k;
    assert s[c + 1 + k..] == e.digits + after && s[c + 1 + k] == e.digits[0];
    assert s[c] == ahead[c] == e.marker && (k == 1 ==> s[c + 1] == ahead[c + 1] == e.sign[0]);
    RunOf(e.digits, after);
  }

  // What can stand behind a value.
  predicate Behind(post: Text) { post == [] || post[0] in {0x20, 0x09, 0x0A, 0x0D, 0x2C, 0x5D, 0x7D} }

  lemma NumMeans(n: Num, post: Text)
    requires NumSpelled(n) && Behind(post)
    ensures ParseNumber(SpellNum(n) + post) == Ok(MeanNum(n), post)
  {
    hide IntegerEnd, FractionEnd, ExponentEnd, PlaceValue, Natural, AllDigits, ParseNumber, SpellWhole, SpellFraction, SpellExponent, NumSpelled, MeanNum;
    var w, f, e := SpellWhole(n), SpellFraction(n), SpellExponent(n);
    var s := SpellNum(n) + post;
    EndsPlain(n, post);
    Grouped(w, f, e, post);
    WholeEnds(n, f + e + post);
    FractionEnds(w, n, e + post);
    ExponentEnds(w + f, n, post);
    NumberParts(s, |w|, |w + f|, |w + f + e|);
    if f == [] && e == [] { WholeMeans(n, s); } else { OddMeans(n); }
  }

  lemma Grouped(w: Text, f: Text, e: Text, post: Text)
    ensures var s := w + f + e + post;
      && s == w + (f + e + post) && s == w + f + (e + post) && s == (w + f) + e + post
      && s[..|w|] == w && s[..|w + f + e|] == w + f + e && s[|w + f + e|..] == post && (f == [] && e == [] ==> s[|w|..] == post)
  {}

  lemma NumberParts(s: Text, b: nat, c: nat, e: nat)
    requires b <= |s| && c <= |s| && IntegerEnd(s) == Some(b) && FractionEnd(s, b) == Some(c) && ExponentEnd(s, c) == Some(e)
    ensures b <= e <= |s| && Integral(s[..b])
    ensures ParseNumber(s) == if e == b then Ok(IntegerNode(s[..b]), s[b..]) else Ok(Float(s[..e]), s[e..])
  {
    hide IntegerEnd, FractionEnd, ExponentEnd;
    IntegerIsIntegral(s);
  }

  lemma OddMeans(n: Num)
    requires n.fraction.Some? || n.exponent.Some?
    ensures MeanNum(n) == Float(SpellNum(n))
  {}

  lemma EndsPlain(n: Num, post: Text)
    requires NumSpelled(n) && Behind(post)
    ensures var x := SpellFraction(n) + SpellExponent(n) + post; x == [] || !IsDigit(x[0])
    ensures var x := SpellExponent(n) + post; x == [] || (!IsDigit(x[0]) && x[0] != 0x2E)
    ensures SpellFraction(n) == [] <==> n.fraction.None?
    ensures SpellExponent(n) == [] <==> n.exponent.None?
  {}

  lemma WholeMeans(n: Num, s: Text)
    requires NumSpelled(n) && n.fraction.None? && n.exponent.None? && IntegerEnd(s) == Some(|SpellWhole(n)|) && s[..|SpellWhole(n)|] == SpellWhole(n)
    ensures Integral(SpellWhole(n)) && IntegerNode(SpellWhole(n)) == MeanNum(n)
  {
    hide IntegerEnd;
    IntegerIsIntegral(s);
    var w := SpellWhole(n);
    assert SpellNum(n) == w;
    if n.minus { assert w[1..] == n.whole; } else { assert w == n.whole; }
    PlacesAreNatural(n.whole);
  }

  lemma NumSyntax(s: Text) returns (n: Num)
    requires ParseNumber(s).Ok?
    ensures NumSpelled(n) && s == SpellNum(n) + ParseNumber(s).rest && ParseNumber(s).value == MeanNum(n)
  {
    hide PlaceValue, Natural;
    var b := IntegerEnd(s).value;
    var c := FractionEnd(s, b).value;
    var e := ExponentEnd(s, c).value;
    var minus, whole := WholeSyntax(s);
    var fraction := FractionSyntax(s, b);
    var exponent := ExponentSyntax(s, c);
    n := Num(minus, whole, fraction, exponent);
    Assemble3(s, b, c, e, n);
    if e == b { WholeMeans(n, s); }
  }

  lemma Assemble3(s: Text, b: nat, c: nat, e: nat, n: Num)
    requires b <= c <= e <= |s| && s[..b] == SpellWhole(n) && s[b..c] == SpellFraction(n) && s[c..e] == SpellExponent(n)
    ensures s[..e] == SpellNum(n) && s == SpellNum(n) + s[e..]
    ensures e == b <==> SpellFraction(n) == [] && SpellExponent(n) == []
  {
    assert s[..e] == s[..b] + s[b..c] + s[c..e];
  }

  lemma DigitsAt(s: Text, a: nat) returns (ds: Text)
    requires DigitAt(s, a)
    ensures Decimals(ds) && |ds| == DigitRun(s[a..]) && a + |ds| <= |s| && s[a..a + |ds|] == ds && ds[0] == s[a]
  {
    DigitRunDigits(s[a..]);
    ds := s[a..][..DigitRun(s[a..])];
  }

  lemma WholeSyntax(s: Text) returns (minus: bool, whole: Text)
    requires IntegerEnd(s).Some?
    ensures Decimals(whole) && (|whole| > 1 ==> whole[0] != 0x30)
    ensures s[..IntegerEnd(s).value] == (if minus then [0x2D] else []) + whole
  {
    minus := Starts(s, MINUS);
    var a := if minus then 1 else 0;
    if s[a] == 0x30 {
      whole := [s[a]];
    } else {
      whole := DigitsAt(s, a);
    }
    assert s[..a] == if minus then [0x2D] else [];
    assert s[..IntegerEnd(s).value] == s[..a] + s[a..IntegerEnd(s).value];
  }

  lemma FractionSyntax(s: Text, b: nat) returns (fraction: Option<Text>)
    requires b <= |s| && FractionEnd(s, b).Some?
    ensures fraction.Some? ==> Decimals(fraction.value)
    ensures s[b..FractionEnd(s, b).value] == if fraction.Some? then [0x2E] + fraction.value else []
  {
    if b == |s| || s[b] != 0x2E {
      fraction := None;
    } else {
      var ds := DigitsAt(s, b + 1);
      fraction := Some(ds);
      assert s[b..b + 1 + |ds|] == [s[b]] + s[b + 1..b + 1 + |ds|];
    }
  }

  lemma ExponentSyntax(s: Text, c: nat) returns (exponent: Option<Exponent>)
    requires c <= |s| && ExponentEnd(s, c).Some?
    ensures exponent.Some? ==>
      var e := exponent.value;
      (e.marker == 0x65 || e.marker == 0x45) && (e.sign == [] || e.sign == [0x2B] || e.sign == [0x2D]) && Decimals(e.digits)
    ensures s[c..ExponentEnd(s, c).value] == if exponent.Some? then [exponent.value.marker] + exponent.value.sign + exponent.value.digits else []
  {
    if c == |s| || (s[c] != 0x65 && s[c] != 0x45) {
      exponent := None;
    } else {
      var signed := c + 1 < |s| && (s[c + 1] == 0x2B || s[c + 1] == 0x2D);
      var d := if signed then c + 2 else c + 1;
      var ds := DigitsAt(s, d);
      var sign := if signed then [s[c + 1]] else [];
      exponent := Some(Exponent(s[c], sign, ds));
      assert s[c..d] == [s[c]] + sign;
      assert s[c..d + |ds|] == s[c..d] + s[d..d + |ds|];
    }
  }

  // ---- values -----------------------------------------------------------------------------------------------

  // A value behind white space. The white space of an empty array or object is kept with it.
  datatype Doc = Doc(before: Text, tok: Tok)

  datatype Tok =
    | TNull | TTrue | TFalse
    | TNumber(num: Num)
    | TString(chars: seq<Char>)
    | TArray(inner: Text, items: seq<Item>)
    | TObject(inner: Text, members: seq<Entry>)

  datatype Item = Item(doc: Doc, after: Text)

  datatype Entry = Entry(before: Text, key: seq<Char>, mid: Text, doc: Doc, after: Text)

  predicate White(t: Text) { forall i :: 0 <= i < |t| ==> t[i] in {0x20, 0x09, 0x0A, 0x0D} }

  function SpellString(cs: seq<Char>): Text { [0x22] + SpellAll(cs) + [0x22] }

  function SpellDoc(d: Doc): Text { d.before + SpellTok(d.tok) }

  function SpellTok(t: Tok): Text {
    match t
    case TNull => [0x6E, 0x75, 0x6C, 0x6C]
    case TTrue => [0x74, 0x72, 0x75, 0x65]
    case TFalse => [0x66, 0x61, 0x6C, 0x73, 0x65]
    case TNumber(n) => SpellNum(n)
    case TString(cs) => SpellString(cs)
    case TArray(inner, items) => [0x5B] + inner + SpellItems(items) + [0x5D]
    case TObject(inner, ms) => [0x7B] + inner + SpellEntries(ms) + [0x7D]
  }

  function SpellItems(items: seq<Item>): Text {
    if items == [] then []
    else SpellDoc(items[0].doc) + items[0].after + (if |items| == 1 then [] else [0x2C] + SpellItems(items[1..]))
  }

  function SpellEntry(m: Entry): Text { m.before + SpellString(m.key) + m.mid + [0x3A] + SpellDoc(m.doc) + m.after }

  function SpellEntries(ms: seq<Entry>): Text {
    if ms == [] then [] else SpellEntry(ms[0]) + (if |ms| == 1 then [] else [0x2C] + SpellEntries(ms[1..]))
  }

  ghost predicate DocSpelled(d: Doc) { White(d.before) && TokSpelled(d.tok) }

  ghost predicate TokSpelled(t: Tok) {
    match t
    case TNumber(n) => NumSpelled(n)
    case TString(cs) => SpelledAll(cs, [0x22])
    case TArray(inner, items) => White(inner) && (items != [] ==> inner == []) && forall x :: x in items ==> DocSpelled(x.doc) && White(x.after)
    case TObject(inner, ms) => White(inner) && (ms != [] ==> inner == []) && forall m :: m in ms ==> EntrySpelled(m)
    case _ => true
  }

  ghost predicate EntrySpelled(m: Entry) {
    White(m.before) && SpelledAll(m.key, [0x22]) && White(m.mid) && DocSpelled(m.doc) && White(m.after)
  }

  function MeanDoc(d: Doc): Json {
    match d.tok
    case TNull => Null
    case TTrue => Bool(true)
    case TFalse => Bool(false)
    case TNumber(n) => MeanNum(n)
    case TString(cs) => Str(Mean(cs))
    case TArray(_, items) => Array(MeanItems(items))
    case TObject(_, ms) => Object(Collect(MeanEntries(ms)))
  }

  function MeanItems(items: seq<Item>): (r: seq<Json>)
    ensures |r| == |items| && forall i :: 0 <= i < |r| ==> r[i] == MeanDoc(items[i].doc)
  {
    if items == [] then [] else [MeanDoc(items[0].doc)] + MeanItems(items[1..])
  }

  function MeanEntries(ms: seq<Entry>): (r: seq<Member>)
    ensures |r| == |ms| && forall i :: 0 <= i < |r| ==> r[i] == Member(Mean(ms[i].key), MeanDoc(ms[i].doc))
  {
    if ms == [] then [] else [Member(Mean(ms[0].key), MeanDoc(ms[0].doc))] + MeanEntries(ms[1..])
  }

  // Nested at most `k` brackets deep.
  ghost predicate NestedWithin(d: Doc, k: int) {
    match d.tok
    case TArray(_, items) => k > 0 && forall x :: x in items ==> NestedWithin(x.doc, k - 1)
    case TObject(_, ms) => k > 0 && forall m :: m in ms ==> NestedWithin(m.doc, k - 1)
    case _ => true
  }

  // ---- the spelling of a tree is read as its meaning ---------------------------------------------------------

  lemma {:induction false} SkipWhite(w: Text, x: Text)
    requires White(w) && x != [] && x[0] !in {0x20, 0x09, 0x0A, 0x0D}
    ensures SkipWs(w + x) == x
  {
    if w == [] {
      assert w + x == x;
    } else {
      assert (w + x)[1..] == w[1..] + x;
      SkipWhite(w[1..], x);
    }
  }

  lemma StringReadsAs(cs: seq<Char>, post: Text)
    requires SpelledAll(cs, [0x22])
    ensures StringBody((SpellString(cs) + post)[1..]) == Ok(Mean(cs), post)
  {
    hide StringBody, SpellAll, SpelledAll, Mean;
    AnyContext(cs, post);
    StringMeans(cs, post);
    assert (SpellString(cs) + post)[1..] == SpellAll(cs) + ([0x22] + post);
  }

  lemma TokStarts(t: Tok)
    requires TokSpelled(t)
    ensures SpellTok(t) != [] && SpellTok(t)[0] !in {0x20, 0x09, 0x0A, 0x0D, 0x5D, 0x7D}
    ensures t.TNumber? ==> SpellTok(t)[0] == 0x2D || 0x30 <= SpellTok(t)[0] <= 0x39
  {
    hide SpelledAll, SpellAll, SpellItems, SpellEntries;
    match t
    case TNumber(n) => assert SpellNum(n)[0] == SpellWhole(n)[0];
    case _ =>
  }

  lemma DocMeans(d: Doc, post: Text, depth: nat)
    requires DocSpelled(d) && NestedWithin(d, 256 - depth) && Behind(post)
    ensures ParseValue(SpellDoc(d) + post, depth) == Ok(MeanDoc(d), post)
    decreases d, 2
  {
    hide SpellTok, ParseToken, MeanDoc;
    TokStarts(d.tok);
    assert SpellDoc(d) + post == d.before + (SpellTok(d.tok) + post);
    SkipWhite(d.before, SpellTok(d.tok) + post);
    TokMeans(d, post, depth);
  }

  lemma {:induction false} TokMeans(d: Doc, post: Text, depth: nat)
    requires DocSpelled(d) && NestedWithin(d, 256 - depth) && Behind(post)
    ensures ParseToken(SpellTok(d.tok) + post, depth) == Ok(MeanDoc(d), post)
    decreases d, 1
  {
    hide ParseToken, SpellTok, MeanDoc;
    match d.tok
    case TNumber(n) => NumberTokMeans(d, post, depth);
    case TString(cs) => StringTokMeans(d, post, depth);
    case TArray(inner, items) => ArrayMeans(d, post, depth);
    case TObject(inner, ms) => ObjectMeans(d, post, depth);
    case _ => WordTokMeans(d, post, depth);
  }

  lemma WordTokMeans(d: Doc, post: Text, depth: nat)
    requires d.tok.TNull? || d.tok.TTrue? || d.tok.TFalse?
    ensures ParseToken(SpellTok(d.tok) + post, depth) == Ok(MeanDoc(d), post)
  {
    hide ParseNumber, ParseItems, ParseMembers, StringBody;
    WordReads(post);
  }

  lemma NumberTokMeans(d: Doc, post: Text, depth: nat)
    requires d.tok.TNumber? && NumSpelled(d.tok.num) && Behind(post)
    ensures ParseToken(SpellTok(d.tok) + post, depth) == Ok(MeanDoc(d), post)
  {
    hide ParseNumber, SpellNum, MeanNum, ParseItems, ParseMembers, StringBody;
    TokStarts(d.tok);
    NumMeans(d.tok.num, post);
  }

  lemma StringTokMeans(d: Doc, post: Text, depth: nat)
    requires d.tok.TString? && SpelledAll(d.tok.chars, [0x22])
    ensures ParseToken(SpellTok(d.tok) + post, depth) == Ok(MeanDoc(d), post)
  {
    hide StringBody, SpelledAll, SpellAll, ParseNumber, ParseItems, ParseMembers;
    StringReadsAs(d.tok.chars, post);
  }

  lemma WordReads(post: Text)
    ensures Literal(NULL + post, NULL, Null) == Ok(Null, post) && Literal(TRUE + post, TRUE, Bool(true)) == Ok(Bool(true), post)
    ensures Literal(FALSE + post, FALSE, Bool(false)) == Ok(Bool(false), post)
    ensures NULL == [0x6E, 0x75, 0x6C, 0x6C] && TRUE == [0x74, 0x72, 0x75, 0x65] && FALSE == [0x66, 0x61, 0x6C, 0x73, 0x65]
  {
    assert (NULL + post)[|NULL|..] == post && (TRUE + post)[|TRUE|..] == post && (FALSE + post)[|FALSE|..] == post;
  }

  lemma {:induction false} ArrayMeans(d: Doc, post: Text, depth: nat)
    requires DocSpelled(d) && NestedWithin(d, 256 - depth) && Behind(post) && d.tok.TArray?
    ensures ParseToken(SpellTok(d.tok) + post, depth) == Ok(MeanDoc(d), post)
    decreases d, 0
  {
    hide ParseItems, ParseMembers, StringBody, ParseNumber, SpellItems;
    var items := d.tok.items;
    var s := SpellTok(d.tok) + post;
    if items == [] {
      NoItems();
      assert s[1..] == d.tok.inner + ([0x5D] + post);
      SkipWhite(d.tok.inner, [0x5D] + post);
      assert ([0x5D] + post)[1..] == post;
    } else {
      var u := SpellItems(items) + [0x5D] + post;
      assert s[1..] == u;
      ItemsOpen(items, [0x5D] + post);
      assert SpellItems(items) + ([0x5D] + post) == u;
      ItemsSkip(u, depth + 1);
      ItemsMean(items, post, depth + 1);
    }
  }

  lemma NoItems()
    ensures SpellItems([]) == [] && SpellEntries([]) == [] && MeanItems([]) == [] && MeanEntries([]) == []
  {}

  lemma ItemsSkip(u: Text, depth: nat)
    ensures ParseItems(SkipWs(u), depth) == ParseItems(u, depth) && ParseMembers(SkipWs(u), depth) == ParseMembers(u, depth)
  {
    hide ParseToken, StringBody;
    SkippedOnce(u);
  }

  lemma {:induction false} SkippedOnce(u: Text)
    ensures SkipWs(SkipWs(u)) == SkipWs(u)
  {
    if u != [] && (u[0] == 0x20 || u[0] == 0x09 || u[0] == 0x0A || u[0] == 0x0D) { SkippedOnce(u[1..]); }
  }

  // A non-empty array or object does not close at once.
  lemma ItemsOpen(items: seq<Item>, post: Text)
    requires items != [] && DocSpelled(items[0].doc)
    ensures !Starts(SkipWs(SpellItems(items) + post), CLOSE_ARRAY)
  {
    hide SpellTok, TokSpelled;
    var d := items[0].doc;
    TokStarts(d.tok);
    var x := items[0].after + (if |items| == 1 then [] else [0x2C] + SpellItems(items[1..])) + post;
    assert SpellItems(items) + post == d.before + (SpellTok(d.tok) + x);
    SkipWhite(d.before, SpellTok(d.tok) + x);
  }

  lemma ItemAfter(after: Text, x: Text)
    requires White(after) && x != [] && x[0] in {0x2C, 0x5D, 0x7D}
    ensures Behind(after + x) && SkipWs(after + x) == x
  {
    SkipWhite(after, x);
  }

  lemma {:induction false} ItemsMean(items: seq<Item>, post: Text, depth: nat)
    requires items != [] && forall x :: x in items ==> DocSpelled(x.doc) && White(x.after) && NestedWithin(x.doc, 256 - depth)
    ensures ParseItems(SpellItems(items) + [0x5D] + post, depth) == Ok(MeanItems(items), post)
    decreases items
  {
    hide ParseValue, SpellDoc, MeanDoc, DocSpelled, NestedWithin, SkipWs;
    var x := items[0];
    var s := SpellItems(items) + [0x5D] + post;
    assert x in items;
    if |items| == 1 {
      var rest := [0x5D] + post;
      ItemAfter(x.after, rest);
      DocMeans(x.doc, x.after + rest, depth);
      assert s == SpellDoc(x.doc) + (x.after + rest);
      assert rest[1..] == post;
      assert items[1..] == [] && MeanItems(items[1..]) == [];
      assert MeanItems(items) == [MeanDoc(x.doc)];
    } else {
      var rest := [0x2C] + (SpellItems(items[1..]) + [0x5D] + post);
      ItemAfter(x.after, rest);
      DocMeans(x.doc, x.after + rest, depth);
      assert s == SpellDoc(x.doc) + (x.after + rest);
      assert rest[1..] == SpellItems(items[1..]) + [0x5D] + post;
      ItemsMean(items[1..], post, depth);
    }
  }

  lemma {:induction false} ObjectMeans(d: Doc, post: Text, depth: nat)
    requires DocSpelled(d) && NestedWithin(d, 256 - depth) && Behind(post) && d.tok.TObject?
    ensures ParseToken(SpellTok(d.tok) + post, depth) == Ok(MeanDoc(d), post)
    decreases d, 0
  {
    hide ParseItems, ParseMembers, StringBody, ParseNumber, SpellEntries, Collect;
    var ms := d.tok.members;
    var s := SpellTok(d.tok) + post;
    if ms == [] {
      NoItems();
      EmptyMembers();
      assert s[1..] == d.tok.inner + ([0x7D] + post);
      SkipWhite(d.tok.inner, [0x7D] + post);
      assert ([0x7D] + post)[1..] == post;
    } else {
      var u := SpellEntries(ms) + [0x7D] + post;
      assert s[1..] == u && ms[0] in ms;
      EntriesOpen(ms, [0x7D] + post);
      assert SpellEntries(ms) + ([0x7D] + post) == u;
      ItemsSkip(u, depth + 1);
      EntriesMean(ms, post, depth + 1);
    }
  }

  lemma EntriesOpen(ms: seq<Entry>, post: Text)
    requires ms != [] && EntrySpelled(ms[0])
    ensures !Starts(SkipWs(SpellEntries(ms) + post), CLOSE_OBJECT)
  {
    hide SpellDoc, SpellAll, DocSpelled, SpelledAll;
    var m := ms[0];
    var more := if |ms| == 1 then [] else [0x2C] + SpellEntries(ms[1..]);
    var behind := m.mid + [0x3A] + SpellDoc(m.doc) + m.after;
    assert SpellEntries(ms) == m.before + SpellString(m.key) + behind + more;
    hide SpellEntries;
    Regrouped(m.before, SpellString(m.key), behind, more, post);
    SkipWhite(m.before, SpellString(m.key) + (behind + more + post));
  }

  lemma Regrouped(a: Text, b: Text, c: Text, d: Text, e: Text)
    ensures a + b + c + d + e == a + (b + (c + d + e))
  {}

  lemma EntryMeans(m: Entry, x: Text, depth: nat)
    requires EntrySpelled(m) && NestedWithin(m.doc, 256 - depth) && x != [] && x[0] in {0x2C, 0x5D, 0x7D}
    ensures ParseMember(SpellEntry(m) + x, depth) == Ok(Member(Mean(m.key), MeanDoc(m.doc)), m.after + x)
    decreases m, 0
  {
    hide ParseValue, SpellDoc, MeanDoc, DocSpelled, NestedWithin, SkipWs, StringBody, SpelledAll, Mean;
    var tail := [0x3A] + (SpellDoc(m.doc) + (m.after + x));
    var text := SpellString(m.key) + (m.mid + tail);
    assert SpellEntry(m) + x == m.before + text;
    SkipWhite(m.before, text);
    StringReadsAs(m.key, m.mid + tail);
    SkipWhite(m.mid, tail);
    assert tail[1..] == SpellDoc(m.doc) + (m.after + x);
    ItemAfter(m.after, x);
    DocMeans(m.doc, m.after + x, depth);
  }

  lemma {:induction false} EntriesMean(ms: seq<Entry>, post: Text, depth: nat)
    requires ms != [] && forall m :: m in ms ==> EntrySpelled(m) && NestedWithin(m.doc, 256 - depth)
    ensures ParseMembers(SpellEntries(ms) + [0x7D] + post, depth) == Ok(MeanEntries(ms), post)
    decreases ms
  {
    hide ParseMember, SpellEntry, MeanDoc, EntrySpelled, NestedWithin, SkipWs;
    var m := ms[0];
    var s := SpellEntries(ms) + [0x7D] + post;
    assert m in ms;
    WhiteAfter(m);
    if |ms| == 1 {
      var rest := [0x7D] + post;
      ItemAfter(m.after, rest);
      EntryMeans(m, rest, depth);
      assert s == SpellEntry(m) + rest;
      assert rest[1..] == post;
      assert ms[1..] == [] && MeanEntries(ms[1..]) == [];
      assert MeanEntries(ms) == [Member(Mean(m.key), MeanDoc(m.doc))];
    } else {
      var rest := [0x2C] + (SpellEntries(ms[1..]) + [0x7D] + post);
      ItemAfter(m.after, rest);
      EntryMeans(m, rest, depth);
      assert s == SpellEntry(m) + rest;
      assert rest[1..] == SpellEntries(ms[1..]) + [0x7D] + post;
      EntriesMean(ms[1..], post, depth);
    }
  }

  lemma WhiteAfter(m: Entry)
    requires EntrySpelled(m)
    ensures White(m.after)
  {}

  // ---- whatever is read is the spelling of a tree --------------------------------------------------------------

  lemma {:induction false} WhiteFront(s: Text) returns (w: Text)
    ensures White(w) && s == w + SkipWs(s)
  {
    if s != [] && (s[0] == 0x20 || s[0] == 0x09 || s[0] == 0x0A || s[0] == 0x0D) {
      var more := WhiteFront(s[1..]);
      w := [s[0]] + more;
      assert s == [s[0]] + s[1..];
    } else {
      w := [];
    }
  }

  lemma StringSpells(t: Text) returns (cs: seq<Char>)
    requires t != [] && t[0] == 0x22 && StringBody(t[1..]).Ok?
    ensures SpelledAll(cs, [0x22]) && t == SpellString(cs) + StringBody(t[1..]).rest && StringBody(t[1..]).value == Mean(cs)
  {
    hide StringBody, SpellAll, SpelledAll, Mean;
    cs := StringSyntax(t[1..]);
    var rest := StringBody(t[1..]).rest;
    AnyContext(cs, rest);
    assert t == [0x22] + t[1..];
    assert SpellString(cs) + rest == [0x22] + (SpellAll(cs) + ([0x22] + rest));
  }

  lemma {:induction false} ValueSyntax(s: Text, depth: nat) returns (d: Doc)
    requires ParseValue(s, depth).Ok? && depth <= 256
    ensures DocSpelled(d) && NestedWithin(d, 256 - depth) && s == SpellDoc(d) + ParseValue(s, depth).rest && MeanDoc(d) == ParseValue(s, depth).value
    decreases |s|, 2
  {
    hide ParseToken, MeanDoc, NestedWithin, SpellTok, TokSpelled;
    var w := WhiteFront(s);
    d := TokenSyntax(SkipWs(s), w, depth);
    assert s == w + (SpellTok(d.tok) + ParseValue(s, depth).rest);
  }

  lemma {:induction false} TokenSyntax(t: Text, w: Text, depth: nat) returns (d: Doc)
    requires ParseToken(t, depth).Ok? && depth <= 256
    ensures d.before == w && TokSpelled(d.tok) && NestedWithin(d, 256 - depth)
    ensures t == SpellTok(d.tok) + ParseToken(t, depth).rest && MeanDoc(d) == ParseToken(t, depth).value
    decreases |t|, 1
  {
    hide TokSpelled, NestedWithin, SpellTok, MeanDoc;
    if t[0] == OPEN_OBJECT {
      d := ObjectSyntax(t, w, depth);
    } else if t[0] == OPEN_ARRAY {
      d := ArraySyntax(t, w, depth);
    } else {
      d := PlainSyntax(t, w, depth);
    }
  }

  lemma PlainSyntax(t: Text, w: Text, depth: nat) returns (d: Doc)
    requires ParseToken(t, depth).Ok? && t != [] && t[0] != OPEN_OBJECT && t[0] != OPEN_ARRAY
    ensures d.before == w && TokSpelled(d.tok) && NestedWithin(d, 256 - depth)
    ensures t == SpellTok(d.tok) + ParseToken(t, depth).rest && MeanDoc(d) == ParseToken(t, depth).value
  {
    hide StringBody, SpelledAll, ParseNumber, SpellNum, MeanNum, SpellAll, Mean;
    if t[0] == QUOTE {
      var cs := StringSpells(t);
      d := Doc(w, TString(cs));
    } else if t[0] == TRUE[0] || t[0] == FALSE[0] || t[0] == NULL[0] {
      d := WordSyntax(t, w, depth);
    } else {
      var n := NumSyntax(t);
      d := Doc(w, TNumber(n));
    }
  }

  lemma WordSyntax(t: Text, w: Text, depth: nat) returns (d: Doc)
    requires ParseToken(t, depth).Ok? && t != [] && (t[0] == TRUE[0] || t[0] == FALSE[0] || t[0] == NULL[0])
    ensures d.before == w && TokSpelled(d.tok) && NestedWithin(d, 256 - depth)
    ensures t == SpellTok(d.tok) + ParseToken(t, depth).rest && MeanDoc(d) == ParseToken(t, depth).value
  {
    d := Doc(w, if t[0] == TRUE[0] then TTrue else if t[0] == FALSE[0] then TFalse else TNull);
    WordReads([]);
    var n := |SpellTok(d.tok)|;
    assert t == t[..n] + t[n..];
  }

  // The text behind an opening bracket: white space and the closing one.
  lemma EmptyBrackets(open: Byte, close: Byte, s: Text, rest: Text) returns (inner: Text)
    requires SkipWs(s) == [close] + rest
    ensures White(inner) && [open] + s == [open] + inner + [] + [close] + rest
  {
    inner := WhiteFront(s);
    assert [open] + inner + [] + [close] + rest == [open] + (inner + ([close] + rest));
  }

  lemma FullBrackets(open: Byte, close: Byte, items: Text, rest: Text)
    ensures [open] + (items + [close] + rest) == [open] + [] + items + [close] + rest
  {
    assert [open] + [] == [open];
    assert [open] + items + [close] + rest == [open] + (items + [close] + rest);
  }

  lemma ArraySyntax(t: Text, w: Text, depth: nat) returns (d: Doc)
    requires ParseToken(t, depth).Ok? && depth <= 256 && t != [] && t[0] == OPEN_ARRAY
    ensures d.before == w && TokSpelled(d.tok) && NestedWithin(d, 256 - depth)
    ensures t == SpellTok(d.tok) + ParseToken(t, depth).rest && MeanDoc(d) == ParseToken(t, depth).value
    decreases |t|, 0
  {
    hide ParseItems, ParseMembers, StringBody, ParseNumber, SpellItems, SpellDoc, DocSpelled, SkipWs, White, MeanItems, MeanEntries;
    var rest := ParseToken(t, depth).rest;
    var u := SkipWs(t[1..]);
    assert t == [0x5B] + t[1..];
    if Starts(u, CLOSE_ARRAY) {
      assert u == [0x5D] + rest;
      var inner := EmptyBrackets(0x5B, 0x5D, t[1..], rest);
      d := Doc(w, TArray(inner, []));
      NoItems();
    } else {
      ItemsSkip(t[1..], depth + 1);
      var items := ItemsSyntax(t[1..], depth + 1);
      d := Doc(w, TArray([], items));
      NoWhite();
      FullBrackets(0x5B, 0x5D, SpellItems(items), rest);
    }
  }

  lemma NoWhite()
    ensures White([])
  {}

  lemma ItemsSyntax(s: Text, depth: nat) returns (items: seq<Item>)
    requires ParseItems(s, depth).Ok? && depth <= 256
    ensures items != [] && forall x :: x in items ==> DocSpelled(x.doc) && White(x.after) && NestedWithin(x.doc, 256 - depth)
    ensures s == SpellItems(items) + [0x5D] + ParseItems(s, depth).rest && MeanItems(items) == ParseItems(s, depth).value
    decreases |s|, 3
  {
    hide ParseValue, ParseItems, SpellDoc, SpellItems, MeanDoc, DocSpelled, NestedWithin, SkipWs, White;
    ItemsUnfold(s, depth);
    var d := ValueSyntax(s, depth);
    var v := ParseValue(s, depth);
    var after := WhiteFront(v.rest);
    var t := SkipWs(v.rest);
    var x := Item(d, after);
    var rest := ParseItems(s, depth).rest;
    if Starts(t, COMMA) {
      var more := ItemsSyntax(t[1..], depth);
      items := [x] + more;
      MoreItems(x, more);
      JoinMore(SpellDoc(d), after, SpellItems(more), 0x5D, rest);
      assert t == [0x2C] + t[1..];
    } else {
      items := [x];
      OneItem(x);
      JoinOne(SpellDoc(d), after, 0x5D, rest);
      assert t == [0x5D] + rest;
    }
  }

  lemma JoinMore(x: Text, after: Text, more: Text, close: Byte, rest: Text)
    ensures x + (after + ([0x2C] + (more + [close] + rest))) == x + after + ([0x2C] + more) + [close] + rest
  {}

  lemma JoinOne(x: Text, after: Text, close: Byte, rest: Text)
    ensures x + (after + ([close] + rest)) == x + after + [close] + rest
  {}

  lemma ItemsUnfold(s: Text, depth: nat)
    requires ParseItems(s, depth).Ok?
    ensures var r := ParseItems(s, depth);
      && ParseValue(s, depth).Ok?
      && var v, t := ParseValue(s, depth).value, SkipWs(ParseValue(s, depth).rest);
      if Starts(t, COMMA) then ParseItems(t[1..], depth).Ok? && r == Ok([v] + ParseItems(t[1..], depth).value, ParseItems(t[1..], depth).rest)
      else Starts(t, CLOSE_ARRAY) && r == Ok([v], t[1..])
    ensures |SkipWs(ParseValue(s, depth).rest)| < |s|
  {
    hide ParseValue;
  }

  lemma MoreItems(x: Item, more: seq<Item>)
    requires more != []
    ensures SpellItems([x] + more) == SpellDoc(x.doc) + x.after + ([0x2C] + SpellItems(more))
    ensures MeanItems([x] + more) == [MeanDoc(x.doc)] + MeanItems(more)
  {
    hide SpellDoc, MeanDoc;
    assert ([x] + more)[1..] == more;
  }

  lemma OneItem(x: Item)
    ensures SpellItems([x]) == SpellDoc(x.doc) + x.after && MeanItems([x]) == [MeanDoc(x.doc)]
  {
    hide SpellDoc, MeanDoc;
    assert [x][1..] == [] && MeanItems([x][1..]) == [];
  }

  lemma ObjectSyntax(t: Text, w: Text, depth: nat) returns (d: Doc)
    requires ParseToken(t, depth).Ok? && depth <= 256 && t != [] && t[0] == OPEN_OBJECT
    ensures d.before == w && TokSpelled(d.tok) && NestedWithin(d, 256 - depth)
    ensures t == SpellTok(d.tok) + ParseToken(t, depth).rest && MeanDoc(d) == ParseToken(t, depth).value
    decreases |t|, 0
  {
    hide ParseItems, ParseMembers, StringBody, ParseNumber, SpellEntries, SpellDoc, EntrySpelled, Collect, SkipWs, White, MeanEntries, MeanItems;
    var rest := ParseToken(t, depth).rest;
    var u := SkipWs(t[1..]);
    assert t == [0x7B] + t[1..];
    if Starts(u, CLOSE_OBJECT) {
      assert u == [0x7D] + rest;
      var inner := EmptyBrackets(0x7B, 0x7D, t[1..], rest);
      d := Doc(w, TObject(inner, []));
      NoItems();
      EmptyMembers();
    } else {
      ItemsSkip(t[1..], depth + 1);
      var ms := EntriesSyntax(t[1..], depth + 1);
      d := Doc(w, TObject([], ms));
      NoWhite();
      FullBrackets(0x7B, 0x7D, SpellEntries(ms), rest);
    }
  }

  lemma EntriesSyntax(s: Text, depth: nat) returns (ms: seq<Entry>)
    requires ParseMembers(s, depth).Ok? && depth <= 256
    ensures ms != [] && forall m :: m in ms ==> EntrySpelled(m) && NestedWithin(m.doc, 256 - depth)
    ensures s == SpellEntries(ms) + [0x7D] + ParseMembers(s, depth).rest && MeanEntries(ms) == ParseMembers(s, depth).value
    decreases |s|, 4
  {
    hide ParseMember, SpellEntry, SpellEntries, MeanDoc, EntrySpelled, NestedWithin, SkipWs, ParseMembers;
    MembersUnfold(s, depth);
    var m, t := EntrySyntax(s, depth);
    var rest := ParseMembers(s, depth).rest;
    if Starts(t, COMMA) {
      var more := EntriesSyntax(t[1..], depth);
      ms := [m] + more;
      MoreEntries(m, more);
      assert t == [0x2C] + t[1..];
      JoinEntry(SpellEntry(m), SpellEntries(more), rest);
    } else {
      ms := [m];
      OneEntry(m);
      assert t == [0x7D] + rest;
      assert SpellEntry(m) + [0x7D] + rest == SpellEntry(m) + ([0x7D] + rest);
    }
  }

  lemma JoinEntry(m: Text, more: Text, rest: Text)
    ensures m + ([0x2C] + (more + [0x7D] + rest)) == m + ([0x2C] + more) + [0x7D] + rest
  {}

  lemma MembersUnfold(s: Text, depth: nat)
    requires ParseMembers(s, depth).Ok?
    ensures var r := ParseMembers(s, depth);
      && ParseMember(s, depth).Ok?
      && var m, t := ParseMember(s, depth).value, SkipWs(ParseMember(s, depth).rest);
      if Starts(t, COMMA) then ParseMembers(t[1..], depth).Ok? && r == Ok([m] + ParseMembers(t[1..], depth).value, ParseMembers(t[1..], depth).rest)
      else Starts(t, CLOSE_OBJECT) && r == Ok([m], t[1..])
  {
    hide ParseMember;
  }

  lemma MoreEntries(m: Entry, more: seq<Entry>)
    requires more != []
    ensures SpellEntries([m] + more) == SpellEntry(m) + ([0x2C] + SpellEntries(more))
    ensures MeanEntries([m] + more) == [Member(Mean(m.key), MeanDoc(m.doc))] + MeanEntries(more)
  {
    hide SpellEntry, MeanDoc, Mean;
    assert ([m] + more)[1..] == more;
  }

  lemma OneEntry(m: Entry)
    ensures SpellEntries([m]) == SpellEntry(m) && MeanEntries([m]) == [Member(Mean(m.key), MeanDoc(m.doc))]
  {
    hide SpellEntry, MeanDoc, Mean;
    assert [m][1..] == [] && MeanEntries([m][1..]) == [];
  }

  // One member, with the white space behind it.
  lemma EntrySyntax(s: Text, depth: nat) returns (m: Entry, t: Text)
    requires ParseMember(s, depth).Ok? && depth <= 256
    ensures EntrySpelled(m) && NestedWithin(m.doc, 256 - depth) && t == SkipWs(ParseMember(s, depth).rest)
    ensures s == SpellEntry(m) + t && |t| < |s| && Member(Mean(m.key), MeanDoc(m.doc)) == ParseMember(s, depth).value
    decreases |s|, 3
  {
    hide ParseValue, SpellDoc, MeanDoc, DocSpelled, NestedWithin, SkipWs, StringBody, SpelledAll, Mean;
    var before := WhiteFront(s);
    var q := SkipWs(s);
    var key := StringSpells(q);
    var r := StringBody(q[1..]).rest;
    var mid := WhiteFront(r);
    var u := SkipWs(r);
    assert u == [0x3A] + u[1..];
    var d := ValueSyntax(u[1..], depth);
    var last := ParseValue(u[1..], depth).rest;
    var after := WhiteFront(last);
    t := SkipWs(last);
    m := Entry.Entry(before, key, mid, d, after);
    assert s == before + (SpellString(key) + (mid + ([0x3A] + (SpellDoc(d) + (after + t)))));
    assert SpellEntry(m) + t == before + (SpellString(key) + (mid + ([0x3A] + (SpellDoc(d) + (after + t)))));
  }

  // ---- the parser is the standard's grammar ----------------------------------------------------------------------

  // A text, and what it means.
  ghost predicate Denotes(s: Text, v: Json) {
    exists d: Doc, last: Text :: SpellsText(d, last, s) && MeanDoc(d) == v
  }

  ghost predicate SpellsText(d: Doc, last: Text, s: Text) { DocSpelled(d) && NestedWithin(d, 256) && White(last) && s == SpellDoc(d) + last }

  lemma {:induction false} OnlyWhite(w: Text)
    ensures SkipWs(w) == [] <==> White(w)
  {
    if w != [] && (w[0] == 0x20 || w[0] == 0x09 || w[0] == 0x0A || w[0] == 0x0D) { OnlyWhite(w[1..]); }
  }

  lemma ParsesExactly(s: Text, v: Json)
    ensures ParseText(s) == Some(v) <==> Denotes(s, v)
  {
    hide ParseValue, SpellDoc, MeanDoc, DocSpelled, NestedWithin, SkipWs;
    if ParseText(s) == Some(v) {
      var d := ValueSyntax(s, 0);
      var last := ParseValue(s, 0).rest;
      OnlyWhite(last);
      assert SpellsText(d, last, s);
    }
    if Denotes(s, v) {
      var d: Doc, last: Text :| SpellsText(d, last, s) && MeanDoc(d) == v;
      DocMeans(d, last, 0);
      OnlyWhite(last);
    }
  }

  // ---- the printed text --------------------------------------------------------------------------------------------

  // Which bytes the printer escapes, and how: the five with a letter, the other controls, and what
  // could end or open markup.
  lemma EscapeTable(c: Byte)
    ensures c == 0x22 ==> EscapeByte(c) == [0x5C, 0x22]
    ensures c == 0x5C ==> EscapeByte(c) == [0x5C, 0x5C]
    ensures c == 0x08 ==> EscapeByte(c) == [0x5C, 0x62]
    ensures c == 0x09 ==> EscapeByte(c) == [0x5C, 0x74]
    ensures c == 0x0A ==> EscapeByte(c) == [0x5C, 0x6E]
    ensures c == 0x0C ==> EscapeByte(c) == [0x5C, 0x66]
    ensures c == 0x0D ==> EscapeByte(c) == [0x5C, 0x72]
    ensures c == 0x3C ==> EscapeByte(c) == [0x5C, 0x75, 0x30, 0x30, 0x33, 0x63]
    ensures c == 0x3E ==> EscapeByte(c) == [0x5C, 0x75, 0x30, 0x30, 0x33, 0x65]
    ensures c == 0x26 ==> EscapeByte(c) == [0x5C, 0x75, 0x30, 0x30, 0x32, 0x36]
    ensures c < 0x10 && c !in {0x08, 0x09, 0x0A, 0x0C, 0x0D} ==> EscapeByte(c) == [0x5C, 0x75, 0x30, 0x30, 0x30, if c < 10 then 0x30 + c else 0x61 + c - 10]
    ensures 0x10 <= c < 0x20 ==> EscapeByte(c) == [0x5C, 0x75, 0x30, 0x30, 0x31, if c < 0x1A then 0x20 + c else 0x47 + c]
    ensures c >= 0x20 && c !in {0x22, 0x26, 0x3C, 0x3E, 0x5C} ==> EscapeByte(c) == [c]
  {}

  predicate Harmless(b: Byte) { b >= 0x20 && b != 0x3C && b != 0x3E && b != 0x26 }

  // The start of U+2028 or U+2029.
  predicate Breaks(s: Text, i: nat) { i + 2 < |s| && s[i] == 0xE2 && s[i + 1] == 0x80 && (s[i + 2] == 0xA8 || s[i + 2] == 0xA9) }

  // A printed string can stand in a script: no control, no markup, no line separator.
  lemma {:induction false} EscapedIsHarmless(s: Text)
    ensures forall i :: 0 <= i < |Escape(s)| ==> Harmless(Escape(s)[i])
    ensures forall i: nat :: !Breaks(Escape(s), i)
  {
    hide EscapeByte;
    if Separator(s) {
      EscapedIsHarmless(s[3..]);
      NoBreakBefore(EscapeSeparator(s[2]), Escape(s[3..]));
    } else if s != [] {
      EscapedIsHarmless(s[1..]);
      EscapeTable(s[0]);
      HarmlessEscape(s[0]);
      if s[0] == 0xE2 {
        NoBreakAfter(s);
      } else {
        NoBreakBefore(EscapeByte(s[0]), Escape(s[1..]));
      }
    }
  }

  lemma HarmlessEscape(c: Byte)
    ensures forall b :: b in EscapeByte(c) ==> Harmless(b) && (c != 0xE2 ==> b != 0xE2)
    ensures c >= 0x80 ==> EscapeByte(c) == [c]
  {}

  lemma NoBreakBefore(x: Text, y: Text)
    requires (forall b :: b in x ==> b != 0xE2) && forall i: nat :: !Breaks(y, i)
    ensures forall i: nat :: !Breaks(x + y, i)
  {
    forall i: nat ensures !Breaks(x + y, i) {
      if i < |x| && i + 2 < |x + y| { assert (x + y)[i] in x; } else if i >= |x| { assert !Breaks(y, i - |x|); }
    }
  }

  // A lone E2 that starts no separator stays in front of what does not complete one.
  lemma NoBreakAfter(s: Text)
    requires s != [] && s[0] == 0xE2 && !Separator(s) && forall i: nat :: !Breaks(Escape(s[1..]), i)
    ensures forall i: nat :: !Breaks([0xE2] + Escape(s[1..]), i)
  {
    var y := Escape(s[1..]);
    forall i: nat ensures !Breaks([0xE2] + y, i) {
      if i > 0 { assert !Breaks(y, i - 1); } else if |y| >= 2 && y[0] == 0x80 { TwoCopied(s[1..]); }
    }
  }

  // Bytes outside ASCII stand for themselves at the front of a printed string.
  lemma TwoCopied(s: Text)
    requires |Escape(s)| >= 2 && Escape(s)[0] == 0x80
    ensures |s| >= 1 && s[0] == 0x80 && (Escape(s)[1] >= 0xA0 ==> |s| >= 2 && (s[1] == Escape(s)[1] || s[1] >= 0xC0))
  {
    EscapeTable(s[0]);
    if |s| > 1 { EscapeTable(s[1]); }
    assert Escape(s) == EscapeByte(s[0]) + Escape(s[1..]);
    assert s[1..] != [] ==> s[1..][0] == s[1];
  }

  // One text in full: {"a":[1,-20,"x"],"b":null}.
  const SAMPLE: seq<Json> := [Int(1), Int(-20), Str([0x78])]

  lemma SampleArray()
    ensures Emit(Array(SAMPLE)) == [0x5B, 0x31, 0x2C, 0x2D, 0x32, 0x30, 0x2C, 0x22, 0x78, 0x22, 0x5D]
  {
    hide Quoted;
    OneLetter(0x78);
    SampleNumbers();
    assert SAMPLE[1..] == [Int(-20), Str([0x78])] && SAMPLE[1..][1..] == [Str([0x78])];
    assert EmitItems(SAMPLE[1..][1..]) == [0x22, 0x78, 0x22];
    hide Decimal;
    assert EmitItems(SAMPLE[1..]) == [0x2D, 0x32, 0x30] + [0x2C] + [0x22, 0x78, 0x22];
    assert EmitItems(SAMPLE) == [0x31] + [0x2C] + EmitItems(SAMPLE[1..]);
  }

  lemma SampleNumbers()
    ensures Decimal(1) == [0x31] && Decimal(-20) == [0x2D, 0x32, 0x30]
  {
    assert Digits(2) == [0x32] && Digits(20) == Digits(2) + [0x30];
  }

  const FIRST: Member := Member([0x61], Array(SAMPLE))
  const SECOND: Member := Member([0x62], Null)

  lemma SampleMembers()
    ensures EmitMember(FIRST) == [0x22, 0x61, 0x22, 0x3A, 0x5B, 0x31, 0x2C, 0x2D, 0x32, 0x30, 0x2C, 0x22, 0x78, 0x22, 0x5D]
    ensures EmitMember(SECOND) == [0x22, 0x62, 0x22, 0x3A, 0x6E, 0x75, 0x6C, 0x6C]
  {
    OneLetter(0x61);
    OneLetter(0x62);
    SampleArray();
    hide Quoted, EmitItems, SAMPLE;
  }

  lemma PrintedSample()
    ensures Emit(Object([FIRST, SECOND])) ==
      [0x7B, 0x22, 0x61, 0x22, 0x3A, 0x5B, 0x31, 0x2C, 0x2D, 0x32, 0x30, 0x2C, 0x22, 0x78, 0x22, 0x5D, 0x2C,
       0x22, 0x62, 0x22, 0x3A, 0x6E, 0x75, 0x6C, 0x6C, 0x7D]
  {
    hide EmitMember, SAMPLE, FIRST, SECOND;
    SampleMembers();
    assert [FIRST, SECOND][1..] == [SECOND];
    assert EmitMembers([FIRST, SECOND]) == EmitMember(FIRST) + [0x2C] + EmitMember(SECOND);
  }

  lemma OneLetter(c: Byte)
    requires 0x61 <= c <= 0x7A
    ensures Quoted([c]) == [0x22, c, 0x22]
  {
    assert [c][1..] == [] && Escape([]) == [];
    EscapeTable(c);
  }
}
