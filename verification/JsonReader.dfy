// The C runtime's JSON parser: a cursor and a nesting depth moved over the text.
module JsonReader {
  import opened Wrappers
  import opened JsonUtf8
  import opened JsonTree
  import opened JsonWriter
  import opened JsonGrammar
  import opened JsonNesting
  import opened JsonRoundTrip
  import opened JsonNormal
  import JsonSyntax

  datatype Outcome<+T> = Done(value: T) | Failed(error: Error)

  // Parsing the rest of a list whose first elements are known.
  function Joined<T>(front: seq<T>, r: Parsed<seq<T>>): Parsed<seq<T>> {
    match r
    case Ok(v, rest) => Ok(front + v, rest)
    case Err(e) => Err(e)
  }

  class KJson {
    const p: Text
    var i: nat
    var depth: nat

    constructor (text: Text)
      ensures p == text && i == 0 && depth == 0
    {
      p := text;
      i, depth := 0, 0;
    }

    // The cursor and the result stand where the grammar says.
    ghost predicate Reached<T>(spec: Parsed<T>, out: Outcome<T>)
      reads this`i
    {
      match spec
      case Ok(v, rest) => out == Done(v) && i <= |p| && p[i..] == rest
      case Err(e) => out == Failed(e)
    }

    lemma Ahead(n: nat)
      requires i + n <= |p|
      ensures p[i..][n..] == p[i + n..]
    {}

    method Ws()
      requires i <= |p|
      modifies this`i
      ensures old(i) <= i <= |p| && p[i..] == SkipWs(old(p[i..]))
    {
      while i < |p|
        invariant old(i) <= i <= |p|
        invariant SkipWs(p[i..]) == SkipWs(old(p[i..]))
      {
        var c := p[i];
        Ahead(1);
        if c == 0x20 || c == 0x09 || c == 0x0A || c == 0x0D { i := i + 1; } else { break; }
      }
    }

    method Hex() returns (out: Outcome<nat>)
      requires i <= |p|
      modifies this`i
      ensures Reached(Hex4(old(p[i..])), out)
      ensures out.Done? ==> i == old(i) + 4
    {
      if i + 4 > |p| { return Failed(BadEscape); }
      ghost var s := p[i..];
      var value := 0;
      for k := 0 to 4
        invariant i == old(i) + k <= |p|
        invariant k > 0 ==> HexValue(s[0]).Some?
        invariant k > 1 ==> HexValue(s[1]).Some?
        invariant k > 2 ==> HexValue(s[2]).Some?
        invariant k > 3 ==> HexValue(s[3]).Some?
        invariant k == 0 ==> value == 0
        invariant k == 1 ==> value == HexValue(s[0]).value
        invariant k == 2 ==> value == HexValue(s[0]).value * 16 + HexValue(s[1]).value
        invariant k == 3 ==> value == HexValue(s[0]).value * 256 + HexValue(s[1]).value * 16 + HexValue(s[2]).value
        invariant k == 4 ==> value == HexValue(s[0]).value * 4096 + HexValue(s[1]).value * 256 + HexValue(s[2]).value * 16 + HexValue(s[3]).value
      {
        hide Hex4;
        var digit := HexValue(p[i]);
        assert p[i] == s[k];
        i := i + 1;
        if digit.None? { BadHex(s, k); return Failed(BadEscape); }
        value := 16 * value + digit.value;
      }
      assert s[4..] == p[i..];
      out := Done(value);
    }

    // A \u escape, after the u.
    method Unicode() returns (out: Outcome<nat>)
      requires i <= |p|
      modifies this`i
      ensures Reached(UnicodeEscape(old(p[i..])), out)
      ensures out.Done? ==> i > old(i)
    {
      hide Hex4;
      out := Hex();
      if out.Failed? { return; }
      var cp := out.value;
      if 0xD800 <= cp <= 0xDBFF {
        if i + 2 <= |p| && p[i] == BACKSLASH && p[i + 1] == 0x75 {
          var second := i;
          assert p[i..][2..] == p[i + 2..];
          i := i + 2;
          out := Hex();
          if out.Failed? { return; }
          var lo := out.value;
          if 0xDC00 <= lo <= 0xDFFF {
            out := Done(0x10000 + (cp - 0xD800) * 1024 + (lo - 0xDC00));
          } else {
            i := second;
            out := Done(REPLACEMENT);
          }
        } else {
          out := Done(REPLACEMENT);
        }
      } else if 0xDC00 <= cp <= 0xDFFF {
        out := Done(REPLACEMENT);
      }
    }

    // After a backslash.
    method Escaped() returns (out: Outcome<Text>)
      requires 0 < i <= |p| && p[i - 1] == BACKSLASH
      modifies this`i
      ensures out.Done? ==> old(i) < i <= |p| && StringBody(old(p[i - 1..])) == Prepend(out.value, StringBody(p[i..]))
      ensures out.Failed? ==> StringBody(old(p[i - 1..])) == Err(out.error)
    {
      hide UnicodeEscape, Utf8, Prepend;
      ghost var s := p[i - 1..];
      if i >= |p| { return Failed(Unterminated); }
      var e := p[i];
      assert s[0] == BACKSLASH && s[1] == e && s[2..] == p[i + 1..];
      i := i + 1;
      if e == 0x75 {
        var cp := Unicode();
        out := if cp.Done? then Done(Utf8(cp.value)) else Failed(cp.error);
      } else {
        var plain := SimpleEscape(e);
        out := if plain.Some? then Done([plain.value]) else Failed(BadEscape);
      }
    }

    // At a byte outside ASCII: the whole sequence, or U+FFFD for the one byte.
    method HighBytes(start: nat) returns (text: Text)
      requires i == start + 1 <= |p| && p[start] >= 0x80
      modifies this`i
      ensures old(i) <= i <= |p| && StringBody(p[start..]) == Prepend(text, StringBody(p[i..]))
    {
      hide Sequence, Utf8, Prepend;
      ghost var s := p[start..];
      assert s[1..] == p[i..];
      var sequence := Sequence(p[start..]);
      if sequence == 0 { return Utf8(REPLACEMENT); }
      text := p[start..start + sequence];
      assert s[..sequence] == text && s[sequence..] == p[start + sequence..];
      i := start + sequence;
    }

    // One character of a string, escaped or not.
    method Character() returns (out: Outcome<Text>)
      requires i < |p| && p[i] != QUOTE
      modifies this`i
      ensures out.Done? ==> old(i) < i <= |p| && StringBody(old(p[i..])) == Prepend(out.value, StringBody(p[i..]))
      ensures out.Failed? ==> StringBody(old(p[i..])) == Err(out.error)
    {
      hide UnicodeEscape, Sequence, Utf8, Prepend;
      var c := p[i];
      Ahead(1);
      i := i + 1;
      if c == BACKSLASH {
        out := Escaped();
      } else if c < 0x20 {
        out := Failed(ControlCharacter);
      } else if c < 0x80 {
        out := Done([c]);
      } else {
        var text := HighBytes(i - 1);
        out := Done(text);
      }
    }

    method String() returns (out: Outcome<Text>)
      requires i < |p| && p[i] == QUOTE
      modifies this`i
      ensures Reached(StringBody(old(p[i + 1..])), out)
      ensures out.Done? ==> i > old(i)
    {
      hide StringBody, Prepend;
      i := i + 1;
      ghost var whole := StringBody(p[i..]);
      var b: Text := [];
      PrependsNothing(whole);
      while i < |p|
        invariant old(i) < i <= |p|
        invariant whole == Prepend(b, StringBody(p[i..]))
        decreases |p| - i
      {
        if p[i] == QUOTE {
          EndQuote(b, p[i..]);
          Ahead(1);
          i := i + 1;
          return Done(b);
        }
        var c := Character();
        if c.Failed? { PrependsError(b, c.error); return Failed(c.error); }
        PrependsMore(b, c.value, StringBody(p[i..]));
        b := b + c.value;
      }
      EndOfText(b, p[i..]);
      out := Failed(Unterminated);
    }

    // Digits from the cursor on.
    method DigitsOn()
      requires i <= |p|
      modifies this`i
      ensures i == old(i) + DigitRun(old(p[i..])) <= |p|
    {
      while i < |p| && IsDigit(p[i])
        invariant old(i) <= i <= |p|
        invariant i + DigitRun(p[i..]) == old(i) + DigitRun(old(p[i..]))
      {
        Ahead(1);
        i := i + 1;
      }
    }

    method IntegerPart() returns (ok: bool)
      requires i <= |p|
      modifies this`i
      ensures var e := IntegerEnd(old(p[i..]));
        if ok then e.Some? && i == old(i) + e.value else e.None?
    {
      ghost var s := p[i..];
      if i < |p| && p[i] == MINUS { i := i + 1; }
      assert p[i..] == s[i - old(i)..];
      if i >= |p| || !IsDigit(p[i]) { return false; }
      if p[i] == 0x30 { i := i + 1; } else { DigitsOn(); }
      ok := true;
    }

    method Fraction(start: nat) returns (ok: bool)
      requires start <= i <= |p|
      modifies this`i
      ensures var e := FractionEnd(p[start..], old(i) - start);
        if ok then e.Some? && i == start + e.value else e.None?
    {
      ghost var s := p[start..];
      if i < |p| && p[i] == 0x2E {
        i := i + 1;
        if i >= |p| || !IsDigit(p[i]) { return false; }
        assert p[i..] == s[i - start..];
        DigitsOn();
      }
      ok := true;
    }

    method Exponent(start: nat) returns (ok: bool)
      requires start <= i <= |p|
      modifies this`i
      ensures var e := ExponentEnd(p[start..], old(i) - start);
        if ok then e.Some? && i == start + e.value else e.None?
    {
      ghost var s := p[start..];
      if i < |p| && (p[i] == 0x65 || p[i] == 0x45) {
        i := i + 1;
        if i < |p| && (p[i] == 0x2B || p[i] == MINUS) { i := i + 1; }
        if i >= |p| || !IsDigit(p[i]) { return false; }
        assert p[i..] == s[i - start..];
        DigitsOn();
      }
      ok := true;
    }

    method NumberNode() returns (out: Outcome<Json>)
      requires i <= |p|
      modifies this`i
      ensures Reached(ParseNumber(old(p[i..])), out)
      ensures out.Done? ==> i > old(i)
    {
      hide IntegerEnd, FractionEnd, ExponentEnd, Integral, IntegerNode;
      var start := i;
      ghost var s := p[start..];
      var ok := IntegerPart();
      if !ok { return Failed(BadNumber); }
      var integer := i;
      ok := Fraction(start);
      if !ok { return Failed(BadNumber); }
      ok := Exponent(start);
      if !ok { return Failed(BadNumber); }
      var text := p[start..i];
      assert s[..i - start] == text && s[i - start..] == p[i..];
      if i == integer {
        IntegerIsIntegral(s);
        out := Done(IntegerNode(text));
      } else {
        out := Done(Float(text));
      }
    }

    method Word(word: Text, v: Json) returns (out: Outcome<Json>)
      requires i <= |p| && word != []
      modifies this`i
      ensures Reached(Literal(old(p[i..]), word, v), out)
      ensures out.Done? ==> i > old(i)
    {
      if i + |word| <= |p| && p[i..i + |word|] == word {
        assert p[i..][..|word|] == word;
        Ahead(|word|);
        i := i + |word|;
        return Done(v);
      }
      out := Failed(BadLiteral);
    }

    method Value() returns (out: Outcome<Json>)
      requires i <= |p|
      modifies this
      ensures Reached(ParseValue(old(p[i..]), old(depth)), out)
      ensures out.Done? ==> depth == old(depth) && i > old(i)
      decreases |p| - i, 3
    {
      hide StringBody, ParseNumber, Literal, ParseItems, ParseMembers, Collect, SkipWs;
      Ws();
      if i >= |p| { return Failed(UnexpectedEnd); }
      var c := p[i];
      assert p[i..][0] == c;
      Ahead(1);
      if c == OPEN_OBJECT {
        out := ObjectNode();
      } else if c == OPEN_ARRAY {
        out := ArrayNode();
      } else if c == QUOTE {
        var text := String();
        out := if text.Done? then Done(Str(text.value)) else Failed(text.error);
      } else if c == TRUE[0] {
        out := Word(TRUE, Bool(true));
      } else if c == FALSE[0] {
        out := Word(FALSE, Bool(false));
      } else if c == NULL[0] {
        out := Word(NULL, Null);
      } else {
        out := NumberNode();
      }
    }

    method ArrayNode() returns (out: Outcome<Json>)
      requires i < |p| && p[i] == OPEN_ARRAY
      modifies this
      ensures Reached(ParseToken(old(p[i..]), old(depth)), out)
      ensures out.Done? ==> depth == old(depth) && i > old(i)
      decreases |p| - i, 2
    {
      hide ParseItems, ParseMembers, SkipWs, StringBody, ParseNumber, Literal, Collect;
      if depth >= MAX_DEPTH { return Failed(TooDeep); }
      Ahead(1);
      depth := depth + 1;
      i := i + 1;
      Ws();
      if i < |p| && p[i] == CLOSE_ARRAY {
        Ahead(1);
        i := i + 1;
        depth := depth - 1;
        return Done(Array([]));
      }
      var items := Items();
      if items.Failed? { return Failed(items.error); }
      depth := depth - 1;
      out := Done(Array(items.value));
    }

    method Items() returns (out: Outcome<seq<Json>>)
      requires i <= |p|
      modifies this
      ensures Reached(ParseItems(old(p[i..]), old(depth)), out)
      ensures out.Done? ==> depth == old(depth) && i > old(i)
      decreases |p| - i, 5
    {
      hide ParseItems, Joined;
      ghost var whole := ParseItems(p[i..], depth);
      var items: seq<Json> := [];
      JoinsNothing(whole);
      var more := true;
      while more
        invariant old(i) <= i <= |p| && depth == old(depth)
        invariant more ==> whole == Joined(items, ParseItems(p[i..], depth))
        invariant !more ==> whole == Ok(items, p[i..]) && i > old(i)
        decreases more, |p| - i
      {
        var v;
        v, more := OneItem();
        if v.Failed? { JoinsError(items, v.error); return Failed(v.error); }
        JoinsOne(items, v.value, p[i..]);
        JoinsMore(items, v.value, ParseItems(p[i..], depth));
        items := items + [v.value];
      }
      out := Done(items);
    }

    // An element with the comma or bracket behind it.
    method OneItem() returns (out: Outcome<Json>, more: bool)
      requires i <= |p|
      modifies this
      ensures var r := ParseItems(old(p[i..]), old(depth));
        match out
        case Failed(e) => r == Err(e)
        case Done(v) => old(i) < i <= |p| && depth == old(depth) && r == (if more then Joined([v], ParseItems(p[i..], depth)) else Ok([v], p[i..]))
      decreases |p| - i, 4
    {
      hide ParseItems, ParseValue, SkipWs;
      UnfoldItems(p[i..], depth);
      out := Value();
      if out.Failed? { return out, false; }
      Ws();
      if i < |p| { Ahead(1); }
      if i < |p| && p[i] == COMMA { i := i + 1; return out, true; }
      if i < |p| && p[i] == CLOSE_ARRAY { i := i + 1; return out, false; }
      return Failed(BadArray), false;
    }

    method ObjectNode() returns (out: Outcome<Json>)
      requires i < |p| && p[i] == OPEN_OBJECT
      modifies this
      ensures Reached(ParseToken(old(p[i..]), old(depth)), out)
      ensures out.Done? ==> depth == old(depth) && i > old(i)
      decreases |p| - i, 2
    {
      hide ParseItems, ParseMembers, SkipWs, StringBody, ParseNumber, Literal, Numbered;
      if depth >= MAX_DEPTH { return Failed(TooDeep); }
      Ahead(1);
      depth := depth + 1;
      i := i + 1;
      Ws();
      if i < |p| && p[i] == CLOSE_OBJECT {
        Ahead(1);
        i := i + 1;
        depth := depth - 1;
        return Done(Object([]));
      }
      ghost var ms;
      var entries;
      entries, ms := Entries();
      if entries.Failed? { return Failed(entries.error); }
      depth := depth - 1;
      var members := CollectEntries(entries.value, ms);
      out := Done(Object(members));
    }

    // The members of an object, numbered as they come.
    method Entries() returns (out: Outcome<seq<Entry>>, ghost ms: seq<Member>)
      requires i <= |p|
      modifies this
      ensures Reached(ParseMembers(old(p[i..]), old(depth)), if out.Done? then Done(ms) else Failed(out.error))
      ensures out.Done? ==> depth == old(depth) && i > old(i) && Numbered(out.value, ms)
      decreases |p| - i, 5
    {
      hide ParseMembers, Joined, Numbered;
      ghost var whole := ParseMembers(p[i..], depth);
      var entries: seq<Entry> := [];
      ms := [];
      JoinsNothing(whole);
      NumberedNothing();
      var more := true;
      while more
        invariant old(i) <= i <= |p| && depth == old(depth)
        invariant more ==> whole == Joined(ms, ParseMembers(p[i..], depth))
        invariant !more ==> whole == Ok(ms, p[i..]) && i > old(i)
        invariant Numbered(entries, ms)
        decreases more, |p| - i
      {
        var m;
        m, more := OneMore();
        if m.Failed? { JoinsError(ms, m.error); return Failed(m.error), ms; }
        JoinsOne(ms, m.value, p[i..]);
        JoinsMore(ms, m.value, ParseMembers(p[i..], depth));
        NumberedMore(entries, ms, m.value);
        entries := entries + [Entry(m.value, |entries|)];
        ms := ms + [m.value];
      }
      out := Done(entries);
    }

    // A member with the comma or brace behind it.
    method OneMore() returns (out: Outcome<Member>, more: bool)
      requires i <= |p|
      modifies this
      ensures var r := ParseMembers(old(p[i..]), old(depth));
        match out
        case Failed(e) => r == Err(e)
        case Done(m) => old(i) < i <= |p| && depth == old(depth) && r == (if more then Joined([m], ParseMembers(p[i..], depth)) else Ok([m], p[i..]))
      decreases |p| - i, 4
    {
      hide ParseMembers, ParseMember, SkipWs;
      UnfoldMembers(p[i..], depth);
      out := MemberNode();
      if out.Failed? { return out, false; }
      Ws();
      if i < |p| { Ahead(1); }
      if i < |p| && p[i] == COMMA { i := i + 1; return out, true; }
      if i < |p| && p[i] == CLOSE_OBJECT { i := i + 1; return out, false; }
      return Failed(BadObject), false;
    }

    method MemberNode() returns (out: Outcome<Member>)
      requires i <= |p|
      modifies this
      ensures Reached(ParseMember(old(p[i..]), old(depth)), out)
      ensures out.Done? ==> depth == old(depth) && i > old(i)
      decreases |p| - i, 3
    {
      hide StringBody, ParseValue, SkipWs;
      Ws();
      if i >= |p| || p[i] != QUOTE { return Failed(BadKey); }
      Ahead(1);
      var key := String();
      if key.Failed? { return Failed(key.error); }
      Ws();
      if i >= |p| || p[i] != COLON { return Failed(BadObject); }
      Ahead(1);
      i := i + 1;
      var v := Value();
      out := if v.Done? then Done(Member(key.value, v.value)) else Failed(v.error);
    }
  }

  datatype Answer = Accepted(node: Json, canonical: Text) | TooLong | TooNested | Invalid

  // Parsing a text: the tree and its canonical text. The check in front only changes which message
  // a rejected text gets.
  method JsonParse(text: Text, maxLength: int) returns (answer: Answer)
    ensures answer == TooLong <==> maxLength < 0 || |text| > maxLength
    ensures answer == TooNested <==> answer != TooLong && Run(text, Outside(0)).None?
    ensures answer.Accepted? <==> 0 <= maxLength && |text| <= maxLength && ParseText(text).Some?
    ensures answer.Accepted? ==> Some(answer.node) == ParseText(text) && JsonSyntax.Denotes(text, answer.node)
    ensures answer != TooLong && !answer.Accepted? ==> forall v :: !JsonSyntax.Denotes(text, v)
    ensures answer.Accepted? && NoFloats(answer.node) ==>
      answer.canonical == Emit(answer.node) && ParseText(answer.canonical) == Some(answer.node)
  {
    hide ParseValue, SkipWs, Emit, StrictText, Canonical, Writable, Normal, NoFloats, DistinctKeys, JsonSyntax.Denotes;
    AllDenoted(text);
    if maxLength < 0 || |text| > maxLength { return TooLong; }
    PreFilterAgrees(text);
    var exceeds := ExceedsNestingDepth(text);
    if exceeds { return TooNested; }
    var j := new KJson(text);
    assert j.p[j.i..] == text;
    var v := j.Value();
    if v.Failed? { return Invalid; }
    j.Ws();
    if j.i != |text| { return Invalid; }
    assert j.p[j.i..] == [];
    var canonical := WriteParsed(text, v.value);
    answer := Accepted(v.value, canonical);
  }

  // The layout of floats is not modelled; a tree that has some gets no text here.
  method WriteParsed(ghost text: Text, v: Json) returns (canonical: Text)
    requires ParseText(text) == Some(v)
    ensures NoFloats(v) ==> canonical == Emit(v) && ParseText(canonical) == Some(v)
  {
    hide ParseText, Emit, NoFloats;
    if !NoFloats(v) { return []; }
    CanonicalTextStands(text);
    CanonicalIsDistinct(v);
    var b := new KBuf();
    b.JsonWrite(v);
    assert [] + Emit(v) == Emit(v);
    canonical := b.buf;
  }

  lemma AllDenoted(text: Text)
    ensures forall v :: ParseText(text) == Some(v) <==> JsonSyntax.Denotes(text, v)
  {
    hide ParseText, JsonSyntax.Denotes;
    forall v ensures ParseText(text) == Some(v) <==> JsonSyntax.Denotes(text, v) { JsonSyntax.ParsesExactly(text, v); }
  }

  lemma BadHex(s: Text, k: nat)
    requires k < 4 <= |s| && HexValue(s[k]).None?
    ensures Hex4(s) == Err(BadEscape)
  {}

  lemma EndQuote(b: Text, s: Text)
    requires Starts(s, QUOTE)
    ensures Prepend(b, StringBody(s)) == Ok(b, s[1..])
  {
    assert b + [] == b;
  }

  lemma EndOfText(b: Text, s: Text)
    requires s == []
    ensures Prepend(b, StringBody(s)) == Err(Unterminated)
  {}

  lemma PrependsError(b: Text, e: Error)
    ensures Prepend(b, Err(e)) == Err(e)
  {}

  lemma PrependsMore(b: Text, c: Text, r: Parsed<Text>)
    ensures Prepend(b, Prepend(c, r)) == Prepend(b + c, r)
  {
    if r.Ok? { assert b + (c + r.value) == b + c + r.value; }
  }

  lemma NumberedMore(es: seq<Entry>, ms: seq<Member>, m: Member)
    requires Numbered(es, ms)
    ensures Numbered(es + [Entry(m, |es|)], ms + [m])
  {}

  lemma JoinsOne<T>(front: seq<T>, v: T, rest: Text)
    ensures Joined(front, Ok([v], rest)) == Ok(front + [v], rest)
  {}

  lemma JoinsMore<T>(front: seq<T>, v: T, r: Parsed<seq<T>>)
    ensures Joined(front, Joined([v], r)) == Joined(front + [v], r)
  {
    if r.Ok? { assert front + ([v] + r.value) == front + [v] + r.value; }
  }

  lemma JoinsError<T>(front: seq<T>, e: Error)
    ensures Joined(front, Err(e)) == Err(e)
  {}

  lemma NumberedNothing()
    ensures Numbered([], [])
  {}

  lemma JoinsNothing<T>(r: Parsed<seq<T>>)
    ensures Joined([], r) == r
  {
    if r.Ok? { assert [] + r.value == r.value; }
  }

  lemma PrependsNothing(r: Parsed<Text>)
    ensures Prepend([], r) == r
  {
    if r.Ok? { assert [] + r.value == r.value; }
  }

  lemma UnfoldItems(s: Text, depth: nat)
    ensures ParseItems(s, depth) == match ParseValue(s, depth)
      case Err(e) => Err(e)
      case Ok(v, rest) =>
        var t := SkipWs(rest);
        if Starts(t, COMMA) then (match ParseItems(t[1..], depth) case Ok(items, last) => Ok([v] + items, last) case Err(e) => Err(e))
        else if Starts(t, CLOSE_ARRAY) then Ok([v], t[1..])
        else Err(BadArray)
  {}

  lemma UnfoldMembers(s: Text, depth: nat)
    ensures ParseMembers(s, depth) == match ParseMember(s, depth)
      case Err(e) => Err(e)
      case Ok(m, rest) =>
        var t := SkipWs(rest);
        if Starts(t, COMMA) then (match ParseMembers(t[1..], depth) case Ok(ms, last) => Ok([m] + ms, last) case Err(e) => Err(e))
        else if Starts(t, CLOSE_OBJECT) then Ok([m], t[1..])
        else Err(BadObject)
  {}
}
