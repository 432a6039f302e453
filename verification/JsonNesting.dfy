// The linear nesting check in front of the JSON parser, and its agreement with the recursion.
module JsonNesting {
  import opened Wrappers
  import opened JsonUtf8
  import opened JsonTree
  import opened JsonWriter
  import opened JsonGrammar

  datatype Scan = Scan(depth: nat, inString: bool, escaped: bool)

  function Outside(depth: nat): Scan { Scan(depth, false, false) }

  function Inside(depth: nat): Scan { Scan(depth, true, false) }

  // One byte of the check; none when the limit is passed.
  function Step(c: Byte, st: Scan): Option<Scan> {
    if st.inString then
      if st.escaped then Some(st.(escaped := false))
      else if c == BACKSLASH then Some(st.(escaped := true))
      else if c == QUOTE then Some(st.(inString := false))
      else Some(st)
    else if c == QUOTE then Some(st.(inString := true))
    else if c == OPEN_ARRAY || c == OPEN_OBJECT then
      if st.depth + 1 > MAX_DEPTH then None else Some(st.(depth := st.depth + 1))
    else if (c == CLOSE_ARRAY || c == CLOSE_OBJECT) && st.depth > 0 then Some(st.(depth := st.depth - 1))
    else Some(st)
  }

  function Run(s: Text, st: Scan): Option<Scan> {
    if s == [] then Some(st)
    else
      match Step(s[0], st)
      case None => None
      case Some(next) => Run(s[1..], next)
  }

  method ExceedsNestingDepth(text: Text) returns (exceeds: bool)
    ensures exceeds <==> Run(text, Outside(0)).None?
  {
    var depth: nat := 0;
    var inString, escaped := false, false;
    for i := 0 to |text|
      invariant Run(text, Outside(0)) == Run(text[i..], Scan(depth, inString, escaped))
    {
      var c := text[i];
      assert text[i..][1..] == text[i + 1..];
      if inString {
        if escaped { escaped := false; continue; }
        if c == BACKSLASH { escaped := true; } else if c == QUOTE { inString := false; }
        continue;
      }
      if c == QUOTE {
        inString := true;
      } else if c == OPEN_ARRAY || c == OPEN_OBJECT {
        depth := depth + 1;
        if depth > MAX_DEPTH { return true; }
      } else if (c == CLOSE_ARRAY || c == CLOSE_OBJECT) && depth > 0 {
        depth := depth - 1;
      }
    }
    exceeds := false;
  }

  // ---- tokens ---------------------------------------------------------------------------------------

  // Bytes that leave the state alone.
  predicate Quiet(c: Byte, st: Scan) { Step(c, st) == Some(st) }

  lemma {:induction false} QuietRun(s: Text, n: nat, st: Scan)
    requires n <= |s| && forall i :: 0 <= i < n ==> Quiet(s[i], st)
    ensures Run(s, st) == Run(s[n..], st)
  {
    if n > 0 {
      QuietRun(s[1..], n - 1, st);
      assert s[1..][n - 1..] == s[n..];
    }
  }

  lemma {:induction false} WhiteRun(s: Text, depth: nat)
    ensures Run(s, Outside(depth)) == Run(SkipWs(s), Outside(depth))
  {
    hide Run;
    if s != [] && SkipWs(s) == SkipWs(s[1..]) && SkipWs(s) != s {
      WhiteByte(s);
      OneStep(s, Outside(depth), Outside(depth));
      WhiteRun(s[1..], depth);
    }
  }

  lemma WhiteByte(s: Text)
    requires s != [] && SkipWs(s) != s
    ensures s[0] == 0x20 || s[0] == 0x09 || s[0] == 0x0A || s[0] == 0x0D
  {}

  lemma HexRun(s: Text, depth: nat)
    requires Hex4(s).Ok?
    ensures Run(s, Inside(depth)) == Run(s[4..], Inside(depth))
  {
    QuietRun(s, 4, Inside(depth));
  }

  lemma EscapeRun(s: Text, depth: nat)
    requires |s| >= 2 && s[0] == BACKSLASH
    ensures Run(s, Inside(depth)) == Run(s[2..], Inside(depth))
  {
    assert s[1..][1..] == s[2..];
  }

  lemma UnicodeRun(s: Text, depth: nat)
    requires UnicodeEscape(s).Ok?
    ensures Run(s, Inside(depth)) == Run(UnicodeEscape(s).rest, Inside(depth))
  {
    hide Run, Hex4;
    HexRun(s, depth);
    var rest := s[4..];
    if UnicodeEscape(s).rest != rest {
      EscapeRun(rest, depth);
      HexRun(rest[2..], depth);
    }
  }

  lemma SequenceQuiet(s: Text, depth: nat)
    requires s != [] && s[0] >= 0x80
    ensures forall i :: 0 <= i < Sequence(s) ==> Quiet(s[i], Inside(depth))
  {
  }

  // Through a string, escapes and surrogate pairs included, the check leaves it where the parser does.
  lemma {:induction false} StringRun(s: Text, depth: nat)
    requires StringBody(s).Ok?
    ensures Run(s, Inside(depth)) == Run(StringBody(s).rest, Outside(depth))
    decreases |s|
  {
    hide Run, UnicodeEscape, Sequence, Utf8, Hex4;
    if s[0] == QUOTE {
      OneStep(s, Inside(depth), Outside(depth));
    } else if s[0] == BACKSLASH {
      EscapeRun(s, depth);
      if s[1] == 0x75 {
        UnicodeRun(s[2..], depth);
        StringRun(UnicodeEscape(s[2..]).rest, depth);
      } else {
        StringRun(s[2..], depth);
      }
    } else if s[0] < 0x80 || Sequence(s) == 0 {
      OneStep(s, Inside(depth), Inside(depth));
      StringRun(s[1..], depth);
    } else {
      SequenceQuiet(s, depth);
      QuietRun(s, Sequence(s), Inside(depth));
      StringRun(s[Sequence(s)..], depth);
    }
  }

  lemma OneStep(s: Text, a: Scan, b: Scan)
    requires s != [] && Step(s[0], a) == Some(b)
    ensures Run(s, a) == Run(s[1..], b)
  {}

  predicate NumberByte(c: Byte) { IsDigit(c) || c == MINUS || c == 0x2B || c == 0x2E || c == 0x65 || c == 0x45 }

  predicate AllNumber(s: Text, a: nat, b: nat)
    requires b <= |s|
  {
    forall i :: a <= i < b ==> NumberByte(s[i])
  }

  lemma RunIsNumber(s: Text, a: nat)
    requires a <= |s|
    ensures AllNumber(s, a, a + DigitRun(s[a..]))
  {
    DigitRunDigits(s[a..]);
    forall i | a <= i < a + DigitRun(s[a..]) ensures NumberByte(s[i]) {
      assert s[a..][..DigitRun(s[a..])][i - a] == s[i];
    }
  }

  lemma IntegerBytes(s: Text)
    requires IntegerEnd(s).Some?
    ensures AllNumber(s, 0, IntegerEnd(s).value)
  {
    RunIsNumber(s, if Starts(s, MINUS) then 1 else 0);
  }

  lemma FractionBytes(s: Text, b: nat)
    requires b <= |s| && FractionEnd(s, b).Some?
    ensures AllNumber(s, b, FractionEnd(s, b).value)
  {
    if b < |s| { RunIsNumber(s, b + 1); }
  }

  lemma ExponentBytes(s: Text, c: nat)
    requires c <= |s| && ExponentEnd(s, c).Some?
    ensures AllNumber(s, c, ExponentEnd(s, c).value)
  {
    if c < |s| {
      RunIsNumber(s, c + 1);
      if c + 2 <= |s| { RunIsNumber(s, c + 2); }
    }
  }

  lemma NumberRun(s: Text, depth: nat)
    requires ParseNumber(s).Ok?
    ensures Run(s, Outside(depth)) == Run(ParseNumber(s).rest, Outside(depth))
  {
    hide Run, IntegerEnd, FractionEnd, ExponentEnd;
    var b := IntegerEnd(s).value;
    var c := FractionEnd(s, b).value;
    var e := ExponentEnd(s, c).value;
    IntegerBytes(s);
    FractionBytes(s, b);
    ExponentBytes(s, c);
    QuietRun(s, e, Outside(depth));
  }

  lemma OpenRun(t: Text, depth: nat)
    requires (Starts(t, OPEN_ARRAY) || Starts(t, OPEN_OBJECT)) && depth < MAX_DEPTH
    ensures Run(t, Outside(depth)) == Run(t[1..], Outside(depth + 1))
  {}

  lemma TooDeepRun(t: Text, depth: nat)
    requires (Starts(t, OPEN_ARRAY) || Starts(t, OPEN_OBJECT)) && depth >= MAX_DEPTH
    ensures Run(t, Outside(depth)).None?
  {}

  lemma CloseRun(t: Text, depth: nat)
    requires (Starts(t, CLOSE_ARRAY) || Starts(t, CLOSE_OBJECT)) && depth > 0
    ensures Run(t, Outside(depth)) == Run(t[1..], Outside(depth - 1))
  {}

  lemma SeparatorRun(t: Text, depth: nat)
    requires Starts(t, COMMA) || Starts(t, COLON)
    ensures Run(t, Outside(depth)) == Run(t[1..], Outside(depth))
  {}

  lemma QuoteRun(t: Text, depth: nat)
    requires Starts(t, QUOTE)
    ensures Run(t, Outside(depth)) == Run(t[1..], Inside(depth))
  {}

  // ---- the agreement --------------------------------------------------------------------------------

  // Started at the parser's depth, the check is at the same depth wherever the parser gets to, and
  // passes its limit wherever the parser refuses to go deeper.
  ghost predicate Agrees<T>(s: Text, depth: nat, r: Parsed<T>, after: nat) {
    && (r.Ok? ==> Run(s, Outside(depth)) == Run(r.rest, Outside(after)))
    && (r == Err(TooDeep) ==> Run(s, Outside(depth)).None?)
  }

  lemma {:induction false} ValueAgrees(s: Text, depth: nat)
    requires depth <= MAX_DEPTH
    ensures Agrees(s, depth, ParseValue(s, depth), depth)
    decreases |s|, 1
  {
    hide Run, Step, Outside, Inside, ParseToken;
    WhiteRun(s, depth);
    TokenAgrees(SkipWs(s), depth);
  }

  lemma {:induction false} TokenAgrees(t: Text, depth: nat)
    requires depth <= MAX_DEPTH
    ensures Agrees(t, depth, ParseToken(t, depth), depth)
    decreases |t|, 0
  {
    hide Run, Step, Outside, Inside, StringBody, ParseNumber, ParseItems, ParseMembers, Collect;
    if t == [] {
    } else if t[0] == OPEN_OBJECT || t[0] == OPEN_ARRAY {
      if depth >= MAX_DEPTH {
        TooDeepRun(t, depth);
      } else {
        OpenRun(t, depth);
        var u := SkipWs(t[1..]);
        WhiteRun(t[1..], depth + 1);
        if Starts(u, if t[0] == OPEN_ARRAY then CLOSE_ARRAY else CLOSE_OBJECT) {
          CloseRun(u, depth + 1);
        } else if t[0] == OPEN_ARRAY {
          ItemsAgree(u, depth + 1);
        } else {
          MembersAgree(u, depth + 1);
        }
      }
    } else if t[0] == QUOTE {
      QuoteRun(t, depth);
      NoDepthInStrings(t[1..]);
      if StringBody(t[1..]).Ok? { StringRun(t[1..], depth); }
    } else {
      WordsAgree(t, depth);
    }
  }

  lemma WordsAgree(t: Text, depth: nat)
    requires t != [] && t[0] != OPEN_OBJECT && t[0] != OPEN_ARRAY && t[0] != QUOTE
    ensures Agrees(t, depth, ParseToken(t, depth), depth)
  {
    hide Run, ParseNumber;
    if TRUE <= t || NULL <= t {
      QuietRun(t, 4, Outside(depth));
    } else if FALSE <= t {
      QuietRun(t, 5, Outside(depth));
    } else if t[0] != TRUE[0] && t[0] != FALSE[0] && t[0] != NULL[0] {
      NoDepthInNumbers(t);
      if ParseNumber(t).Ok? { NumberRun(t, depth); }
    }
  }

  lemma NoDepthInNumbers(t: Text)
    ensures ParseNumber(t) != Err(TooDeep)
  {}

  lemma {:induction false} NoDepthInStrings(s: Text)
    ensures StringBody(s) != Err(TooDeep)
    decreases |s|
  {
    if s == [] || s[0] == QUOTE {
    } else if s[0] == BACKSLASH {
      if |s| >= 2 {
        if s[1] == 0x75 {
          if UnicodeEscape(s[2..]).Ok? { NoDepthInStrings(UnicodeEscape(s[2..]).rest); }
        } else {
          NoDepthInStrings(s[2..]);
        }
      }
    } else {
      NoDepthInStrings(s[1..]);
      NoDepthInStrings(s[if Sequence(s) > 0 then Sequence(s) else 1..]);
    }
  }

  lemma {:induction false} ItemsAgree(s: Text, depth: nat)
    requires 0 < depth <= MAX_DEPTH
    ensures Agrees(s, depth, ParseItems(s, depth), depth - 1)
    decreases |s|, 2
  {
    hide Run, Step, Outside, Inside, ParseValue;
    ValueAgrees(s, depth);
    match ParseValue(s, depth)
    case Err(_) =>
    case Ok(v, rest) =>
      var t := SkipWs(rest);
      WhiteRun(rest, depth);
      if Starts(t, COMMA) {
        SeparatorRun(t, depth);
        ItemsAgree(t[1..], depth);
      } else if Starts(t, CLOSE_ARRAY) {
        CloseRun(t, depth);
      }
  }

  lemma {:induction false} MemberAgrees(s: Text, depth: nat)
    requires depth <= MAX_DEPTH
    ensures Agrees(s, depth, ParseMember(s, depth), depth)
    decreases |s|, 2
  {
    hide Run, Step, Outside, Inside, ParseValue, StringBody;
    var t := SkipWs(s);
    WhiteRun(s, depth);
    if Starts(t, QUOTE) {
      QuoteRun(t, depth);
      NoDepthInStrings(t[1..]);
      match StringBody(t[1..])
      case Err(_) =>
      case Ok(key, rest) =>
        StringRun(t[1..], depth);
        var u := SkipWs(rest);
        WhiteRun(rest, depth);
        if Starts(u, COLON) {
          SeparatorRun(u, depth);
          ValueAgrees(u[1..], depth);
        }
    }
  }

  lemma {:induction false} MembersAgree(s: Text, depth: nat)
    requires 0 < depth <= MAX_DEPTH
    ensures Agrees(s, depth, ParseMembers(s, depth), depth - 1)
    decreases |s|, 3
  {
    hide Run, Step, Outside, Inside, ParseMember;
    MemberAgrees(s, depth);
    match ParseMember(s, depth)
    case Err(_) =>
    case Ok(m, rest) =>
      var t := SkipWs(rest);
      WhiteRun(rest, depth);
      if Starts(t, COMMA) {
        SeparatorRun(t, depth);
        MembersAgree(t[1..], depth);
      } else if Starts(t, CLOSE_OBJECT) {
        CloseRun(t, depth);
      }
  }

  // The check in front never changes the outcome: a text it accepts never meets the parser's own
  // depth failure, and a text it rejects is one the parser would reject.
  lemma PreFilterAgrees(t: Text)
    ensures Run(t, Outside(0)).Some? ==> ParseValue(t, 0) != Err(TooDeep)
    ensures Run(t, Outside(0)).None? ==> ParseText(t).None?
  {
    hide ParseValue, Run;
    ValueAgrees(t, 0);
    match ParseValue(t, 0)
    case Err(_) =>
    case Ok(v, rest) =>
      WhiteRun(rest, 0);
      AtEnd();
  }

  lemma AtEnd()
    ensures Run([], Outside(0)).Some?
  {}
}
