// Parsing what the printer wrote.
module JsonRoundTrip {
  import opened Wrappers
  import opened JsonUtf8
  import opened JsonTree
  import opened JsonWriter
  import opened JsonGrammar

  // ---- strings --------------------------------------------------------------------------------------

  // A string's escape, its closing quote and what follows.
  function Closed(s: Text, post: Text): Text { Escape(s) + [QUOTE] + post }

  // Continuation bytes pass through the escape and nothing else turns into one.
  lemma TailPasses(s: Text, post: Text)
    ensures Closed(s, post) != []
    ensures s != [] && Tail(s[0]) ==> Closed(s, post) == [s[0]] + Closed(s[1..], post)
    ensures s == [] || !Tail(s[0]) ==> !Tail(Closed(s, post)[0])
  {
  }

  lemma SequencePasses(s: Text, post: Text)
    requires s != [] && s[0] >= 0x80
    ensures Sequence([s[0]] + Closed(s[1..], post)) == Sequence(s)
  {
    hide Escape, Closed;
    var c := Closed(s[1..], post);
    TailPasses(s[1..], post);
    if |s| > 1 && Tail(s[1]) {
      assert s[1..][1..] == s[2..];
      TailPasses(s[2..], post);
      if |s| > 2 && Tail(s[2]) {
        assert s[2..][1..] == s[3..];
        TailPasses(s[3..], post);
        assert c == [s[1], s[2]] + Closed(s[3..], post);
        if |s| > 3 && Tail(s[3]) {
          assert s[3..][1..] == s[4..];
          assert c == [s[1], s[2], s[3]] + Closed(s[4..], post);
        }
      }
    }
  }

  // A whole sequence passes through the escape, unless it is a separator.
  lemma SequenceCopied(s: Text, post: Text)
    requires s != [] && s[0] >= 0x80 && !Separator(s) && Sequence(s) > 0
    ensures Closed(s, post) == s[..Sequence(s)] + Closed(s[Sequence(s)..], post)
  {
    hide Escape, Closed;
    ByteCloses(s, post);
    var n := Sequence(s);
    assert s[1..][1..] == s[2..];
    TailPasses(s[1..], post);
    if n > 2 {
      assert s[2..][1..] == s[3..];
      TailPasses(s[2..], post);
      if n > 3 {
        assert s[3..][1..] == s[4..];
        TailPasses(s[3..], post);
      }
    }
  }

  lemma ByteCloses(s: Text, post: Text)
    requires s != [] && !Separator(s)
    ensures Closed(s, post) == EscapeByte(s[0]) + Closed(s[1..], post)
  {
  }

  lemma SeparatorCloses(s: Text, post: Text)
    requires Separator(s)
    ensures Closed(s, post) == EscapeSeparator(s[2]) + Closed(s[3..], post)
  {
  }

  // Hexadecimal digits read back.
  lemma HexReads(d: nat)
    requires d < 16
    ensures HexValue(HexDigit(d)) == Some(d)
  {
  }

  lemma ByteReads(c: Byte, tail: Text)
    requires c < 0x80
    ensures StringBody(EscapeByte(c) + tail) == Prepend([c], StringBody(tail))
  {
    hide StringBody, Prepend;
    if |EscapeByte(c)| == 6 {
      EscapedByteReads(c, tail);
    } else if |EscapeByte(c)| == 2 {
      ShortEscapeReads(c, tail);
    } else {
      PlainByteReads(c, tail);
    }
  }

  lemma EscapedByteReads(c: Byte, tail: Text)
    requires c < 0x80 && EscapeByte(c) == [BACKSLASH, 0x75, 0x30, 0x30, HexDigit(c / 16), HexDigit(c % 16)]
    ensures StringBody(EscapeByte(c) + tail) == Prepend([c], StringBody(tail))
  {
    hide EscapeByte, HexDigit;
    var s := EscapeByte(c) + tail;
    HexReads(c / 16);
    HexReads(c % 16);
    assert s[2..][4..] == tail;
    assert HexValue(s[2..][0]) == Some(0);
    assert Hex4(s[2..]) == Ok(c, tail);
    assert UnicodeEscape(s[2..]) == Ok(c, tail) && Utf8(c) == [c];
  }

  lemma ShortEscapeReads(c: Byte, tail: Text)
    requires c < 0x80 && |EscapeByte(c)| == 2
    ensures StringBody(EscapeByte(c) + tail) == Prepend([c], StringBody(tail))
  {
    hide HexDigit, UnicodeEscape, Sequence, Utf8;
    var s := EscapeByte(c) + tail;
    assert s[2..] == tail && s[0] == BACKSLASH && s[1] == EscapeByte(c)[1];
    assert SimpleEscape(s[1]) == Some(c);
  }

  lemma PlainByteReads(c: Byte, tail: Text)
    requires c < 0x80 && |EscapeByte(c)| != 2 && |EscapeByte(c)| != 6
    ensures StringBody(EscapeByte(c) + tail) == Prepend([c], StringBody(tail))
  {
    hide HexDigit, UnicodeEscape, Sequence, Utf8;
    assert EscapeByte(c) == [c] && ([c] + tail)[1..] == tail;
  }

  lemma SeparatorReads(last: Byte, tail: Text)
    requires last == 0xA8 || last == 0xA9
    ensures StringBody(EscapeSeparator(last) + tail) == Prepend([0xE2, 0x80, last], StringBody(tail))
  {
    var s := EscapeSeparator(last) + tail;
    assert s[2..][4..] == tail;
    assert HexValue(s[2..][0]) == Some(2) && HexValue(s[2..][1]) == Some(0) && HexValue(s[2..][2]) == Some(2);
    assert Hex4(s[2..]) == Ok(if last == 0xA8 then 0x2028 else 0x2029, tail);
  }

  // The parser undoes the escape on every byte string, up to the replacement of malformed bytes.
  lemma {:induction false} StringReads(s: Text, post: Text)
    ensures StringBody(Closed(s, post)) == Ok(Scrub(s), post)
  {
    hide StringBody, Closed, Escape, EscapeByte, EscapeSeparator;
    if s == [] {
      QuoteReads(post);
    } else if Separator(s) {
      StringReads(s[3..], post);
      SeparatorCloses(s, post);
      SeparatorReads(s[2], Closed(s[3..], post));
      assert s[..3] == [0xE2, 0x80, s[2]];
    } else if s[0] < 0x80 {
      StringReads(s[1..], post);
      ByteCloses(s, post);
      ByteReads(s[0], Closed(s[1..], post));
    } else {
      SequencePasses(s, post);
      ByteCloses(s, post);
      HighByte(s[0]);
      var n := Sequence(s);
      if n == 0 {
        StringReads(s[1..], post);
        MalformedReads(s[0], Closed(s[1..], post));
      } else {
        StringReads(s[n..], post);
        SequenceCopied(s, post);
        assert Closed(s, post)[n..] == Closed(s[n..], post);
        SequenceReads(Closed(s, post), n);
      }
    }
  }

  lemma QuoteReads(post: Text)
    ensures StringBody(Closed([], post)) == Ok([], post)
  {
    assert Closed([], post)[1..] == post;
  }

  lemma HighByte(c: Byte)
    requires c >= 0x80
    ensures EscapeByte(c) == [c]
  {}

  lemma MalformedReads(c: Byte, tail: Text)
    requires c >= 0x80 && Sequence([c] + tail) == 0
    ensures StringBody([c] + tail) == Prepend(Utf8(REPLACEMENT), StringBody(tail))
  {
    assert ([c] + tail)[1..] == tail;
  }

  lemma SequenceReads(s: Text, n: nat)
    requires s != [] && s[0] >= 0x80 && Sequence(s) == n > 0
    ensures StringBody(s) == Prepend(s[..n], StringBody(s[n..]))
  {}

  // ---- numbers ---------------------------------------------------------------------------------------

  // What may follow a number without being read as part of it.
  predicate Ends(post: Text) {
    post == [] || (!IsDigit(post[0]) && post[0] != 0x2E && post[0] != 0x65 && post[0] != 0x45)
  }

  lemma {:induction false} DigitsRead(n: nat)
    ensures AllDigits(Digits(n)) && Natural(Digits(n)) == n
    ensures Digits(n)[0] == 0x30 ==> n == 0
  {
    if n >= 10 {
      DigitsRead(n / 10);
      var d := Digits(n);
      assert d[..|d| - 1] == Digits(n / 10);
    } else {
      assert Digits(n)[..0] == [];
    }
  }

  lemma {:induction false} RunOf(ds: Text, post: Text)
    requires AllDigits(ds) && (post == [] || !IsDigit(post[0]))
    ensures DigitRun(ds + post) == |ds|
  {
    if ds == [] {
      assert ds + post == post;
    } else {
      assert (ds + post)[1..] == ds[1..] + post;
      RunOf(ds[1..], post);
    }
  }

  // A spelling that the scanner takes as an integer to its end.
  predicate IntegerText(t: Text) { IntegerEnd(t) == Some(|t|) }

  lemma IntegerStops(t: Text, post: Text)
    requires IntegerText(t) && Ends(post)
    ensures IntegerEnd(t + post) == Some(|t|)
  {
    var a := if Starts(t, MINUS) then 1 else 0;
    IntegerIsIntegral(t);
    assert t[..|t|] == t;
    if t[a] != 0x30 {
      assert AllDigits(t[a..]);
      assert (t + post)[a..] == t[a..] + post;
      RunOf(t[a..], post);
    }
  }

  lemma NumberReads(t: Text, post: Text)
    requires IntegerText(t) && Ends(post)
    ensures Integral(t) && ParseNumber(t + post) == Ok(IntegerNode(t), post)
  {
    IntegerIsIntegral(t);
    IntegerStops(t, post);
    assert t[..|t|] == t && (t + post)[..|t|] == t && (t + post)[|t|..] == post;
  }

  lemma DecimalReads(i: int)
    ensures IntegerText(Decimal(i)) && Integral(Decimal(i)) && IntegerValue(Decimal(i)) == i
  {
    var n := if i < 0 then -i else i;
    var ds := Digits(n);
    DigitsRead(n);
    RunOf(ds, []);
    assert ds + [] == ds;
    if i < 0 { assert Decimal(i)[1..] == ds; }
    var a := if i < 0 then 1 else 0;
    assert Decimal(i)[a..] == ds;
    if Digits(n)[0] == 0x30 { assert |ds| == 1; }
  }

  // The spelling the scanner leaves in a node scans alike on its own.
  lemma PrefixIsInteger(s: Text)
    requires IntegerEnd(s).Some?
    ensures IntegerText(s[..IntegerEnd(s).value])
  {
    var b := IntegerEnd(s).value;
    var t := s[..b];
    var a := if Starts(s, MINUS) then 1 else 0;
    assert Starts(t, MINUS) == Starts(s, MINUS) && t[a] == s[a];
    if s[a] != 0x30 {
      DigitRunDigits(s[a..]);
      assert t[a..] == s[a..][..DigitRun(s[a..])];
      RunOf(t[a..], []);
      assert t[a..] + [] == t[a..];
    }
  }

  // ---- trees -----------------------------------------------------------------------------------------

  // Trees of the JSON runtime without floats: 64-bit integers, other integers by their spelling.
  ghost predicate Writable(v: Json) {
    match v
    case Int(i) => MIN_INT <= i <= MAX_INT
    case Number(t) => IntegerText(t) && Integral(t) && !(MIN_INT <= IntegerValue(t) <= MAX_INT)
    case Float(_) => false
    case Array(items) => forall x :: x in items ==> Writable(x)
    case Object(ms) => forall m :: m in ms ==> Writable(m.value)
    case _ => true
  }

  function Height(v: Json): nat {
    match v
    case Array(items) => 1 + HeightOfItems(items)
    case Object(ms) => 1 + HeightOfMembers(ms)
    case _ => 0
  }

  function Max(a: nat, b: nat): nat { if a < b then b else a }

  function HeightOfItems(items: seq<Json>): (h: nat)
    ensures forall x :: x in items ==> Height(x) <= h
  {
    if items == [] then 0 else Max(Height(items[0]), HeightOfItems(items[1..]))
  }

  function HeightOfMembers(ms: seq<Member>): (h: nat)
    ensures forall m :: m in ms ==> Height(m.value) <= h
  {
    if ms == [] then 0 else Max(Height(ms[0].value), HeightOfMembers(ms[1..]))
  }

  // A tree as the parser reads it back from its text: strings scrubbed, objects collected.
  function Reread(v: Json): Json {
    match v
    case Str(s) => Str(Scrub(s))
    case Array(items) => Array(RereadItems(items))
    case Object(ms) => Object(Collect(RereadMembers(ms)))
    case _ => v
  }

  function RereadItems(items: seq<Json>): (r: seq<Json>)
    ensures |r| == |items| && forall i :: 0 <= i < |r| ==> r[i] == Reread(items[i])
  {
    if items == [] then [] else [Reread(items[0])] + RereadItems(items[1..])
  }

  function RereadMembers(ms: seq<Member>): (r: seq<Member>)
    ensures |r| == |ms| && forall i :: 0 <= i < |r| ==> r[i] == Member(Scrub(ms[i].key), Reread(ms[i].value))
  {
    if ms == [] then [] else [Member(Scrub(ms[0].key), Reread(ms[0].value))] + RereadMembers(ms[1..])
  }

  // No text of a value starts with white space or closes a bracket.
  predicate Opens(s: Text) {
    s != [] && s[0] != 0x20 && s[0] != 0x09 && s[0] != 0x0A && s[0] != 0x0D && s[0] != CLOSE_ARRAY && s[0] != CLOSE_OBJECT
  }

  lemma EmitOpens(v: Json)
    requires Writable(v)
    ensures Opens(Emit(v))
  {
    match v
    case Int(i) => DigitsRead(if i < 0 then -i else i); assert IsDigit(Digits(if i < 0 then -i else i)[0]);
    case _ =>
  }

  lemma ValueReads(v: Json, post: Text, depth: nat)
    requires Writable(v) && depth + Height(v) <= MAX_DEPTH && Ends(post)
    ensures ParseValue(Emit(v) + post, depth) == Ok(Reread(v), post)
    decreases v, 2
  {
    hide Emit, Opens, ParseToken;
    EmitOpens(v);
    OpensUnskipped(Emit(v), post);
    TokenReads(v, post, depth);
  }

  lemma OpensUnskipped(s: Text, post: Text)
    requires Opens(s)
    ensures SkipWs(s + post) == s + post
  {}

  lemma TokenReads(v: Json, post: Text, depth: nat)
    requires Writable(v) && depth + Height(v) <= MAX_DEPTH && Ends(post)
    ensures ParseToken(Emit(v) + post, depth) == Ok(Reread(v), post)
    decreases v, 1
  {
    match v
    case Null => assert (NULL + post)[4..] == post;
    case Bool(b) => assert (TRUE + post)[4..] == post && (FALSE + post)[5..] == post;
    case Int(i) => DecimalReads(i); NumberToken(Decimal(i), post, depth);
    case Number(t) => NumberToken(t, post, depth);
    case Str(s) => StringToken(s, post, depth);
    case Array(items) => ArrayToken(v, post, depth);
    case Object(ms) => ObjectToken(v, post, depth);
  }

  lemma NumberToken(t: Text, post: Text, depth: nat)
    requires IntegerText(t) && Ends(post)
    ensures Integral(t) && ParseToken(t + post, depth) == Ok(IntegerNode(t), post)
  {
    NumberReads(t, post);
  }

  lemma StringToken(s: Text, post: Text, depth: nat)
    ensures ParseToken(Quoted(s) + post, depth) == Ok(Str(Scrub(s)), post)
  {
    hide StringBody;
    StringReads(s, post);
    assert (Quoted(s) + post)[1..] == Closed(s, post);
  }

  lemma ArrayToken(v: Json, post: Text, depth: nat)
    requires v.Array? && Writable(v) && depth + Height(v) <= MAX_DEPTH
    ensures ParseToken(Emit(v) + post, depth) == Ok(Reread(v), post)
    decreases v, 0
  {
    hide Opens;
    var s := Emit(v) + post;
    var u := EmitItems(v.items) + [CLOSE_ARRAY] + post;
    assert s[1..] == u;
    if v.items == [] {
      assert u == [CLOSE_ARRAY] + post && u[1..] == post;
    } else {
      ItemsOpen(v.items, [CLOSE_ARRAY] + post);
      assert EmitItems(v.items) + ([CLOSE_ARRAY] + post) == u;
      ItemsRead(v.items, post, depth + 1);
    }
  }

  lemma ItemsOpen(items: seq<Json>, post: Text)
    requires items != [] && forall x :: x in items ==> Writable(x)
    ensures SkipWs(EmitItems(items) + post) == EmitItems(items) + post && !Starts(EmitItems(items) + post, CLOSE_ARRAY)
  {
    hide Emit;
    EmitOpens(items[0]);
    assert Opens(EmitItems(items));
    OpensUnskipped(EmitItems(items), post);
  }

  lemma {:induction false} ItemsRead(items: seq<Json>, post: Text, depth: nat)
    requires items != [] && (forall x :: x in items ==> Writable(x)) && depth + HeightOfItems(items) <= MAX_DEPTH
    ensures ParseItems(EmitItems(items) + [CLOSE_ARRAY] + post, depth) == Ok(RereadItems(items), post)
    decreases items
  {
    hide Emit, Writable, Height, Reread, ParseValue;
    var s := EmitItems(items) + [CLOSE_ARRAY] + post;
    if |items| == 1 {
      var tail := [CLOSE_ARRAY] + post;
      ValueReads(items[0], tail, depth);
      assert s == Emit(items[0]) + tail && tail[1..] == post && SkipWs(tail) == tail;
      assert RereadItems(items) == [Reread(items[0])];
    } else {
      var after := EmitItems(items[1..]) + [CLOSE_ARRAY] + post;
      var tail := [COMMA] + after;
      ValueReads(items[0], tail, depth);
      assert s == Emit(items[0]) + tail && tail[1..] == after;
      ItemsRead(items[1..], post, depth);
    }
  }

  lemma ObjectToken(v: Json, post: Text, depth: nat)
    requires v.Object? && Writable(v) && depth + Height(v) <= MAX_DEPTH
    ensures ParseToken(Emit(v) + post, depth) == Ok(Reread(v), post)
    decreases v, 0
  {
    hide EmitMember, ParseMembers, Collect, Escape, StringBody, EmitMembers, ParseItems, ParseNumber;
    EmptyMembers();
    var s := Emit(v) + post;
    var u := EmitMembers(v.members) + [CLOSE_OBJECT] + post;
    assert s[1..] == u;
    if v.members == [] {
      assert u == [CLOSE_OBJECT] + post && u[1..] == post;
    } else {
      MembersOpen(v.members, [CLOSE_OBJECT] + post);
      assert EmitMembers(v.members) + ([CLOSE_OBJECT] + post) == u;
      MembersRead(v.members, post, depth + 1);
    }
  }

  lemma EmptyMembers()
    ensures EmitMembers([]) == [] && Collect([]) == []
  {}

  lemma MembersOpen(ms: seq<Member>, post: Text)
    requires ms != []
    ensures SkipWs(EmitMembers(ms) + post) == EmitMembers(ms) + post && !Starts(EmitMembers(ms) + post, CLOSE_OBJECT)
  {
    MemberOpens(ms[0]);
    hide Emit, Escape, EmitMember;
    var tail: Text := if |ms| == 1 then [] else [COMMA] + EmitMembers(ms[1..]);
    assert EmitMembers(ms) == EmitMember(ms[0]) + tail;
    OpensWithQuote(EmitMembers(ms) + post);
  }

  lemma MemberOpens(m: Member)
    ensures EmitMember(m) != [] && EmitMember(m)[0] == QUOTE
  {
    hide Emit, Escape;
  }

  lemma OpensWithQuote(s: Text)
    requires s != [] && s[0] == QUOTE
    ensures SkipWs(s) == s && !Starts(s, CLOSE_OBJECT)
  {}

  lemma KeyReads(key: Text, value: Text, depth: nat, v: Json, post: Text)
    requires ParseValue(value, depth) == Ok(v, post)
    ensures ParseMember(Quoted(key) + [COLON] + value, depth) == Ok(Member(Scrub(key), v), post)
  {
    hide Escape, StringBody, ParseValue;
    var s := Quoted(key) + [COLON] + value;
    assert s[0] == QUOTE && s[1..] == Closed(key, [COLON] + value);
    assert SkipWs(s) == s;
    StringReads(key, [COLON] + value);
    assert ([COLON] + value)[1..] == value && SkipWs([COLON] + value) == [COLON] + value;
  }

  lemma MemberReads(m: Member, post: Text, depth: nat)
    requires Writable(m.value) && depth + Height(m.value) <= MAX_DEPTH && Ends(post)
    ensures ParseMember(EmitMember(m) + post, depth) == Ok(Member(Scrub(m.key), Reread(m.value)), post)
    decreases m
  {
    hide Emit, Escape, Quoted, ParseValue, ParseMember, Writable;
    var value := Emit(m.value) + post;
    ValueReads(m.value, post, depth);
    KeyReads(m.key, value, depth, Reread(m.value), post);
    assert EmitMember(m) + post == Quoted(m.key) + [COLON] + value;
  }

  lemma LastMember(s: Text, tail: Text, depth: nat, m: Member, post: Text)
    requires ParseMember(s, depth) == Ok(m, tail) && tail == [CLOSE_OBJECT] + post
    ensures ParseMembers(s, depth) == Ok([m], post)
  {
    hide ParseMember;
    assert tail[1..] == post && SkipWs(tail) == tail;
  }

  lemma NextMemberReads(s: Text, tail: Text, depth: nat, m: Member, after: Text, ms: seq<Member>, post: Text)
    requires ParseMember(s, depth) == Ok(m, tail) && tail == [COMMA] + after
    requires ParseMembers(after, depth) == Ok(ms, post)
    ensures ParseMembers(s, depth) == Ok([m] + ms, post)
  {
    hide ParseMember;
    assert tail[1..] == after && SkipWs(tail) == tail;
  }

  lemma {:induction false} MembersRead(ms: seq<Member>, post: Text, depth: nat)
    requires ms != [] && (forall m :: m in ms ==> Writable(m.value)) && depth + HeightOfMembers(ms) <= MAX_DEPTH
    ensures ParseMembers(EmitMembers(ms) + [CLOSE_OBJECT] + post, depth) == Ok(RereadMembers(ms), post)
    decreases ms
  {
    hide EmitMember, Writable, Height, Reread, ParseMember, ParseMembers, Scrub, Ends;
    var s := EmitMembers(ms) + [CLOSE_OBJECT] + post;
    var m := Member(Scrub(ms[0].key), Reread(ms[0].value));
    if |ms| == 1 {
      var tail := [CLOSE_OBJECT] + post;
      Punctuation(CLOSE_OBJECT, post);
      MemberReads(ms[0], tail, depth);
      assert s == EmitMember(ms[0]) + tail;
      LastMember(s, tail, depth, m, post);
      assert RereadMembers(ms) == [m];
    } else {
      var after := EmitMembers(ms[1..]) + [CLOSE_OBJECT] + post;
      var tail := [COMMA] + after;
      Punctuation(COMMA, after);
      MemberReads(ms[0], tail, depth);
      assert s == EmitMember(ms[0]) + tail;
      MembersRead(ms[1..], post, depth);
      NextMemberReads(s, tail, depth, m, after, RereadMembers(ms[1..]), post);
    }
  }

  lemma Punctuation(c: Byte, post: Text)
    requires c == COMMA || c == CLOSE_OBJECT || c == CLOSE_ARRAY
    ensures Ends([c] + post)
  {}

  // ---- the main results ------------------------------------------------------------------------------

  // A tree that the runtime can hold and the parser can reach.
  ghost predicate Representable(v: Json) { Writable(v) && DistinctKeys(v) && Height(v) <= MAX_DEPTH }

  ghost predicate StrictText(v: Json) {
    match v
    case Str(s) => Strict(s)
    case Array(items) => forall x :: x in items ==> StrictText(x)
    case Object(ms) => forall m :: m in ms ==> Strict(m.key) && StrictText(m.value)
    case _ => true
  }

  // A member of a sorted object is a member of the object, with its value sorted.
  lemma SortedMember(ms: seq<Member>, m: Member) returns (n: Member)
    requires m in Collect(SortMembers(ms))
    ensures n in ms && m == Member(n.key, Sort(n.value))
  {
    CollectLookup(SortMembers(ms), []);
    var i :| 0 <= i < |ms| && SortMembers(ms)[i] == m;
    n := ms[i];
  }

  lemma {:induction false} SortKeepsWritable(v: Json)
    requires Writable(v)
    ensures Writable(Sort(v))
    decreases v
  {
    match v
    case Array(items) =>
      forall x | x in items ensures Writable(Sort(x)) { SortKeepsWritable(x); }
    case Object(ms) =>
      forall m | m in Collect(SortMembers(ms)) ensures Writable(m.value) {
        var n := SortedMember(ms, m);
        SortKeepsWritable(n.value);
      }
    case _ =>
  }

  lemma {:induction false} SortKeepsStrict(v: Json)
    requires StrictText(v)
    ensures StrictText(Sort(v))
    decreases v
  {
    match v
    case Array(items) =>
      forall x | x in items ensures StrictText(Sort(x)) { SortKeepsStrict(x); }
    case Object(ms) =>
      forall m | m in Collect(SortMembers(ms)) ensures Strict(m.key) && StrictText(m.value) {
        var n := SortedMember(ms, m);
        SortKeepsStrict(n.value);
      }
    case _ =>
  }

  // With distinct keys no member is lost by sorting.
  lemma NoneLost(ms: seq<Member>, i: nat)
    requires Distinct(ms) && i < |ms|
    ensures SortMembers(ms)[i] in Collect(SortMembers(ms))
  {
    var sorted := SortMembers(ms);
    var k := ms[i].key;
    LookupIndex(sorted, k, i);
    CollectLookup(sorted, k);
    LookupFound(Collect(sorted), k);
    var n :| n in Collect(sorted) && n.key == k;
    var j :| 0 <= j < |sorted| && sorted[j] == n;
    assert j == i;
  }

  lemma {:induction false} StrictBehindSort(v: Json)
    requires DistinctKeys(v) && StrictText(Sort(v))
    ensures StrictText(v)
    decreases v
  {
    match v
    case Array(items) =>
      forall i | 0 <= i < |items| ensures StrictText(items[i]) {
        assert SortItems(items)[i] in SortItems(items);
        StrictBehindSort(items[i]);
      }
    case Object(ms) =>
      forall i | 0 <= i < |ms| ensures Strict(ms[i].key) && StrictText(ms[i].value) {
        NoneLost(ms, i);
        assert ms[i] in ms;
        StrictBehindSort(ms[i].value);
      }
    case _ =>
  }

  lemma {:induction false} SortKeepsHeight(v: Json)
    ensures Height(Sort(v)) <= Height(v)
    decreases v
  {
    match v
    case Array(items) =>
      forall x | x in items ensures Height(Sort(x)) <= Height(x) { SortKeepsHeight(x); }
      ItemsBound(SortItems(items), HeightOfItems(items));
    case Object(ms) =>
      forall m | m in Collect(SortMembers(ms)) ensures Height(m.value) <= HeightOfMembers(ms) {
        var n := SortedMember(ms, m);
        SortKeepsHeight(n.value);
      }
      MembersBound(Collect(SortMembers(ms)), HeightOfMembers(ms));
    case _ =>
  }

  lemma {:induction false} ItemsBound(items: seq<Json>, h: nat)
    requires forall x :: x in items ==> Height(x) <= h
    ensures HeightOfItems(items) <= h
  {
    if items != [] { ItemsBound(items[1..], h); }
  }

  lemma {:induction false} MembersBound(ms: seq<Member>, h: nat)
    requires forall m :: m in ms ==> Height(m.value) <= h
    ensures HeightOfMembers(ms) <= h
  {
    if ms != [] { MembersBound(ms[1..], h); }
  }

  // Sorted trees: every object has its keys in byte order, each once.
  ghost predicate Canonical(v: Json) {
    match v
    case Array(items) => forall x :: x in items ==> Canonical(x)
    case Object(ms) => Ascending(ms) && forall m :: m in ms ==> Canonical(m.value)
    case _ => true
  }

  lemma {:induction false} SortIsCanonical(v: Json)
    ensures Canonical(Sort(v))
    decreases v
  {
    match v
    case Array(items) =>
      forall x | x in items ensures Canonical(Sort(x)) { SortIsCanonical(x); }
    case Object(ms) =>
      forall m | m in ms ensures Canonical(Sort(m.value)) { SortIsCanonical(m.value); }
      CollectLookup(SortMembers(ms), []);
      forall m | m in Collect(SortMembers(ms)) ensures Canonical(m.value) {
        var i :| 0 <= i < |ms| && SortMembers(ms)[i] == m;
        assert ms[i] in ms;
      }
    case _ =>
  }

  lemma {:induction false} CanonicalIsSorted(v: Json)
    requires Canonical(v)
    ensures Sort(v) == v
    decreases v
  {
    match v
    case Array(items) =>
      forall i | 0 <= i < |items| ensures Sort(items[i]) == items[i] { CanonicalIsSorted(items[i]); }
      assert SortItems(items) == items;
    case Object(ms) =>
      forall i | 0 <= i < |ms| ensures Sort(ms[i].value) == ms[i].value { assert ms[i] in ms; CanonicalIsSorted(ms[i].value); }
      assert SortMembers(ms) == ms;
      CollectAscending(ms);
    case _ =>
  }

  // A canonical tree with strict strings reads back unchanged.
  lemma {:induction false} RereadUnchanged(v: Json)
    requires Canonical(v) && StrictText(v)
    ensures Reread(v) == v
    decreases v
  {
    match v
    case Str(s) => UnchangedExactly(s);
    case Array(items) =>
      forall i | 0 <= i < |items| ensures Reread(items[i]) == items[i] { RereadUnchanged(items[i]); }
      assert RereadItems(items) == items;
    case Object(ms) =>
      forall i | 0 <= i < |ms| ensures RereadMembers(ms)[i] == ms[i] {
        assert ms[i] in ms;
        RereadUnchanged(ms[i].value);
        UnchangedExactly(ms[i].key);
      }
      assert RereadMembers(ms) == ms;
      CollectAscending(ms);
    case _ =>
  }

  // What the parser reads holds strict strings only.
  lemma {:induction false} RereadIsStrict(v: Json)
    ensures StrictText(Reread(v))
    decreases v
  {
    match v
    case Str(s) => ScrubbedIsStrict(s);
    case Array(items) =>
      forall x | x in items ensures StrictText(Reread(x)) { RereadIsStrict(x); }
    case Object(ms) =>
      CollectLookup(RereadMembers(ms), []);
      forall m | m in Collect(RereadMembers(ms)) ensures Strict(m.key) && StrictText(m.value) {
        var i :| 0 <= i < |ms| && RereadMembers(ms)[i] == m;
        ScrubbedIsStrict(ms[i].key);
        RereadIsStrict(ms[i].value);
      }
    case _ =>
  }

  // Parsing a printed tree gives the tree with sorted keys and scrubbed strings; it gives exactly
  // the sorted tree when and only when all strings of the tree are strict UTF-8, and printing that
  // again gives the same text.
  lemma ParseAfterWrite(v: Json)
    requires Representable(v)
    ensures ParseText(Emit(Sort(v))) == Some(Reread(Sort(v)))
    ensures ParseText(Emit(Sort(v))) == Some(Sort(v)) <==> StrictText(v)
    ensures Sort(Sort(v)) == Sort(v) && Canonical(Sort(v))
  {
    hide Emit, Sort, ParseValue, Reread, StrictText, Writable, Canonical;
    SortKeepsWritable(v);
    SortKeepsHeight(v);
    if StrictText(v) { SortKeepsStrict(v); }
    SortIsCanonical(v);
    CanonicalIsSorted(Sort(v));
    RereadIsStrict(Sort(v));
    if StrictText(Sort(v)) {
      RereadUnchanged(Sort(v));
      StrictBehindSort(v);
    }
    ValueReads(Sort(v), [], 0);
    assert Emit(Sort(v)) + [] == Emit(Sort(v));
  }

  // A byte that is no UTF-8 comes back as the replacement character.
  lemma MalformedByteIsReplaced()
    ensures Representable(Str([0xFF])) && ParseText(Emit(Sort(Str([0xFF])))) == Some(Str([0xEF, 0xBF, 0xBD]))
  {
    hide ParseText, Emit;
    ParseAfterWrite(Str([0xFF]));
    assert Sort(Str([0xFF])) == Str([0xFF]) && Sequence([0xFF]) == 0;
    assert Utf8(REPLACEMENT) == [0xEF, 0xBF, 0xBD] && Scrub([]) == [];
    assert Scrub([0xFF]) == [0xEF, 0xBF, 0xBD];
  }
}
