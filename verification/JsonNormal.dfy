// Every tree the parser returns is in normal form, so its printed text stands for it.
module JsonNormal {
  import opened Wrappers
  import opened JsonUtf8
  import opened JsonTree
  import opened JsonWriter
  import opened JsonGrammar
  import opened JsonRoundTrip

  lemma OneCharacter(cp: nat, r: Parsed<Text>)
    requires Scalar(cp) && r.Ok? && Strict(r.value)
    ensures Strict(Prepend(Utf8(cp), r).value)
  {
    EncodesMore(cp, r.value);
  }

  lemma Ascii(c: Byte)
    requires c < 0x80
    ensures Scalar(c) && Utf8(c) == [c]
  {}

  lemma Empty()
    ensures Strict([])
  {
    assert Encodes([], []);
  }

  lemma {:induction false} StringIsStrict(s: Text)
    requires StringBody(s).Ok?
    ensures Strict(StringBody(s).value)
    decreases |s|
  {
    hide Strict, Utf8, Sequence, UnicodeEscape, Scalar, CodePoint;
    if s[0] == QUOTE {
      Empty();
    } else if s[0] == BACKSLASH && s[1] == 0x75 {
      var u := UnicodeEscape(s[2..]);
      StringIsStrict(u.rest);
      OneCharacter(u.value, StringBody(u.rest));
    } else if s[0] == BACKSLASH {
      StringIsStrict(s[2..]);
      Ascii(SimpleEscape(s[1]).value);
      OneCharacter(SimpleEscape(s[1]).value, StringBody(s[2..]));
    } else if s[0] < 0x80 {
      StringIsStrict(s[1..]);
      Ascii(s[0]);
      OneCharacter(s[0], StringBody(s[1..]));
    } else if Sequence(s) == 0 {
      StringIsStrict(s[1..]);
      ReplacementIsScalar();
      OneCharacter(REPLACEMENT, StringBody(s[1..]));
    } else {
      SequenceEncodes(s);
      StringIsStrict(s[Sequence(s)..]);
      OneCharacter(CodePoint(s), StringBody(s[Sequence(s)..]));
    }
  }

  lemma ReplacementIsScalar()
    ensures Scalar(REPLACEMENT)
  {}

  // A tree as the parser builds it at some depth.
  ghost predicate Normal(v: Json, depth: nat) {
    Canonical(v) && StrictText(v) && (NoFloats(v) ==> Writable(v)) && depth + Height(v) <= MAX_DEPTH
  }

  ghost predicate NormalMember(m: Member, depth: nat) { Strict(m.key) && Normal(m.value, depth) }

  lemma {:induction false} ValueIsNormal(s: Text, depth: nat)
    requires ParseValue(s, depth).Ok? && depth <= MAX_DEPTH
    ensures Normal(ParseValue(s, depth).value, depth)
    decreases |s|, 1
  {
    hide Normal, ParseToken;
    TokenIsNormal(SkipWs(s), depth);
  }

  lemma {:induction false} TokenIsNormal(t: Text, depth: nat)
    requires ParseToken(t, depth).Ok? && depth <= MAX_DEPTH
    ensures Normal(ParseToken(t, depth).value, depth)
    decreases |t|, 0
  {
    hide StringBody, ParseNumber, ParseItems, ParseMembers, Collect;
    if t[0] == OPEN_OBJECT {
      var u := SkipWs(t[1..]);
      if Starts(u, CLOSE_OBJECT) {
        assert Normal(Object([]), depth);
      } else {
        MembersAreNormal(u, depth + 1);
        ObjectIsNormal(ParseMembers(u, depth + 1).value, depth);
      }
    } else if t[0] == OPEN_ARRAY {
      var u := SkipWs(t[1..]);
      if Starts(u, CLOSE_ARRAY) {
        assert Normal(Array([]), depth);
      } else {
        ItemsAreNormal(u, depth + 1);
        ArrayIsNormal(ParseItems(u, depth + 1).value, depth);
      }
    } else if t[0] == QUOTE {
      StringIsStrict(t[1..]);
    } else if t[0] != TRUE[0] && t[0] != FALSE[0] && t[0] != NULL[0] {
      NumberIsNormal(t, depth);
    }
  }

  lemma NumberIsNormal(t: Text, depth: nat)
    requires ParseNumber(t).Ok? && depth <= MAX_DEPTH
    ensures Normal(ParseNumber(t).value, depth)
  {
    PrefixIsInteger(t);
    IntegerIsIntegral(t);
  }

  lemma ArrayIsNormal(items: seq<Json>, depth: nat)
    requires depth < MAX_DEPTH && forall x :: x in items ==> Normal(x, depth + 1)
    ensures Normal(Array(items), depth)
  {
    ItemsBound(items, MAX_DEPTH - depth - 1);
  }

  lemma ObjectIsNormal(ms: seq<Member>, depth: nat)
    requires depth < MAX_DEPTH && forall m :: m in ms ==> NormalMember(m, depth + 1)
    ensures Normal(Object(Collect(ms)), depth)
  {
    CollectLookup(ms, []);
    assert forall m :: m in Collect(ms) ==> NormalMember(m, depth + 1);
    MembersBound(Collect(ms), MAX_DEPTH - depth - 1);
  }

  lemma {:induction false} ItemsAreNormal(s: Text, depth: nat)
    requires ParseItems(s, depth).Ok? && depth <= MAX_DEPTH
    ensures forall x :: x in ParseItems(s, depth).value ==> Normal(x, depth)
    decreases |s|, 2
  {
    hide ParseValue, Normal;
    var t := SkipWs(ParseValue(s, depth).rest);
    ValueIsNormal(s, depth);
    if Starts(t, COMMA) { ItemsAreNormal(t[1..], depth); }
  }

  lemma MemberIsNormal(s: Text, depth: nat)
    requires ParseMember(s, depth).Ok? && depth <= MAX_DEPTH
    ensures NormalMember(ParseMember(s, depth).value, depth)
    decreases |s|, 2
  {
    hide ParseValue, Normal, StringBody, Strict;
    var t := SkipWs(s);
    var u := SkipWs(StringBody(t[1..]).rest);
    StringIsStrict(t[1..]);
    ValueIsNormal(u[1..], depth);
  }

  lemma {:induction false} MembersAreNormal(s: Text, depth: nat)
    requires ParseMembers(s, depth).Ok? && depth <= MAX_DEPTH
    ensures forall m :: m in ParseMembers(s, depth).value ==> NormalMember(m, depth)
    decreases |s|, 3
  {
    hide ParseMember, NormalMember;
    var t := SkipWs(ParseMember(s, depth).rest);
    MemberIsNormal(s, depth);
    if Starts(t, COMMA) { MembersAreNormal(t[1..], depth); }
  }

  // Whatever a text was, the canonical text kept with its tree parses to that very tree.
  lemma CanonicalTextStands(t: Text)
    requires ParseText(t).Some? && NoFloats(ParseText(t).value)
    ensures var v := ParseText(t).value;
      Canonical(v) && StrictText(v) && Sort(v) == v && ParseText(Emit(v)) == Some(v)
  {
    hide ParseValue, Emit;
    ValueIsNormal(t, 0);
    var v := ParseText(t).value;
    CanonicalIsSorted(v);
    RereadUnchanged(v);
    ValueReads(v, [], 0);
    assert Emit(v) + [] == Emit(v);
  }

  lemma {:induction false} AscendingIsDistinct(ms: seq<Member>)
    requires Ascending(ms)
    ensures Distinct(ms)
  {
    if ms != [] {
      AscendingIsDistinct(ms[1..]);
      LessIrreflexive(ms[0].key);
      forall i, j | 0 <= i < j < |ms| ensures ms[i].key != ms[j].key {
        assert ms[j] == ms[1..][j - 1];
        if i > 0 { assert ms[i] == ms[1..][i - 1]; }
      }
    }
  }

  lemma {:induction false} CanonicalIsDistinct(v: Json)
    requires Canonical(v)
    ensures DistinctKeys(v)
    decreases v
  {
    match v
    case Array(items) => forall x | x in items ensures DistinctKeys(x) { CanonicalIsDistinct(x); }
    case Object(ms) =>
      AscendingIsDistinct(ms);
      forall m | m in ms ensures DistinctKeys(m.value) { CanonicalIsDistinct(m.value); }
    case _ =>
  }

  // A repeated key stands for its last occurrence, whatever order the sort met them in.
  lemma LastOccurrenceWins(s: Text, depth: nat, k: Text)
    requires ParseMembers(s, depth).Ok?
    ensures Lookup(Collect(ParseMembers(s, depth).value), k) == Lookup(ParseMembers(s, depth).value, k)
  {
    CollectLookup(ParseMembers(s, depth).value, k);
  }
}
