// The C runtime's canonical JSON printer.
module JsonWriter {
  import opened JsonUtf8
  import opened JsonTree

  const QUOTE: Byte := 0x22
  const BACKSLASH: Byte := 0x5C
  const COMMA: Byte := 0x2C
  const COLON: Byte := 0x3A
  const MINUS: Byte := 0x2D
  const OPEN_ARRAY: Byte := 0x5B
  const CLOSE_ARRAY: Byte := 0x5D
  const OPEN_OBJECT: Byte := 0x7B
  const CLOSE_OBJECT: Byte := 0x7D

  // "null", "true", "false"
  const NULL: Text := [0x6E, 0x75, 0x6C, 0x6C]
  const TRUE: Text := [0x74, 0x72, 0x75, 0x65]
  const FALSE: Text := [0x66, 0x61, 0x6C, 0x73, 0x65]

  const MIN_INT: int := -0x8000_0000_0000_0000
  const MAX_INT: int := 0x7FFF_FFFF_FFFF_FFFF

  // ---- strings --------------------------------------------------------------------------------------

  function HexDigit(d: nat): Byte
    requires d < 16
  {
    if d < 10 then 0x30 + d else 0x57 + d
  }

  // The escape of one byte: a named one, the \u00xx form, or the byte itself.
  function EscapeByte(c: Byte): (r: Text)
    ensures r != []
  {
    if c == QUOTE then [BACKSLASH, QUOTE]
    else if c == BACKSLASH then [BACKSLASH, BACKSLASH]
    else if c == 0x08 then [BACKSLASH, 0x62]
    else if c == 0x0C then [BACKSLASH, 0x66]
    else if c == 0x0A then [BACKSLASH, 0x6E]
    else if c == 0x0D then [BACKSLASH, 0x72]
    else if c == 0x09 then [BACKSLASH, 0x74]
    else if c < 0x20 || c == 0x3C || c == 0x3E || c == 0x26 then [BACKSLASH, 0x75, 0x30, 0x30, HexDigit(c / 16), HexDigit(c % 16)]
    else [c]
  }

  // U+2028 and U+2029, the line separators of JavaScript.
  predicate Separator(s: Text) { |s| > 2 && s[0] == 0xE2 && s[1] == 0x80 && (s[2] == 0xA8 || s[2] == 0xA9) }

  function EscapeSeparator(last: Byte): Text { [BACKSLASH, 0x75, 0x32, 0x30, 0x32, if last == 0xA8 then 0x38 else 0x39] }

  function Escape(s: Text): Text {
    if s == [] then []
    else if Separator(s) then EscapeSeparator(s[2]) + Escape(s[3..])
    else EscapeByte(s[0]) + Escape(s[1..])
  }

  // ---- numbers ---------------------------------------------------------------------------------------

  function Digits(n: nat): (r: Text)
    ensures r != []
  {
    if n < 10 then [0x30 + n] else Digits(n / 10) + [0x30 + n % 10]
  }

  function Decimal(i: int): Text { if i < 0 then [MINUS] + Digits(-i) else Digits(i) }

  // ---- values ----------------------------------------------------------------------------------------

  function Quoted(s: Text): Text { [QUOTE] + Escape(s) + [QUOTE] }

  // The text of a tree, members in the order given. The layout of a Float is not modelled.
  function Emit(v: Json): Text {
    match v
    case Null => NULL
    case Bool(b) => if b then TRUE else FALSE
    case Int(i) => Decimal(i)
    case Number(t) => t
    case Float(t) => t
    case Str(s) => Quoted(s)
    case Array(items) => [OPEN_ARRAY] + EmitItems(items) + [CLOSE_ARRAY]
    case Object(ms) => [OPEN_OBJECT] + EmitMembers(ms) + [CLOSE_OBJECT]
  }

  function EmitItems(items: seq<Json>): Text {
    if items == [] then []
    else if |items| == 1 then Emit(items[0])
    else Emit(items[0]) + [COMMA] + EmitItems(items[1..])
  }

  function EmitMembers(ms: seq<Member>): Text {
    if ms == [] then []
    else if |ms| == 1 then EmitMember(ms[0])
    else EmitMember(ms[0]) + [COMMA] + EmitMembers(ms[1..])
  }

  function EmitMember(m: Member): Text { Quoted(m.key) + [COLON] + Emit(m.value) }

  // The tree with the members of every object in byte order.
  function Sort(v: Json): Json {
    match v
    case Array(items) => Array(SortItems(items))
    case Object(ms) => Object(Collect(SortMembers(ms)))
    case _ => v
  }

  function SortItems(items: seq<Json>): (r: seq<Json>)
    ensures |r| == |items| && forall i :: 0 <= i < |r| ==> r[i] == Sort(items[i])
  {
    if items == [] then [] else [Sort(items[0])] + SortItems(items[1..])
  }

  function SortMembers(ms: seq<Member>): (r: seq<Member>)
    ensures |r| == |ms| && forall i :: 0 <= i < |r| ==> r[i] == Member(ms[i].key, Sort(ms[i].value))
  {
    if ms == [] then [] else [Member(ms[0].key, Sort(ms[0].value))] + SortMembers(ms[1..])
  }

  // Sorting the values does not change where a member goes.
  lemma {:induction false} CollectSorts(ms: seq<Member>)
    ensures Collect(SortMembers(ms)) == SortMembers(Collect(ms))
  {
    if ms != [] {
      CollectSorts(ms[1..]);
      assert SortMembers(ms)[1..] == SortMembers(ms[1..]);
      AddSorts(ms[0], Collect(ms[1..]));
    }
  }

  lemma {:induction false} AddSorts(m: Member, ms: seq<Member>)
    ensures Add(Member(m.key, Sort(m.value)), SortMembers(ms)) == SortMembers(Add(m, ms))
  {
    if ms != [] && m.key != ms[0].key && !Less(m.key, ms[0].key) {
      AddSorts(m, ms[1..]);
      assert SortMembers(ms)[1..] == SortMembers(ms[1..]);
    }
  }

  // The maps the runtime holds have no key twice.
  ghost predicate DistinctKeys(v: Json) {
    match v
    case Array(items) => forall x :: x in items ==> DistinctKeys(x)
    case Object(ms) => Distinct(ms) && forall m :: m in ms ==> DistinctKeys(m.value)
    case _ => true
  }

  predicate NoFloats(v: Json) {
    match v
    case Float(_) => false
    case Array(items) => forall x :: x in items ==> NoFloats(x)
    case Object(ms) => forall m :: m in ms ==> NoFloats(m.value)
    case _ => true
  }

  // ---- the printer ------------------------------------------------------------------------------------

  class KBuf {
    var buf: Text

    constructor ()
      ensures buf == []
    {
      buf := [];
    }

    method PutC(c: Byte)
      modifies this
      ensures buf == old(buf) + [c]
    {
      buf := buf + [c];
    }

    method PutS(s: Text)
      modifies this
      ensures buf == old(buf) + s
    {
      buf := buf + s;
    }

    method JsonEscape(s: Text)
      modifies this
      ensures buf == old(buf) + Quoted(s)
    {
      PutC(QUOTE);
      ghost var base, done := buf, [];
      var i := 0;
      while i < |s|
        invariant 0 <= i <= |s|
        invariant buf == base + done && done + Escape(s[i..]) == Escape(s)
      {
        hide EscapeByte, EscapeSeparator, Separator;
        ghost var text;
        if i + 2 < |s| && s[i] == 0xE2 && s[i + 1] == 0x80 && (s[i + 2] == 0xA8 || s[i + 2] == 0xA9) {
          SeparatorAt(s, i);
          text := EscapeSeparator(s[i + 2]);
          PutS(EscapeSeparator(s[i + 2]));
          i := i + 3;
        } else {
          ByteAt(s, i);
          text := EscapeByte(s[i]);
          PutS(EscapeByte(s[i]));
          i := i + 1;
        }
        Regroup(base, done, text, Escape(s[i..]));
        done := done + text;
      }
      assert s[i..] == [];
      PutC(QUOTE);
      assert done + [] == done;
      Enclosed(old(buf), QUOTE, done, QUOTE);
    }

    // Printing a tree appends its text with sorted members.
    method JsonWrite(v: Json)
      requires DistinctKeys(v) && NoFloats(v)
      modifies this
      ensures buf == old(buf) + Emit(Sort(v))
      decreases v, 1
    {
      match v {
        case Null => PutS(NULL);
        case Bool(b) => PutS(if b then TRUE else FALSE);
        case Int(i) => PutS(Decimal(i));
        case Number(t) => PutS(t);
        case Str(s) => JsonEscape(s);
        case Array(items) => WriteArray(v);
        case Object(ms) => WriteObject(v);
      }
    }

    method WriteArray(v: Json)
      requires v.Array? && DistinctKeys(v) && NoFloats(v)
      modifies this
      ensures buf == old(buf) + Emit(Sort(v))
      decreases v, 0
    {
      var items := v.items;
      ghost var sorted := SortItems(items);
      hide *;
      PutC(OPEN_ARRAY);
      ghost var base, done := buf, [];
      AllItems(sorted);
      for i := 0 to |items|
        invariant buf == base + done && done + ItemsFrom(sorted, i) == EmitItems(sorted)
      {
        ghost var text := (if i > 0 then [COMMA] else []) + Emit(sorted[i]);
        NextItem(sorted, i);
        Regroup(base, done, text, ItemsFrom(sorted, i + 1));
        WriteItem(v, i);
        done := done + text;
      }
      PutC(CLOSE_ARRAY);
      EmitArray(v);
      assert done + [] == done;
      Enclosed(old(buf), OPEN_ARRAY, done, CLOSE_ARRAY);
    }

    method WriteItem(v: Json, i: nat)
      requires v.Array? && i < |v.items| && DistinctKeys(v) && NoFloats(v)
      modifies this
      ensures buf == old(buf) + ((if i > 0 then [COMMA] else []) + Emit(Sort(v.items[i])))
      decreases v, 0, 0
    {
      if i > 0 { PutC(COMMA); }
      assert v.items[i] in v.items;
      JsonWrite(v.items[i]);
    }

    method WriteObject(v: Json)
      requires v.Object? && DistinctKeys(v) && NoFloats(v)
      modifies this
      ensures buf == old(buf) + Emit(Sort(v))
      decreases v, 0
    {
      var index := SortByKey(v.members);
      SortedIsCollected(index, v.members);
      CollectSorts(v.members);
      ghost var sorted := SortMembers(index);
      PermutedIn(index, v.members);
      hide *;
      PutC(OPEN_OBJECT);
      ghost var base, done := buf, [];
      AllMembers(sorted);
      for i := 0 to |index|
        invariant buf == base + done && done + MembersFrom(sorted, i) == EmitMembers(sorted)
      {
        ghost var text := (if i > 0 then [COMMA] else []) + EmitMember(sorted[i]);
        NextMember(sorted, i);
        Regroup(base, done, text, MembersFrom(sorted, i + 1));
        assert index[i] in index;
        WriteMember(v, index[i], i > 0);
        done := done + text;
      }
      PutC(CLOSE_OBJECT);
      EmitObject(v);
      assert done + [] == done;
      Enclosed(old(buf), OPEN_OBJECT, done, CLOSE_OBJECT);
    }

    method WriteMember(ghost v: Json, m: Member, comma: bool)
      requires v.Object? && m in v.members && DistinctKeys(v) && NoFloats(v)
      modifies this
      ensures buf == old(buf) + ((if comma then [COMMA] else []) + EmitMember(Member(m.key, Sort(m.value))))
      decreases v, 0, 0
    {
      hide Emit, Escape, DistinctKeys, NoFloats, Sort;
      MemberFits(v, m);
      ghost var start := buf;
      if comma { PutC(COMMA); }
      ghost var led := buf;
      JsonEscape(m.key);
      PutC(COLON);
      JsonWrite(m.value);
      assert buf == led + EmitMember(Member(m.key, Sort(m.value)));
    }
  }

  lemma MemberFits(v: Json, m: Member)
    requires v.Object? && m in v.members && DistinctKeys(v) && NoFloats(v)
    ensures DistinctKeys(m.value) && NoFloats(m.value)
  {}

  // What the loops have still to write.
  ghost function ItemsFrom(items: seq<Json>, i: nat): Text
    requires i <= |items|
  {
    (if 0 < i < |items| then [COMMA] else []) + EmitItems(items[i..])
  }

  lemma NextItem(items: seq<Json>, i: nat)
    requires i < |items|
    ensures ItemsFrom(items, i) == ((if i > 0 then [COMMA] else []) + Emit(items[i])) + ItemsFrom(items, i + 1)
  {
    assert items[i..][1..] == items[i + 1..];
  }

  ghost function MembersFrom(ms: seq<Member>, i: nat): Text
    requires i <= |ms|
  {
    (if 0 < i < |ms| then [COMMA] else []) + EmitMembers(ms[i..])
  }

  lemma NextMember(ms: seq<Member>, i: nat)
    requires i < |ms|
    ensures MembersFrom(ms, i) == ((if i > 0 then [COMMA] else []) + EmitMember(ms[i])) + MembersFrom(ms, i + 1)
  {
    assert ms[i..][1..] == ms[i + 1..];
  }

  lemma Regroup(base: Text, done: Text, text: Text, rest: Text)
    ensures done + (text + rest) == done + text + rest
    ensures base + done + text == base + (done + text)
  {}

  lemma Enclosed(before: Text, open: Byte, inner: Text, close: Byte)
    ensures before + [open] + inner + [close] == before + ([open] + inner + [close])
  {}

  lemma PermutedIn(a: seq<Member>, b: seq<Member>)
    requires multiset(a) == multiset(b)
    ensures forall m :: m in a ==> m in b
  {
    forall m | m in a ensures m in b { assert m in multiset(a); }
  }

  lemma SeparatorAt(s: Text, i: nat)
    requires i + 2 < |s| && s[i] == 0xE2 && s[i + 1] == 0x80 && (s[i + 2] == 0xA8 || s[i + 2] == 0xA9)
    ensures Escape(s[i..]) == EscapeSeparator(s[i + 2]) + Escape(s[i + 3..])
  {
    assert s[i..][3..] == s[i + 3..] && s[i..][2] == s[i + 2];
  }

  lemma ByteAt(s: Text, i: nat)
    requires i < |s| && !(i + 2 < |s| && s[i] == 0xE2 && s[i + 1] == 0x80 && (s[i + 2] == 0xA8 || s[i + 2] == 0xA9))
    ensures Escape(s[i..]) == EscapeByte(s[i]) + Escape(s[i + 1..])
  {
    assert s[i..][1..] == s[i + 1..];
  }

  lemma AllItems(items: seq<Json>)
    ensures ItemsFrom(items, 0) == EmitItems(items) && ItemsFrom(items, |items|) == []
  {
    assert items[0..] == items;
  }

  lemma AllMembers(ms: seq<Member>)
    ensures MembersFrom(ms, 0) == EmitMembers(ms) && MembersFrom(ms, |ms|) == []
  {
    assert ms[0..] == ms;
  }

  lemma EmitArray(v: Json)
    requires v.Array?
    ensures Emit(Sort(v)) == [OPEN_ARRAY] + EmitItems(SortItems(v.items)) + [CLOSE_ARRAY]
  {}

  lemma EmitObject(v: Json)
    requires v.Object?
    ensures Emit(Sort(v)) == [OPEN_OBJECT] + EmitMembers(Collect(SortMembers(v.members))) + [CLOSE_OBJECT]
  {}
}
