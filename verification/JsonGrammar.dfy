// What the C runtime's recursive JSON parser accepts, as functions of the remaining text.
module JsonGrammar {
  import opened Wrappers
  import opened JsonUtf8
  import opened JsonTree
  import opened JsonWriter

  datatype Error = BadEscape | ControlCharacter | Unterminated | BadNumber | UnexpectedEnd | TooDeep | BadKey | BadObject | BadArray | BadLiteral

  datatype Parsed<+T> = Ok(value: T, rest: Text) | Err(error: Error)

  const MAX_DEPTH: nat := 256

  function SkipWs(s: Text): (r: Text)
    ensures |r| <= |s|
  {
    if s != [] && (s[0] == 0x20 || s[0] == 0x09 || s[0] == 0x0A || s[0] == 0x0D) then SkipWs(s[1..]) else s
  }

  predicate Starts(s: Text, c: Byte) { s != [] && s[0] == c }

  // ---- strings --------------------------------------------------------------------------------------

  function HexValue(c: Byte): Option<nat> {
    if 0x30 <= c <= 0x39 then Some(c - 0x30)
    else if 0x61 <= c <= 0x66 then Some(c - 0x57)
    else if 0x41 <= c <= 0x46 then Some(c - 0x37)
    else None
  }

  function Hex4(s: Text): (r: Parsed<nat>)
    ensures r.Ok? ==> |s| >= 4 && r.rest == s[4..] && r.value < 0x10000
  {
    if |s| < 4 then Err(BadEscape)
    else
      match (HexValue(s[0]), HexValue(s[1]), HexValue(s[2]), HexValue(s[3]))
      case (Some(a), Some(b), Some(c), Some(d)) =>
        HexInRange(s[0]); HexInRange(s[1]); HexInRange(s[2]); HexInRange(s[3]);
        Ok(a * 4096 + b * 256 + c * 16 + d, s[4..])
      case _ => Err(BadEscape)
  }

  lemma HexInRange(c: Byte)
    ensures HexValue(c).Some? ==> HexValue(c).value < 16
  {}

  predicate HighSurrogate(cp: nat) { 0xD800 <= cp <= 0xDBFF }

  predicate LowSurrogate(cp: nat) { 0xDC00 <= cp <= 0xDFFF }

  // The code point of a \u escape, after the u. A surrogate without its partner becomes U+FFFD and
  // leaves what follows it in place.
  function UnicodeEscape(s: Text): (r: Parsed<nat>)
    ensures r.Ok? ==> |r.rest| <= |s| && Scalar(r.value)
  {
    match Hex4(s)
    case Err(e) => Err(e)
    case Ok(cp, rest) =>
      if HighSurrogate(cp) then
        if |rest| >= 2 && rest[0] == BACKSLASH && rest[1] == 0x75 then
          match Hex4(rest[2..])
          case Err(e) => Err(e)
          case Ok(lo, after) => if LowSurrogate(lo) then Ok(0x10000 + (cp - 0xD800) * 1024 + (lo - 0xDC00), after) else Ok(REPLACEMENT, rest)
        else Ok(REPLACEMENT, rest)
      else if LowSurrogate(cp) then Ok(REPLACEMENT, rest)
      else Ok(cp, rest)
  }

  function SimpleEscape(e: Byte): Option<Byte> {
    if e == QUOTE || e == BACKSLASH || e == 0x2F then Some(e)
    else if e == 0x62 then Some(0x08)
    else if e == 0x66 then Some(0x0C)
    else if e == 0x6E then Some(0x0A)
    else if e == 0x72 then Some(0x0D)
    else if e == 0x74 then Some(0x09)
    else None
  }

  function Prepend(front: Text, r: Parsed<Text>): Parsed<Text> {
    match r
    case Ok(v, rest) => Ok(front + v, rest)
    case Err(e) => Err(e)
  }

  // A string after its opening quote.
  function StringBody(s: Text): (r: Parsed<Text>)
    ensures r.Ok? ==> |r.rest| < |s|
  {
    if s == [] then Err(Unterminated)
    else if s[0] == QUOTE then Ok([], s[1..])
    else if s[0] == BACKSLASH then
      if |s| < 2 then Err(Unterminated)
      else if s[1] == 0x75 then
        match UnicodeEscape(s[2..])
        case Err(e) => Err(e)
        case Ok(cp, rest) => Prepend(Utf8(cp), StringBody(rest))
      else
        match SimpleEscape(s[1])
        case None => Err(BadEscape)
        case Some(c) => Prepend([c], StringBody(s[2..]))
    else if s[0] < 0x20 then Err(ControlCharacter)
    else if s[0] < 0x80 then Prepend([s[0]], StringBody(s[1..]))
    else if Sequence(s) == 0 then Prepend(Utf8(REPLACEMENT), StringBody(s[1..]))
    else Prepend(s[..Sequence(s)], StringBody(s[Sequence(s)..]))
  }

  // ---- numbers ---------------------------------------------------------------------------------------

  predicate IsDigit(c: Byte) { 0x30 <= c <= 0x39 }

  function DigitRun(s: Text): (n: nat)
    ensures n <= |s|
  {
    if s != [] && IsDigit(s[0]) then 1 + DigitRun(s[1..]) else 0
  }

  predicate DigitAt(s: Text, i: nat) { i < |s| && IsDigit(s[i]) }

  // Where the integer part, the fraction and the exponent end.
  function IntegerEnd(s: Text): (r: Option<nat>)
    ensures r.Some? ==> 0 < r.value <= |s|
  {
    var a := if Starts(s, MINUS) then 1 else 0;
    if !DigitAt(s, a) then None
    else if s[a] == 0x30 then Some(a + 1)
    else Some(a + DigitRun(s[a..]))
  }

  function FractionEnd(s: Text, b: nat): (r: Option<nat>)
    requires b <= |s|
    ensures r.Some? ==> b <= r.value <= |s|
  {
    if b == |s| || s[b] != 0x2E then Some(b)
    else if !DigitAt(s, b + 1) then None
    else Some(b + 1 + DigitRun(s[b + 1..]))
  }

  function ExponentEnd(s: Text, c: nat): (r: Option<nat>)
    requires c <= |s|
    ensures r.Some? ==> c <= r.value <= |s|
  {
    if c == |s| || (s[c] != 0x65 && s[c] != 0x45) then Some(c)
    else
      var d := if c + 1 < |s| && (s[c + 1] == 0x2B || s[c + 1] == MINUS) then c + 2 else c + 1;
      if !DigitAt(s, d) then None else Some(d + DigitRun(s[d..]))
  }

  function Natural(s: Text): nat
    requires AllDigits(s)
  {
    if s == [] then 0 else 10 * Natural(s[..|s| - 1]) + DigitValue(s[|s| - 1])
  }

  function DigitValue(c: Byte): nat
    requires IsDigit(c)
  {
    c - 0x30
  }

  predicate AllDigits(s: Text) { forall i :: 0 <= i < |s| ==> IsDigit(s[i]) }

  // A run of digits with an optional sign.
  predicate Integral(t: Text) {
    AllDigits(if Starts(t, MINUS) then t[1..] else t)
  }

  function IntegerValue(t: Text): int
    requires Integral(t)
  {
    if Starts(t, MINUS) then 0 - Natural(t[1..]) else Natural(t)
  }

  // An integer in the signed 64-bit range becomes an Int; one outside it keeps its spelling.
  function IntegerNode(t: Text): Json
    requires Integral(t)
  {
    if MIN_INT <= IntegerValue(t) <= MAX_INT then Int(IntegerValue(t)) else Number(t)
  }

  lemma {:induction false} DigitRunDigits(s: Text)
    ensures AllDigits(s[..DigitRun(s)])
    ensures DigitRun(s) < |s| ==> !IsDigit(s[DigitRun(s)])
  {
    if s != [] && IsDigit(s[0]) {
      DigitRunDigits(s[1..]);
      assert s[..DigitRun(s)] == [s[0]] + s[1..][..DigitRun(s[1..])];
    }
  }

  lemma IntegerIsIntegral(s: Text)
    requires IntegerEnd(s).Some?
    ensures Integral(s[..IntegerEnd(s).value])
  {
    var a := if Starts(s, MINUS) then 1 else 0;
    var t := s[..IntegerEnd(s).value];
    DigitRunDigits(s[a..]);
    forall i | a <= i < |t| ensures IsDigit(t[i]) {
      if s[a] != 0x30 { assert t[i] == s[a..][i - a]; }
    }
  }

  function ParseNumber(s: Text): (r: Parsed<Json>)
    ensures r.Ok? ==> |r.rest| < |s|
  {
    match IntegerEnd(s)
    case None => Err(BadNumber)
    case Some(b) =>
      match FractionEnd(s, b)
      case None => Err(BadNumber)
      case Some(c) =>
        match ExponentEnd(s, c)
        case None => Err(BadNumber)
        case Some(e) =>
          if e == b then IntegerIsIntegral(s); Ok(IntegerNode(s[..b]), s[b..])
          else Ok(Float(s[..e]), s[e..])
  }

  // ---- values ----------------------------------------------------------------------------------------

  function Literal(s: Text, word: Text, v: Json): (r: Parsed<Json>)
    ensures r.Ok? ==> |word| <= |s| && r.rest == s[|word|..]
  {
    if word <= s then Ok(v, s[|word|..]) else Err(BadLiteral)
  }

  function ParseValue(s: Text, depth: nat): (r: Parsed<Json>)
    ensures r.Ok? ==> |r.rest| < |s|
    decreases |s|, 1
  {
    ParseToken(SkipWs(s), depth)
  }

  function ParseToken(t: Text, depth: nat): (r: Parsed<Json>)
    ensures r.Ok? ==> |r.rest| < |t|
    decreases |t|, 0
  {
    if t == [] then Err(UnexpectedEnd)
    else if t[0] == OPEN_OBJECT then
      if depth >= MAX_DEPTH then Err(TooDeep)
      else
        var u := SkipWs(t[1..]);
        if Starts(u, CLOSE_OBJECT) then Ok(Object([]), u[1..])
        else
          match ParseMembers(u, depth + 1)
          case Ok(ms, rest) => Ok(Object(Collect(ms)), rest)
          case Err(e) => Err(e)
    else if t[0] == OPEN_ARRAY then
      if depth >= MAX_DEPTH then Err(TooDeep)
      else
        var u := SkipWs(t[1..]);
        if Starts(u, CLOSE_ARRAY) then Ok(Array([]), u[1..])
        else
          match ParseItems(u, depth + 1)
          case Ok(items, rest) => Ok(Array(items), rest)
          case Err(e) => Err(e)
    else if t[0] == QUOTE then
      match StringBody(t[1..])
      case Ok(text, rest) => Ok(Str(text), rest)
      case Err(e) => Err(e)
    else if t[0] == TRUE[0] then Literal(t, TRUE, Bool(true))
    else if t[0] == FALSE[0] then Literal(t, FALSE, Bool(false))
    else if t[0] == NULL[0] then Literal(t, NULL, Null)
    else ParseNumber(t)
  }

  // The rest of a non-empty array.
  function ParseItems(s: Text, depth: nat): (r: Parsed<seq<Json>>)
    ensures r.Ok? ==> |r.rest| < |s|
    decreases |s|, 2
  {
    match ParseValue(s, depth)
    case Err(e) => Err(e)
    case Ok(v, rest) =>
      var t := SkipWs(rest);
      if Starts(t, COMMA) then
        match ParseItems(t[1..], depth)
        case Ok(items, last) => Ok([v] + items, last)
        case Err(e) => Err(e)
      else if Starts(t, CLOSE_ARRAY) then Ok([v], t[1..])
      else Err(BadArray)
  }

  // One member: a key, a colon, a value.
  function ParseMember(s: Text, depth: nat): (r: Parsed<Member>)
    ensures r.Ok? ==> |r.rest| < |s|
    decreases |s|, 2
  {
    var t := SkipWs(s);
    if !Starts(t, QUOTE) then Err(BadKey)
    else
      match StringBody(t[1..])
      case Err(e) => Err(e)
      case Ok(key, rest) =>
        var u := SkipWs(rest);
        if !Starts(u, COLON) then Err(BadObject)
        else
          match ParseValue(u[1..], depth)
          case Err(e) => Err(e)
          case Ok(v, last) => Ok(Member(key, v), last)
  }

  function ParseMembers(s: Text, depth: nat): (r: Parsed<seq<Member>>)
    ensures r.Ok? ==> |r.rest| < |s|
    decreases |s|, 3
  {
    match ParseMember(s, depth)
    case Err(e) => Err(e)
    case Ok(m, rest) =>
      var t := SkipWs(rest);
      if Starts(t, COMMA) then
        match ParseMembers(t[1..], depth)
        case Ok(ms, last) => Ok([m] + ms, last)
        case Err(e) => Err(e)
      else if Starts(t, CLOSE_OBJECT) then Ok([m], t[1..])
      else Err(BadObject)
  }

  // A whole text: one value and white space.
  function ParseText(s: Text): Option<Json> {
    match ParseValue(s, 0)
    case Err(_) => None
    case Ok(v, rest) => if SkipWs(rest) == [] then Some(v) else None
  }
}
