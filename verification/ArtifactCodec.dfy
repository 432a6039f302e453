// The native artifact: its byte layout in the four versions that are still read, and the decoder.
module ArtifactCodec {

  import opened Wrappers
  import opened ByteOrder

  // ---- little-endian integers --------------------------------------------------------------------

  function Value(bs: Bytes): nat { if bs == [] then 0 else bs[0] as int + 256 * Value(bs[1..]) }

  lemma {:induction false} ValueOfLE(n: nat, k: nat)
    requires n < Pow256(k)
    ensures Value(LE(n, k)) == n
  {
    if k > 0 {
      ValueOfLE(n / 256, k - 1);
      assert LE(n, k)[1..] == LE(n / 256, k - 1);
    }
  }

  lemma {:induction false} LEOfValue(bs: Bytes)
    ensures Value(bs) < Pow256(|bs|) && LE(Value(bs), |bs|) == bs
  {
    if bs != [] {
      LEOfValue(bs[1..]);
      var v := bs[0] as int + 256 * Value(bs[1..]);
      assert v % 256 == bs[0] && v / 256 == Value(bs[1..]);
    }
  }

  // ---- the reader ------------------------------------------------------------------------------------

  // A value and the bytes behind it, or failure of either kind.
  datatype Read<+T> = Got(value: T, rest: Bytes) | Malformed | OverLimit

  function Min(a: nat, b: nat): nat { if a < b then a else b }

  // A read fails at the end of the input, even a read of nothing, and otherwise takes what there is.
  function ReadSome(s: Bytes, n: nat): Read<Bytes> {
    if s == [] then Malformed else Got(s[..Min(n, |s|)], s[Min(n, |s|)..])
  }

  // A full read: a shorter one is a failure.
  function ReadExactly(s: Bytes, n: nat): Read<Bytes> {
    match ReadSome(s, n)
    case Got(bs, rest) => if |bs| == n then Got(bs, rest) else Malformed
    case e => e
  }

  // Integers accept a short read; the missing high bytes count as zero.
  function ReadInt(s: Bytes, width: nat): Read<nat> {
    match ReadSome(s, width)
    case Got(bs, rest) => Got(Value(bs), rest)
    case _ => Malformed
  }

  function ReadString(s: Bytes, max: nat): Read<Bytes> {
    match ReadInt(s, 8)
    case Got(n, rest) => if n > max || n > |rest| then Malformed else ReadSome(rest, n)
    case _ => Malformed
  }

  // ---- artifacts -------------------------------------------------------------------------------------

  // "<root>" and the header tag "KRY"
  const ROOT: Bytes := [0x3C, 0x72, 0x6F, 0x6F, 0x74, 0x3E]
  const TAG: Bytes := [0x4B, 0x52, 0x59]

  // "KRYNATIVE", the version's digit and a zero byte
  function Magic(version: nat): (r: Bytes)
    requires 3 <= version <= 6
    ensures |r| == 11
  {
    [0x4B, 0x52, 0x59, 0x4E, 0x41, 0x54, 0x49, 0x56, 0x45, 0x30 + version, 0]
  }

  function VersionOf(magic: Bytes): Option<nat> {
    if magic == Magic(6) then Some(6) else if magic == Magic(5) then Some(5)
    else if magic == Magic(4) then Some(4) else if magic == Magic(3) then Some(3) else None
  }

  datatype KirVerdict = Fine | TooManyInstructions | Broken

  // What the codec takes from elsewhere: the digest, the checks of its contents, the names of this
  // build, and the limits.
  datatype Env = Env(
    sha: Bytes -> Bytes, utf8: Bytes -> bool, kir: Bytes -> KirVerdict,
    compiler: Bytes, legacyCompiler: Bytes, language: Bytes, host: Bytes, portable: Bytes,
    maxImports: nat, maxSourceBytes: nat, maxArtifactBytes: nat)
  {
    // Digests have 32 bytes, the names fit their fields, and sizes fit their integers.
    ghost predicate Valid() {
      && (forall x :: |sha(x)| == 32)
      && 0 < |compiler| <= 256 && 0 < |legacyCompiler| <= 256 && 0 < |language| <= 64 && 0 < |host| <= 64 && 0 < |portable| <= 64
      && maxImports + 1 < Pow256(4) && maxSourceBytes < Pow256(8) && maxArtifactBytes < Pow256(8)
    }

    function Compiler(version: nat): Bytes { if version == 3 then legacyCompiler else compiler }

    function Target(version: nat): Bytes { if version >= 6 then portable else host }
  }

  datatype Entry = Entry(path: Bytes, scope: Bytes, data: Bytes, hash: Bytes)

  datatype Artifact = Artifact(compiler: Bytes, target: Bytes, language: Bytes, entries: seq<Entry>, kir: Bytes)

  // A component ".." anywhere.
  predicate HasParent(p: Bytes) {
    exists i :: 0 <= i && i + 2 <= |p| && ParentAt(p, i)
  }

  predicate ParentAt(p: Bytes, i: nat)
    requires i + 2 <= |p|
  {
    p[i] == 0x2E && p[i + 1] == 0x2E && (i == 0 || p[i - 1] == 0x2F) && (i + 2 == |p| || p[i + 2] == 0x2F)
  }

  predicate SafePath(p: Bytes) {
    p != [] && 0 !in p && p[0] != 0x2F && !HasParent(p) && p != [0x2E] && p != [0x2E, 0x2E]
  }

  predicate SafeScope(p: Bytes) { p == ROOT || SafePath(p) }

  // ---- encoding --------------------------------------------------------------------------------------

  function Str(s: Bytes): Bytes { LE(|s|, 8) + s }

  function EncodeEntry(version: nat, e: Entry): Bytes {
    Str(e.path) + ((if version >= 5 then Str(e.scope) else []) + (LE(|e.data|, 8) + (e.hash + e.data)))
  }

  function EncodeEntries(version: nat, es: seq<Entry>): Bytes {
    if es == [] then [] else EncodeEntry(version, es[0]) + EncodeEntries(version, es[1..])
  }

  function EncodeKir(env: Env, version: nat, kir: Bytes): Bytes {
    if version >= 6 then LE(|kir|, 8) + (env.sha(kir) + kir) else []
  }

  function Encode(env: Env, version: nat, a: Artifact): Bytes
    requires 3 <= version <= 6
  {
    Magic(version) + (LE(version, 4) + (Str(a.compiler) + ((if version >= 4 then Str(a.language) else [])
    + (TAG + (Str(a.target) + (LE(|a.entries|, 4) + (EncodeEntries(version, a.entries) + EncodeKir(env, version, a.kir))))))))
  }

  // ---- what a decoded artifact is --------------------------------------------------------------------

  predicate EntryOk(env: Env, version: nat, e: Entry) {
    && (SafePath(e.path) || e.path == ROOT) && |e.path| <= env.maxSourceBytes
    && (if version >= 5 then SafeScope(e.scope) && |e.scope| <= env.maxSourceBytes else e.scope == [])
    && |e.data| <= env.maxSourceBytes && e.hash == env.sha(e.data) && env.utf8(e.data)
  }

  // Entries behind some that were read: the root comes first and only there, and no path twice.
  predicate EntriesOk(env: Env, version: nat, seen: set<Bytes>, es: seq<Entry>)
    decreases es
  {
    es != [] ==>
      EntryOk(env, version, es[0]) && es[0].path !in seen && (es[0].path == ROOT <==> seen == {})
      && EntriesOk(env, version, seen + {es[0].path}, es[1..])
  }

  // What the fields must be, whatever the intermediate representation says.
  ghost predicate Encodable(env: Env, version: nat, a: Artifact) {
    && 3 <= version <= 6
    && a.compiler == env.Compiler(version) && a.target == env.Target(version) && a.language == env.language
    && 0 < |a.entries| <= env.maxImports + 1 && EntriesOk(env, version, {}, a.entries)
    && (if version >= 6 then |a.kir| <= env.maxArtifactBytes && a.kir != [] else a.kir == [])
    && |Encode(env, version, a)| <= env.maxArtifactBytes
  }

  // The verdict on the intermediate representation; the versions before 6 have none.
  function VerdictOn(env: Env, version: nat, kir: Bytes): KirVerdict { if version >= 6 then env.kir(kir) else Fine }

  ghost predicate ValidFor(env: Env, version: nat, a: Artifact) { Encodable(env, version, a) && VerdictOn(env, version, a.kir) == Fine }

  // ---- decoding --------------------------------------------------------------------------------------

  // A length, a digest and that many bytes with the digest.
  function ReadHashed(env: Env, s: Bytes, max: nat): Read<Bytes> {
    match ReadInt(s, 8)
    case Got(size, rest) =>
      if size > max || |rest| < 32 || size > |rest| - 32 then Malformed
      else
        (match ReadExactly(rest, 32)
         case Got(hash, body) =>
           (match ReadExactly(body, size)
            case Got(data, last) => if env.sha(data) == hash then Got(data, last) else Malformed
            case _ => Malformed)
         case _ => Malformed)
    case _ => Malformed
  }

  function ReadScope(env: Env, version: nat, s: Bytes): Read<Bytes> {
    if version >= 5 then
      match ReadString(s, env.maxSourceBytes)
      case Got(scope, rest) => if SafeScope(scope) then Got(scope, rest) else Malformed
      case _ => Malformed
    else Got([], s)
  }

  function ReadEntry(env: Env, version: nat, seen: set<Bytes>, s: Bytes): Read<Entry> {
    match ReadString(s, env.maxSourceBytes)
    case Got(path, afterPath) =>
      if !SafePath(path) && path != ROOT then Malformed
      else if (path == ROOT) != (seen == {}) then Malformed
      else if path in seen then Malformed
      else
        (match ReadScope(env, version, afterPath)
         case Got(scope, afterScope) =>
           (match ReadHashed(env, afterScope, env.maxSourceBytes)
            case Got(data, rest) => if env.utf8(data) then Got(Entry(path, scope, data, env.sha(data)), rest) else Malformed
            case _ => Malformed)
         case _ => Malformed)
    case _ => Malformed
  }

  function ReadEntries(env: Env, version: nat, seen: set<Bytes>, n: nat, s: Bytes): Read<seq<Entry>>
    decreases n
  {
    if n == 0 then Got([], s)
    else
      match ReadEntry(env, version, seen, s)
      case Got(e, rest) =>
        (match ReadEntries(env, version, seen + {e.path}, n - 1, rest)
         case Got(es, last) => Got([e] + es, last)
         case f => f)
      case _ => Malformed
  }

  function ReadKir(env: Env, version: nat, s: Bytes): Read<Bytes> {
    if version < 6 then Got([], s)
    else
      match ReadHashed(env, s, env.maxArtifactBytes)
      case Got(kir, rest) =>
        (match env.kir(kir)
         case Fine => Got(kir, rest)
         case TooManyInstructions => OverLimit
         case Broken => Malformed)
      case _ => Malformed
  }

  function ReadNamed(s: Bytes, max: nat, expected: Bytes): Read<Bytes> {
    match ReadString(s, max)
    case Got(name, rest) => if name == expected then Got(name, rest) else Malformed
    case _ => Malformed
  }

  function ReadLanguage(env: Env, version: nat, s: Bytes): Read<Bytes> {
    if version >= 4 then ReadNamed(s, 64, env.language) else Got(env.language, s)
  }

  // From the entry count to the end.
  function ReadBody(env: Env, version: nat, s: Bytes): Read<(seq<Entry>, Bytes)> {
    match ReadInt(s, 4)
    case Got(n, rest) =>
      if n == 0 || n > env.maxImports + 1 then Malformed
      else
        (match ReadEntries(env, version, {}, n, rest)
         case Got(es, afterEntries) =>
           (match ReadKir(env, version, afterEntries)
            case Got(kir, last) => if last == [] then Got((es, kir), last) else Malformed
            case OverLimit => OverLimit
            case Malformed => Malformed)
         case _ => Malformed)
    case _ => Malformed
  }

  // From the tag to the end.
  function ReadTagged(env: Env, version: nat, s: Bytes): Read<(seq<Entry>, Bytes)> {
    match ReadExactly(s, 3)
    case Got(tag, rest) =>
      if tag != TAG then Malformed
      else
        (match ReadNamed(rest, 64, env.Target(version))
         case Got(_, afterTarget) => ReadBody(env, version, afterTarget)
         case _ => Malformed)
    case _ => Malformed
  }

  // From the version number to the end.
  function ReadVersioned(env: Env, version: nat, s: Bytes): Read<(seq<Entry>, Bytes)> {
    match ReadInt(s, 4)
    case Got(v, rest) =>
      if v != version then Malformed
      else
        (match ReadNamed(rest, 256, env.Compiler(version))
         case Got(_, afterCompiler) =>
           (match ReadLanguage(env, version, afterCompiler)
            case Got(_, afterLanguage) => ReadTagged(env, version, afterLanguage)
            case _ => Malformed)
         case _ => Malformed)
    case _ => Malformed
  }

  datatype Decoded = Decoded(version: nat, artifact: Artifact) | Rejected | TooLarge

  function Decode(env: Env, data: Bytes): Decoded {
    if |data| > env.maxArtifactBytes then TooLarge
    else
      match ReadExactly(data, 11)
      case Got(magic, rest) =>
        (match VersionOf(magic)
         case Some(version) =>
           (match ReadVersioned(env, version, rest)
            case Got((es, kir), _) => Decoded(version, Artifact(env.Compiler(version), env.Target(version), env.language, es, kir))
            case OverLimit => TooLarge
            case Malformed => Rejected)
         case None => Rejected)
      case _ => Rejected
  }
}
