// Decoding undoes encoding, and accepts nothing else.
module ArtifactBijection {
  import opened Wrappers
  import opened ByteOrder
  import opened ArtifactCodec

  // ---- reading back ----------------------------------------------------------------------------------

  lemma IntReads(n: nat, k: nat, rest: Bytes)
    requires n < Pow256(k) && k > 0
    ensures ReadInt(LE(n, k) + rest, k) == Got(n, rest)
  {
    ValueOfLE(n, k);
    assert (LE(n, k) + rest)[..k] == LE(n, k) && (LE(n, k) + rest)[k..] == rest;
  }

  lemma StringReads(x: Bytes, max: nat, rest: Bytes)
    requires |x| <= max < Pow256(8) && (x != [] || rest != [])
    ensures ReadString(Str(x) + rest, max) == Got(x, rest)
  {
    hide LE, Pow256;
    IntReads(|x|, 8, x + rest);
    assert Str(x) + rest == LE(|x|, 8) + (x + rest);
    assert (x + rest)[..|x|] == x && (x + rest)[|x|..] == rest;
  }

  lemma NameReads(x: Bytes, max: nat, rest: Bytes)
    requires 0 < |x| <= max < Pow256(8)
    ensures ReadNamed(Str(x) + rest, max, x) == Got(x, rest)
  {
    StringReads(x, max, rest);
  }

  lemma ExactlyReads(x: Bytes, n: nat, rest: Bytes)
    requires |x| == n
    ensures ReadExactly(x + rest, n) == if x == [] && rest == [] then Malformed else Got(x, rest)
  {
    assert (x + rest)[..n] == x && (x + rest)[n..] == rest;
  }

  // Nothing at all cannot be read at the end of the input.
  lemma HashedReads(env: Env, d: Bytes, max: nat, rest: Bytes)
    requires env.Valid() && |d| <= max < Pow256(8)
    ensures ReadHashed(env, LE(|d|, 8) + (env.sha(d) + (d + rest)), max) == if d == [] && rest == [] then Malformed else Got(d, rest)
  {
    hide LE, Pow256;
    var hash := env.sha(d);
    IntReads(|d|, 8, hash + (d + rest));
    ExactlyReads(hash, 32, d + rest);
    ExactlyReads(d, |d|, rest);
  }

  lemma EntryReads(env: Env, version: nat, seen: set<Bytes>, e: Entry, rest: Bytes)
    requires env.Valid() && EntryOk(env, version, e) && e.path !in seen && (e.path == ROOT <==> seen == {})
    ensures ReadEntry(env, version, seen, EncodeEntry(version, e) + rest) == if e.data == [] && rest == [] then Malformed else Got(e, rest)
  {
    hide LE, SafePath, Pow256, Str, ReadString, ReadHashed;
    var tail := LE(|e.data|, 8) + (e.hash + (e.data + rest));
    var scoped := (if version >= 5 then Str(e.scope) else []) + tail;
    SafeIsNotEmpty(e.path);
    SafeIsNotEmpty(e.scope);
    assert EncodeEntry(version, e) + rest == Str(e.path) + scoped;
    StringReads(e.path, env.maxSourceBytes, scoped);
    if version >= 5 { StringReads(e.scope, env.maxSourceBytes, tail); } else { assert scoped == tail; }
    HashedReads(env, e.data, env.maxSourceBytes, rest);
  }

  lemma SafeIsNotEmpty(p: Bytes)
    ensures SafePath(p) || p == ROOT ==> p != []
  {}

  // The last entry's data, which an artifact without KIR ends in.
  predicate EndsInData(es: seq<Entry>) { es != [] && es[|es| - 1].data != [] }

  lemma {:induction false} EntriesRead(env: Env, version: nat, seen: set<Bytes>, es: seq<Entry>, rest: Bytes)
    requires env.Valid() && EntriesOk(env, version, seen, es)
    ensures ReadEntries(env, version, seen, |es|, EncodeEntries(version, es) + rest)
      == if es == [] || EndsInData(es) || rest != [] then Got(es, rest) else Malformed
    decreases es
  {
    hide ReadEntry, EncodeEntry, EntryOk;
    if es == [] {
      assert EncodeEntries(version, es) + rest == rest;
    } else {
      var tail := EncodeEntries(version, es[1..]) + rest;
      assert EncodeEntries(version, es) + rest == EncodeEntry(version, es[0]) + tail;
      EntryReads(env, version, seen, es[0], tail);
      if |es| > 1 {
        EntryIsNotEmpty(version, es[1]);
        EntriesRead(env, version, seen + {es[0].path}, es[1..], rest);
        assert [es[0]] + es[1..] == es;
      } else {
        assert tail == rest && [es[0]] + [] == es;
        if es[0].data != [] || rest != [] { EntriesRead(env, version, seen + {es[0].path}, es[1..], rest); }
      }
    }
  }

  lemma EntryIsNotEmpty(version: nat, e: Entry)
    ensures EncodeEntry(version, e) != []
  {}

  lemma KirReads(env: Env, version: nat, kir: Bytes)
    requires env.Valid() && 3 <= version <= 6
    requires if version >= 6 then |kir| <= env.maxArtifactBytes && kir != [] else kir == []
    ensures ReadKir(env, version, EncodeKir(env, version, kir)) ==
      match VerdictOn(env, version, kir) { case Fine => Got(kir, []) case TooManyInstructions => OverLimit case Broken => Malformed }
  {
    hide LE, Pow256, ReadHashed;
    if version >= 6 {
      HashedReads(env, kir, env.maxArtifactBytes, []);
      assert kir + [] == kir;
    }
  }

  // An artifact whose reading does not end in a read of nothing.
  predicate Readable(version: nat, a: Artifact) { version == 6 || EndsInData(a.entries) }

  lemma BodyReads(env: Env, version: nat, a: Artifact)
    requires env.Valid() && Encodable(env, version, a)
    ensures ReadBody(env, version, LE(|a.entries|, 4) + (EncodeEntries(version, a.entries) + EncodeKir(env, version, a.kir)))
      == if !Readable(version, a) then Malformed
         else match VerdictOn(env, version, a.kir) { case Fine => Got((a.entries, a.kir), []) case TooManyInstructions => OverLimit case Broken => Malformed }
  {
    hide LE, Pow256, ReadEntries, EncodeEntries, ReadKir, Encode, EntriesOk;
    var kir := EncodeKir(env, version, a.kir);
    KirIsThere(env, version, a.kir);
    FewEntries(env, a);
    IntReads(|a.entries|, 4, EncodeEntries(version, a.entries) + kir);
    EntriesRead(env, version, {}, a.entries, kir);
    KirReads(env, version, a.kir);
  }

  lemma KirIsThere(env: Env, version: nat, kir: Bytes)
    ensures EncodeKir(env, version, kir) == [] <==> version < 6
  {}

  lemma FewEntries(env: Env, a: Artifact)
    requires env.Valid() && |a.entries| <= env.maxImports + 1
    ensures |a.entries| < Pow256(4)
  {}

  lemma VersionFits(version: nat)
    requires 3 <= version <= 6
    ensures version < Pow256(4) && 256 < Pow256(8) && VersionOf(Magic(version)) == Some(version)
  {
    assert Pow256(1) == 256 * Pow256(0) && Pow256(2) == 256 * Pow256(1) && Pow256(3) == 256 * Pow256(2) && Pow256(4) == 256 * Pow256(3);
    assert Pow256(5) == 256 * Pow256(4) && Pow256(6) == 256 * Pow256(5) && Pow256(7) == 256 * Pow256(6) && Pow256(8) == 256 * Pow256(7);
  }

  // Decoding what was encoded gives the artifact back, except where a version without KIR ends in
  // an empty source: that read of nothing at the end of the input fails. A KIR that is not fine is refused,
  // as too large when its instructions are too many.
  lemma DecodeAfterEncode(env: Env, version: nat, a: Artifact)
    requires env.Valid() && Encodable(env, version, a)
    ensures Decode(env, Encode(env, version, a))
      == if !Readable(version, a) then Rejected
         else match VerdictOn(env, version, a.kir) { case Fine => Decoded(version, a) case TooManyInstructions => TooLarge case Broken => Rejected }
  {
    hide LE, Pow256, Str, ReadBody, EncodeEntries, EncodeKir, EntriesOk, ReadNamed, Magic, VersionOf, ReadInt;
    VersionFits(version);
    BodyReads(env, version, a);
    var body := LE(|a.entries|, 4) + (EncodeEntries(version, a.entries) + EncodeKir(env, version, a.kir));
    var targeted := Str(a.target) + body;
    var tagged := TAG + targeted;
    var languaged := (if version >= 4 then Str(a.language) else []) + tagged;
    var compiled := Str(a.compiler) + languaged;
    var versioned := LE(version, 4) + compiled;
    ExactlyReads(Magic(version), 11, versioned);
    IntReads(version, 4, compiled);
    NameReads(a.compiler, 256, languaged);
    if version >= 4 { NameReads(a.language, 64, tagged); } else { assert languaged == tagged; }
    ExactlyReads(TAG, 3, targeted);
    NameReads(a.target, 64, body);
    assert Encode(env, version, a) == Magic(version) + versioned;
  }

  // ---- nothing else is accepted ------------------------------------------------------------------------

  // A short integer leaves nothing behind it, so one with something behind it was whole.
  lemma IntExact(s: Bytes, k: nat)
    requires k > 0 && ReadInt(s, k).Got? && ReadInt(s, k).rest != []
    ensures s == LE(ReadInt(s, k).value, k) + ReadInt(s, k).rest && ReadInt(s, k).value < Pow256(k)
  {
    LEOfValue(s[..k]);
  }

  lemma StringExact(s: Bytes, max: nat)
    requires ReadString(s, max).Got?
    ensures s == Str(ReadString(s, max).value) + ReadString(s, max).rest && |ReadString(s, max).value| <= max
  {
    hide LE;
    IntExact(s, 8);
  }

  lemma ExactlyExact(s: Bytes, n: nat)
    requires ReadExactly(s, n).Got?
    ensures s == ReadExactly(s, n).value + ReadExactly(s, n).rest && |ReadExactly(s, n).value| == n
  {}

  lemma HashedExact(env: Env, s: Bytes, max: nat)
    requires ReadHashed(env, s, max).Got?
    ensures var d := ReadHashed(env, s, max).value;
      s == LE(|d|, 8) + (env.sha(d) + (d + ReadHashed(env, s, max).rest)) && |d| <= max
  {
    hide LE, ReadInt, ReadExactly;
    var rest := ReadInt(s, 8).rest;
    IntExact(s, 8);
    ExactlyExact(rest, 32);
    ExactlyExact(ReadExactly(rest, 32).rest, ReadInt(s, 8).value);
  }

  lemma EntryExact(env: Env, version: nat, seen: set<Bytes>, s: Bytes)
    requires ReadEntry(env, version, seen, s).Got?
    ensures var e := ReadEntry(env, version, seen, s).value;
      && s == EncodeEntry(version, e) + ReadEntry(env, version, seen, s).rest && EntryOk(env, version, e)
      && e.path !in seen && (e.path == ROOT <==> seen == {})
  {
    hide LE, Str, ReadString, ReadHashed, SafePath;
    var afterPath := ReadString(s, env.maxSourceBytes).rest;
    var afterScope := ReadScope(env, version, afterPath).rest;
    StringExact(s, env.maxSourceBytes);
    if version >= 5 { StringExact(afterPath, env.maxSourceBytes); }
    HashedExact(env, afterScope, env.maxSourceBytes);
    var e := ReadEntry(env, version, seen, s).value;
    var rest := ReadEntry(env, version, seen, s).rest;
    var data := LE(|e.data|, 8) + (e.hash + (e.data + rest));
    assert afterScope == data;
    EntryLayout(version, e, rest);
  }

  lemma EntryLayout(version: nat, e: Entry, rest: Bytes)
    ensures EncodeEntry(version, e) + rest
      == Str(e.path) + ((if version >= 5 then Str(e.scope) else []) + (LE(|e.data|, 8) + (e.hash + (e.data + rest))))
  {
    hide LE, Str;
  }

  lemma {:induction false} EntriesExact(env: Env, version: nat, seen: set<Bytes>, n: nat, s: Bytes)
    requires ReadEntries(env, version, seen, n, s).Got?
    ensures var es := ReadEntries(env, version, seen, n, s).value;
      |es| == n && s == EncodeEntries(version, es) + ReadEntries(env, version, seen, n, s).rest && EntriesOk(env, version, seen, es)
    decreases n
  {
    hide ReadEntry, EncodeEntry, EntryOk;
    if n > 0 {
      var e := ReadEntry(env, version, seen, s).value;
      var rest := ReadEntry(env, version, seen, s).rest;
      EntryExact(env, version, seen, s);
      EntriesExact(env, version, seen + {e.path}, n - 1, rest);
      var es := ReadEntries(env, version, seen + {e.path}, n - 1, rest).value;
      assert ([e] + es)[1..] == es;
    }
  }

  lemma KirExact(env: Env, version: nat, s: Bytes)
    requires env.Valid() && ReadKir(env, version, s).Got? && ReadKir(env, version, s).rest == [] && version <= 6
    ensures var kir := ReadKir(env, version, s).value;
      && s == EncodeKir(env, version, kir)
      && (if version >= 6 then |kir| <= env.maxArtifactBytes && kir != [] && env.kir(kir) == Fine else kir == [])
  {
    hide LE, ReadHashed, Pow256;
    if version >= 6 {
      var kir := ReadKir(env, version, s).value;
      HashedExact(env, s, env.maxArtifactBytes);
      assert kir + [] == kir;
      if kir == [] { HashedReads(env, kir, env.maxArtifactBytes, []); }
    }
  }

  lemma BodyExact(env: Env, version: nat, s: Bytes)
    requires env.Valid() && version <= 6 && ReadBody(env, version, s).Got?
    ensures var (es, kir) := ReadBody(env, version, s).value;
      && s == LE(|es|, 4) + (EncodeEntries(version, es) + EncodeKir(env, version, kir))
      && 0 < |es| <= env.maxImports + 1 && EntriesOk(env, version, {}, es)
      && (if version >= 6 then |kir| <= env.maxArtifactBytes && kir != [] && env.kir(kir) == Fine else kir == [])
      && ReadBody(env, version, s).rest == []
  {
    hide LE, Pow256, ReadEntries, EncodeEntries, ReadKir, EncodeKir, EntriesOk, ReadInt;
    var n := ReadInt(s, 4).value;
    var rest := ReadInt(s, 4).rest;
    EntriesExact(env, version, {}, n, rest);
    if rest == [] { NoEntries(env, version, n); }
    IntExact(s, 4);
    KirExact(env, version, ReadEntries(env, version, {}, n, rest).rest);
  }

  lemma NoEntries(env: Env, version: nat, n: nat)
    requires n > 0
    ensures ReadEntries(env, version, {}, n, []) == Malformed
  {}

  lemma NameExact(s: Bytes, max: nat, expected: Bytes)
    requires ReadNamed(s, max, expected).Got?
    ensures s == Str(expected) + ReadNamed(s, max, expected).rest
  {
    hide Str, ReadString;
    StringExact(s, max);
  }

  lemma TaggedExact(env: Env, version: nat, s: Bytes)
    requires ReadTagged(env, version, s).Got?
    ensures exists body :: s == TAG + (Str(env.Target(version)) + body) && ReadBody(env, version, body) == ReadTagged(env, version, s)
  {
    hide Str, ReadBody, ReadNamed;
    var rest := ReadExactly(s, 3).rest;
    ExactlyExact(s, 3);
    NameExact(rest, 64, env.Target(version));
    var body := ReadNamed(rest, 64, env.Target(version)).rest;
    assert ReadBody(env, version, body) == ReadTagged(env, version, s);
  }

  // Every accepted input is exactly the encoding of the artifact it is decoded to.
  lemma AcceptedIsEncoding(env: Env, data: Bytes)
    requires env.Valid() && Decode(env, data).Decoded?
    ensures var d := Decode(env, data);
      ValidFor(env, d.version, d.artifact) && Readable(d.version, d.artifact) && data == Encode(env, d.version, d.artifact)
  {
    hide LE, Pow256, Str, ReadBody, EncodeEntries, EncodeKir, EntriesOk, ReadNamed, ReadTagged, ReadInt, Readable, EndsInData;
    var version := Decode(env, data).version;
    var a := Decode(env, data).artifact;
    var versioned := ReadExactly(data, 11).rest;
    ExactlyExact(data, 11);
    MagicIs(ReadExactly(data, 11).value);
    var compiled := ReadInt(versioned, 4).rest;
    if compiled == [] { NameAtEnd(256, env.Compiler(version)); }
    IntExact(versioned, 4);
    NameExact(compiled, 256, env.Compiler(version));
    var languaged := ReadNamed(compiled, 256, env.Compiler(version)).rest;
    if version >= 4 { NameExact(languaged, 64, env.language); }
    var tagged := ReadLanguage(env, version, languaged).rest;
    TaggedExact(env, version, tagged);
    var body :| tagged == TAG + (Str(env.Target(version)) + body) && ReadBody(env, version, body) == ReadTagged(env, version, tagged);
    BodyExact(env, version, body);
    assert languaged == (if version >= 4 then Str(a.language) else []) + tagged;
    assert data == Encode(env, version, a);
    DecodeAfterEncode(env, version, a);
  }

  // A program of one empty source, as version 3 writes it.
  function EmptyRoot(env: Env): Artifact {
    Artifact(env.legacyCompiler, env.host, env.language, [Entry(ROOT, [], [], env.sha([]))], [])
  }

  lemma EmptyRootIsRejected(env: Env)
    requires env.Valid() && env.utf8([]) && |ROOT| <= env.maxSourceBytes && |Encode(env, 3, EmptyRoot(env))| <= env.maxArtifactBytes
    ensures ValidFor(env, 3, EmptyRoot(env)) && Decode(env, Encode(env, 3, EmptyRoot(env))) == Rejected
  {
    hide Encode, Decode;
    var a := EmptyRoot(env);
    assert EntryOk(env, 3, a.entries[0]) && a.entries[1..] == [];
    assert EntriesOk(env, 3, {ROOT}, []) && EntriesOk(env, 3, {}, a.entries);
    DecodeAfterEncode(env, 3, a);
  }

  lemma MagicIs(magic: Bytes)
    requires VersionOf(magic).Some?
    ensures 3 <= VersionOf(magic).value <= 6 && magic == Magic(VersionOf(magic).value)
  {}

  lemma NameAtEnd(max: nat, expected: Bytes)
    ensures ReadNamed([], max, expected) == Malformed
  {}

  // So no truncation and no extension of an accepted input is accepted as the same artifact.
  lemma NoTwoEncodings(env: Env, a: Bytes, b: Bytes)
    requires env.Valid() && Decode(env, a).Decoded? && Decode(env, a) == Decode(env, b)
    ensures a == b
  {
    hide Decode, Encode;
    AcceptedIsEncoding(env, a);
    AcceptedIsEncoding(env, b);
  }
}
