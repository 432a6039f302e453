// The encoder and decoder of native artifacts over a buffer and a reader.
module ArtifactIO {
  import opened Wrappers
  import opened ByteOrder
  import opened ArtifactCodec
  import opened ArtifactBijection

  // ---- writing ---------------------------------------------------------------------------------------

  class Buffer {
    var data: Bytes

    constructor ()
      ensures data == []
    {
      data := [];
    }

    method Write(bs: Bytes)
      modifies this
      ensures data == old(data) + bs
    {
      data := data + bs;
    }

    // A little-endian integer, byte by byte.
    method WriteInt(n: nat, width: nat)
      modifies this
      ensures data == old(data) + LE(n, width)
    {
      var left := n;
      for k := 0 to width
        invariant data + LE(left, width - k) == old(data) + LE(n, width)
      {
        data := data + [left % 256];
        left := left / 256;
      }
    }

    method WriteString(s: Bytes)
      modifies this
      ensures data == old(data) + Str(s)
    {
      WriteInt(|s|, 8);
      Write(s);
    }

    method WriteEntry(e: Entry)
      modifies this
      ensures data == old(data) + EncodeEntry(6, e)
    {
      hide LE;
      WriteString(e.path);
      WriteString(e.scope);
      WriteInt(|e.data|, 8);
      Write(e.hash);
      Write(e.data);
      EntryLayout(6, e, []);
      assert e.data + [] == e.data && EncodeEntry(6, e) + [] == EncodeEntry(6, e);
    }

    method WriteEntries(es: seq<Entry>)
      modifies this
      ensures data == old(data) + EncodeEntries(6, es)
    {
      hide EncodeEntry;
      ghost var base, done := data, [];
      assert es[0..] == es;
      for i := 0 to |es|
        invariant data == base + done && done + EncodeEntries(6, es[i..]) == EncodeEntries(6, es)
      {
        assert es[i..][1..] == es[i + 1..];
        assert done + (EncodeEntry(6, es[i]) + EncodeEntries(6, es[i + 1..])) == done + EncodeEntry(6, es[i]) + EncodeEntries(6, es[i + 1..]);
        WriteEntry(es[i]);
        done := done + EncodeEntry(6, es[i]);
      }
      assert done + [] == done;
    }
  }

  // Writing an artifact in the current version, unless it is larger than the limit.
  method BuildArtifact(env: Env, entries: seq<Entry>, kir: Bytes) returns (r: Option<Bytes>)
    ensures var a := Artifact(env.compiler, env.portable, env.language, entries, kir);
      r == if env.maxArtifactBytes > 0 && |Encode(env, 6, a)| > env.maxArtifactBytes then None else Some(Encode(env, 6, a))
  {
    hide LE, Str, EncodeEntries;
    var b := new Buffer();
    b.Write(Magic(6));
    b.WriteInt(6, 4);
    b.WriteString(env.compiler);
    b.WriteString(env.language);
    b.Write(TAG);
    b.WriteString(env.portable);
    b.WriteInt(|entries|, 4);
    b.WriteEntries(entries);
    b.WriteInt(|kir|, 8);
    b.Write(env.sha(kir));
    b.Write(kir);
    Layout(env, Artifact(env.compiler, env.portable, env.language, entries, kir), b.data);
    r := if env.maxArtifactBytes > 0 && |b.data| > env.maxArtifactBytes then None else Some(b.data);
  }

  lemma Layout(env: Env, a: Artifact, data: Bytes)
    requires data == [] + Magic(6) + LE(6, 4) + Str(a.compiler) + Str(a.language) + TAG + Str(a.target) + LE(|a.entries|, 4)
      + EncodeEntries(6, a.entries) + LE(|a.kir|, 8) + env.sha(a.kir) + a.kir
    ensures data == Encode(env, 6, a)
  {
    hide LE, Str, EncodeEntries;
  }

  // ---- reading ---------------------------------------------------------------------------------------

  // What reading from a position comes to.
  ghost predicate Reads<T>(spec: Read<T>, ok: bool, value: T, rest: Bytes) {
    if ok then spec == Got(value, rest) else !spec.Got?
  }

  class Reader {
    const s: Bytes
    var i: nat

    constructor (data: Bytes)
      ensures s == data && i == 0
    {
      s := data;
      i := 0;
    }

    ghost function Rest(): Bytes
      requires i <= |s|
      reads this
    {
      s[i..]
    }

    function Len(): nat
      requires i <= |s|
      reads this
    {
      |s| - i
    }

    // At most n bytes; nothing can be read at the end.
    method Some(n: nat) returns (bs: Bytes, ok: bool)
      requires i <= |s|
      modifies this
      ensures i <= |s| && Reads(ReadSome(old(Rest()), n), ok, bs, Rest())
    {
      if i >= |s| { return [], false; }
      var k := if n < |s| - i then n else |s| - i;
      bs := s[i..i + k];
      assert s[i..][..k] == bs && s[i..][k..] == s[i + k..];
      i := i + k;
      ok := true;
    }

    method Exactly(n: nat) returns (bs: Bytes, ok: bool)
      requires i <= |s|
      modifies this
      ensures i <= |s| && Reads(ReadExactly(old(Rest()), n), ok, bs, Rest())
    {
      bs, ok := Some(n);
      ok := ok && |bs| == n;
    }

    // The value of the bytes there are, most significant last.
    method Int(width: nat) returns (n: nat, ok: bool)
      requires i <= |s|
      modifies this
      ensures i <= |s| && Reads(ReadInt(old(Rest()), width), ok, n, Rest())
    {
      var bs;
      bs, ok := Some(width);
      if !ok { return 0, false; }
      n := 0;
      var k := |bs|;
      assert bs[k..] == [];
      while k > 0
        invariant 0 <= k <= |bs| && n == Value(bs[k..])
      {
        assert bs[k - 1..][1..] == bs[k..];
        n := bs[k - 1] as int + 256 * n;
        k := k - 1;
      }
      assert bs[0..] == bs;
    }

    method String(max: nat) returns (x: Bytes, ok: bool)
      requires i <= |s|
      modifies this
      ensures i <= |s| && Reads(ReadString(old(Rest()), max), ok, x, Rest())
    {
      var n;
      n, ok := Int(8);
      if !ok || n > max || n > Len() { return [], false; }
      x, ok := Some(n);
    }

    method Named(max: nat, expected: Bytes) returns (ok: bool)
      requires i <= |s|
      modifies this
      ensures i <= |s| && Reads(ReadNamed(old(Rest()), max, expected), ok, expected, Rest())
    {
      var x;
      x, ok := String(max);
      ok := ok && x == expected;
    }

    method Hashed(env: Env, max: nat) returns (data: Bytes, ok: bool)
      requires i <= |s|
      modifies this
      ensures i <= |s| && Reads(ReadHashed(env, old(Rest()), max), ok, data, Rest())
    {
      hide ReadInt, ReadExactly;
      var size, hash;
      size, ok := Int(8);
      if !ok || size > max || Len() < 32 || size > Len() - 32 { return [], false; }
      hash, ok := Exactly(32);
      if !ok { return [], false; }
      data, ok := Exactly(size);
      ok := ok && env.sha(data) == hash;
    }

    method ReadOneEntry(env: Env, version: nat, seen: set<Bytes>) returns (e: Entry, ok: bool)
      requires i <= |s|
      modifies this
      ensures i <= |s| && Reads(ReadEntry(env, version, seen, old(Rest())), ok, e, Rest())
    {
      hide ReadString, ReadHashed, SafePath;
      e := Entry([], [], [], []);
      var path, scope, data;
      path, ok := String(env.maxSourceBytes);
      if !ok || (!SafePath(path) && path != ROOT) { return e, false; }
      if (path == ROOT) != (seen == {}) || path in seen { return e, false; }
      scope := [];
      if version >= 5 {
        scope, ok := String(env.maxSourceBytes);
        if !ok || !SafeScope(scope) { return e, false; }
      }
      data, ok := Hashed(env, env.maxSourceBytes);
      if !ok || !env.utf8(data) { return e, false; }
      e := Entry(path, scope, data, env.sha(data));
    }

    method AllEntries(env: Env, version: nat, n: nat) returns (es: seq<Entry>, ok: bool)
      requires i <= |s|
      modifies this
      ensures i <= |s| && Reads(ReadEntries(env, version, {}, n, old(Rest())), ok, es, Rest())
    {
      hide ReadEntry;
      es := [];
      var seen: set<Bytes> := {};
      ghost var whole := ReadEntries(env, version, {}, n, Rest());
      PrependsNothing(whole);
      for k := 0 to n
        invariant i <= |s|
        invariant whole == Prepend(es, ReadEntries(env, version, seen, n - k, Rest()))
      {
        hide ReadEntries;
        var e;
        UnfoldEntries(env, version, seen, n - k, Rest());
        ghost var before := Rest();
        e, ok := ReadOneEntry(env, version, seen);
        if !ok { return; }
        PrependsMore(es, e, ReadEntries(env, version, seen + {e.path}, n - k - 1, Rest()));
        seen := seen + {e.path};
        es := es + [e];
      }
      NoMoreEntries(env, version, seen, es, Rest());
      ok := true;
    }

    method Kir(env: Env, version: nat) returns (kir: Bytes, verdict: KirVerdict)
      requires i <= |s|
      modifies this
      ensures i <= |s|
      ensures match ReadKir(env, version, old(Rest()))
        case Got(k, rest) => verdict == Fine && kir == k && Rest() == rest
        case OverLimit => verdict == TooManyInstructions
        case Malformed => verdict == Broken
    {
      hide ReadHashed;
      if version < 6 { return [], Fine; }
      var ok;
      kir, ok := Hashed(env, env.maxArtifactBytes);
      verdict := if ok then env.kir(kir) else Broken;
    }
  }

  function Prepend(es: seq<Entry>, r: Read<seq<Entry>>): Read<seq<Entry>> {
    match r
    case Got(more, rest) => Got(es + more, rest)
    case f => f
  }

  lemma PrependsNothing(r: Read<seq<Entry>>)
    ensures Prepend([], r) == r
  {
    if r.Got? { assert [] + r.value == r.value; }
  }

  lemma PrependsMore(es: seq<Entry>, e: Entry, r: Read<seq<Entry>>)
    ensures Prepend(es, Prepend([e], r)) == Prepend(es + [e], r)
  {
    if r.Got? { assert es + ([e] + r.value) == es + [e] + r.value; }
  }

  lemma UnfoldEntries(env: Env, version: nat, seen: set<Bytes>, n: nat, s: Bytes)
    requires n > 0
    ensures ReadEntries(env, version, seen, n, s) == match ReadEntry(env, version, seen, s)
      case Got(e, rest) => Prepend([e], ReadEntries(env, version, seen + {e.path}, n - 1, rest))
      case _ => Malformed
  {}

  lemma NoMoreEntries(env: Env, version: nat, seen: set<Bytes>, es: seq<Entry>, rest: Bytes)
    ensures Prepend(es, ReadEntries(env, version, seen, 0, rest)) == Got(es, rest)
  {
    assert es + [] == es;
  }

  method DecodeArtifact(env: Env, data: Bytes) returns (r: Decoded)
    ensures r == Decode(env, data)
  {
    hide ReadVersioned, ReadInt, ReadExactly;
    if |data| > env.maxArtifactBytes { return TooLarge; }
    var reader := new Reader(data);
    assert data[0..] == data;
    var magic, ok := reader.Exactly(11);
    if !ok { return Rejected; }
    var version := VersionOf(magic);
    if version.None? { return Rejected; }
    r := DecodeFrom(env, version.value, reader);
  }

  // What decoding comes to once the version is known.
  function Finish(env: Env, version: nat, r: Read<(seq<Entry>, Bytes)>): Decoded {
    match r
    case Got((es, kir), _) => Decoded(version, Artifact(env.Compiler(version), env.Target(version), env.language, es, kir))
    case OverLimit => TooLarge
    case Malformed => Rejected
  }

  method DecodeFrom(env: Env, version: nat, reader: Reader) returns (r: Decoded)
    requires reader.i <= |reader.s|
    modifies reader
    ensures r == Finish(env, version, ReadVersioned(env, version, old(reader.Rest())))
  {
    hide ReadInt, ReadNamed, ReadTagged;
    var v, ok := reader.Int(4);
    if !ok || v != version { return Rejected; }
    ok := reader.Named(256, env.Compiler(version));
    if !ok { return Rejected; }
    if version >= 4 {
      ok := reader.Named(64, env.language);
      if !ok { return Rejected; }
    }
    r := DecodeTagged(env, version, reader);
  }

  method DecodeTagged(env: Env, version: nat, reader: Reader) returns (r: Decoded)
    requires reader.i <= |reader.s|
    modifies reader
    ensures r == Finish(env, version, ReadTagged(env, version, old(reader.Rest())))
  {
    hide ReadInt, ReadExactly, ReadNamed, ReadEntries, ReadKir;
    var tag, ok := reader.Exactly(3);
    if !ok || tag != TAG { return Rejected; }
    ok := reader.Named(64, env.Target(version));
    if !ok { return Rejected; }
    var n;
    n, ok := reader.Int(4);
    if !ok || n == 0 || n > env.maxImports + 1 { return Rejected; }
    var es, kir, verdict;
    es, ok := reader.AllEntries(env, version, n);
    if !ok { return Rejected; }
    kir, verdict := reader.Kir(env, version);
    if verdict == TooManyInstructions { return TooLarge; }
    if verdict == Broken || reader.Len() != 0 { return Rejected; }
    r := Decoded(version, Artifact(env.Compiler(version), env.Target(version), env.language, es, kir));
  }
}
