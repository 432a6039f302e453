// The bytes of artifacts and containers, written out: texts, byte positions, what every version names, and
// whole samples.
module ArtifactLayout {
  import opened Wrappers
  import opened ByteOrder
  import opened ArtifactCodec
  import SealedContainer
  import ArtifactPaths
  import PathClean

  // ---- numbers by their bytes -------------------------------------------------------------------------

  lemma {:induction false} LEByPosition(n: nat, k: nat, i: nat)
    requires i < k
    ensures Pow256(i) > 0 && LE(n, k)[i] == n / Pow256(i) % 256
  {
    if i > 0 {
      LEByPosition(n / 256, k - 1, i - 1);
      DivideTwice(n, Pow256(i - 1));
    }
  }

  lemma {:induction false} BEByPosition(n: nat, k: nat, i: nat)
    requires i < k
    ensures Pow256(i) > 0 && BE(n, k)[k - 1 - i] == n / Pow256(i) % 256
  {
    if i > 0 {
      BEByPosition(n / 256, k - 1, i - 1);
      DivideTwice(n, Pow256(i - 1));
    }
  }

  lemma DivideTwice(n: nat, m: nat)
    requires m > 0
    ensures n / 256 / m == n / (256 * m)
  {
    var q, r := n / 256 / m, n / 256 % m;
    var low := n % 256;
    assert n == 256 * (m * q + r) + low;
    assert n == (256 * m) * q + (256 * r + low);
    assert 256 * r + low < 256 * m;
    Quotient(n, 256 * m, q, 256 * r + low);
  }

  lemma Quotient(n: nat, m: nat, q: nat, r: nat)
    requires n == m * q + r && r < m
    ensures n / m == q
  {
    var e := n / m - q;
    assert m * e == r - n % m;
    Multiple(m, e);
  }

  lemma Multiple(m: int, e: int)
    requires m >= 0
    ensures e >= 1 ==> m * e >= m
    ensures e <= -1 ==> m * e <= 0 - m
  {
    if e >= 1 { assert m * e == m + m * (e - 1); }
    if e <= -1 { assert m * e == m * (e + 1) - m; }
  }

  lemma Widths()
    ensures Pow256(4) == 0x1_0000_0000 && Pow256(8) == 0x1_0000_0000_0000_0000
  {
    assert Pow256(1) == 256 && Pow256(2) == 65536 && Pow256(3) == 16777216;
    assert Pow256(4) == 0x1_0000_0000;
    assert Pow256(5) == 0x100_0000_0000 && Pow256(6) == 0x1_0000_0000_0000 && Pow256(7) == 0x100_0000_0000_0000;
  }

  // ---- texts ------------------------------------------------------------------------------------------

  predicate Spells(p: Bytes, s: string) { |p| == |s| && forall i :: 0 <= i < |s| ==> p[i] == s[i] as int }

  lemma MagicTexts()
    ensures forall v :: 3 <= v <= 6 ==> Spells(Magic(v)[..9], "KRYNATIVE") && Magic(v)[10] == 0
    ensures Spells(Magic(3)[9..10], "3") && Spells(Magic(4)[9..10], "4") && Spells(Magic(5)[9..10], "5") && Spells(Magic(6)[9..10], "6")
    ensures Spells(ROOT, "<root>") && Spells(TAG, "KRY")
    ensures Spells(SealedContainer.SEALED_MAGIC[..8], "KRYSEAL1") && SealedContainer.SEALED_MAGIC[8] == 0
  {}

  // ---- samples ----------------------------------------------------------------------------------------

  lemma SmallNumbers(n: nat)
    requires n < 256
    ensures LE(n, 4) == [n, 0, 0, 0] && LE(n, 8) == [n, 0, 0, 0, 0, 0, 0, 0]
  {
    assert n / 256 == 0;
    assert LE(0, 1) == [0];
    assert LE(0, 2) == [0, 0];
    assert LE(0, 3) == [0, 0, 0];
    assert LE(0, 4) == [0, 0, 0, 0];
    assert LE(0, 5) == [0, 0, 0, 0, 0];
    assert LE(0, 6) == [0, 0, 0, 0, 0, 0];
    assert LE(0, 7) == [0, 0, 0, 0, 0, 0, 0];
  }

  const ONE4: Bytes := [1, 0, 0, 0]
  const ONE: Bytes := [1, 0, 0, 0, 0, 0, 0, 0]
  const SIX: Bytes := [6, 0, 0, 0, 0, 0, 0, 0]

  // The artifact with the compiler "C", the language "L" and the target "T", whose root is the source "X", in
  // every version: the fields in their order, each text behind its length.
  lemma Sample6(env: Env, hash: Bytes, kir: Byte)
    requires |hash| == 32
    ensures var root := SIX + ROOT;
      Encode(env, 6, Artifact([0x43], [0x54], [0x4C], [Entry(ROOT, ROOT, [0x58], hash)], [kir]))
      == Magic(6) + ([6, 0, 0, 0] + ((ONE + [0x43]) + ((ONE + [0x4C]) + (TAG + ((ONE + [0x54]) + (ONE4 + ((root + (root + (ONE + (hash + [0x58])))) + (ONE + (env.sha([kir]) + [kir])))))))))
  {
    SmallNumbers(1);
    SmallNumbers(6);
    OneByte(0x43);
    OneByte(0x4C);
    OneByte(0x54);
    ScopedEntry(6, hash);
    hide LE, Magic, EncodeEntries, Str;
  }

  lemma Sample5(env: Env, hash: Bytes)
    requires |hash| == 32
    ensures var root := SIX + ROOT;
      Encode(env, 5, Artifact([0x43], [0x54], [0x4C], [Entry(ROOT, ROOT, [0x58], hash)], []))
      == Magic(5) + ([5, 0, 0, 0] + ((ONE + [0x43]) + ((ONE + [0x4C]) + (TAG + ((ONE + [0x54]) + (ONE4 + (root + (root + (ONE + (hash + [0x58]))))))))))
  {
    SmallNumbers(1);
    SmallNumbers(5);
    OneByte(0x43);
    OneByte(0x4C);
    OneByte(0x54);
    ScopedEntry(5, hash);
    Nothing(EncodeEntries(5, [Entry(ROOT, ROOT, [0x58], hash)]));
    hide LE, Magic, EncodeEntries, Str;
  }

  lemma Sample4(env: Env, hash: Bytes)
    requires |hash| == 32
    ensures var root := SIX + ROOT;
      Encode(env, 4, Artifact([0x43], [0x54], [0x4C], [Entry(ROOT, [], [0x58], hash)], []))
      == Magic(4) + ([4, 0, 0, 0] + ((ONE + [0x43]) + ((ONE + [0x4C]) + (TAG + ((ONE + [0x54]) + (ONE4 + (root + (ONE + (hash + [0x58])))))))))
  {
    SmallNumbers(1);
    SmallNumbers(4);
    OneByte(0x43);
    OneByte(0x4C);
    OneByte(0x54);
    PlainEntry(4, hash);
    Nothing(EncodeEntries(4, [Entry(ROOT, [], [0x58], hash)]));
    hide LE, Magic, EncodeEntries, Str;
  }

  lemma Sample3(env: Env, hash: Bytes)
    requires |hash| == 32
    ensures var root := SIX + ROOT;
      Encode(env, 3, Artifact([0x43], [0x54], [0x4C], [Entry(ROOT, [], [0x58], hash)], []))
      == Magic(3) + ([3, 0, 0, 0] + ((ONE + [0x43]) + (TAG + ((ONE + [0x54]) + (ONE4 + (root + (ONE + (hash + [0x58]))))))))
  {
    SmallNumbers(1);
    SmallNumbers(3);
    OneByte(0x43);
    OneByte(0x4C);
    OneByte(0x54);
    PlainEntry(3, hash);
    Nothing(EncodeEntries(3, [Entry(ROOT, [], [0x58], hash)]));
    Nothing(TAG + ((ONE + [0x54]) + (ONE4 + (SIX + ROOT + (ONE + (hash + [0x58]))))));
    hide LE, Magic, EncodeEntries, Str;
  }

  lemma Nothing(x: Bytes)
    ensures [] + x == x && x + [] == x
  {}

  lemma OneByte(b: Byte)
    ensures Str([b]) == ONE + [b]
  {
    SmallNumbers(1);
    hide LE;
  }

  lemma ScopedEntry(version: nat, hash: Bytes)
    requires version >= 5
    ensures EncodeEntries(version, [Entry(ROOT, ROOT, [0x58], hash)]) == (SIX + ROOT) + ((SIX + ROOT) + (ONE + (hash + [0x58])))
  {
    OnlyEntry(version, Entry(ROOT, ROOT, [0x58], hash));
    SmallNumbers(1);
    SmallNumbers(6);
    hide LE, EncodeEntries;
  }

  lemma PlainEntry(version: nat, hash: Bytes)
    requires version < 5
    ensures EncodeEntries(version, [Entry(ROOT, [], [0x58], hash)]) == (SIX + ROOT) + (ONE + (hash + [0x58]))
  {
    OnlyEntry(version, Entry(ROOT, [], [0x58], hash));
    SmallNumbers(1);
    SmallNumbers(6);
    Nothing(ONE + (hash + [0x58]));
    hide LE, EncodeEntries;
  }

  lemma OnlyEntry(version: nat, e: Entry)
    ensures EncodeEntries(version, [e]) == EncodeEntry(version, e)
  {
    hide EncodeEntry;
    assert [e][1..] == [];
    assert EncodeEntries(version, []) == [];
    Nothing(EncodeEntry(version, e));
  }

  // ---- what each version names ------------------------------------------------------------------------

  // Version 6 is portable, the earlier ones are bound to the host; version 3 names the legacy compiler; the
  // language is always this one, though only versions from 4 on write it.
  lemma NamesByVersion(env: Env, data: Bytes)
    requires Decode(env, data).Decoded?
    ensures var r := Decode(env, data);
      && r.version in {3, 4, 5, 6} && r.artifact.language == env.language
      && r.artifact.compiler == (if r.version == 3 then env.legacyCompiler else env.compiler)
      && r.artifact.target == (if r.version == 6 then env.portable else env.host)
      && |data| <= env.maxArtifactBytes
  {
    hide ReadVersioned, Magic;
  }

  // ---- entries by their positions -----------------------------------------------------------------------

  predicate SafeText(p: Bytes) {
    p != [] && 0 !in p && p[0] != 0x2F && ArtifactPaths.AsText(p) != "." && ".." !in PathClean.Components(ArtifactPaths.AsText(p))
  }

  lemma SafeTextIsSafe(p: Bytes)
    ensures SafeText(p) <==> SafePath(p)
  {
    ArtifactPaths.SafeExactly(p);
    hide SafePath, PathClean.Components;
  }

  lemma RootSpelled()
    ensures forall p: Bytes :: Spells(p, "<root>") <==> p == ROOT
  {}

  // An entry is acceptable on its own: its path and scope name the root or stay inside it, its digest is its
  // data's, and its data is text.
  predicate Acceptable(env: Env, version: nat, e: Entry) {
    && (Spells(e.path, "<root>") || SafeText(e.path)) && |e.path| <= env.maxSourceBytes
    && (if version < 5 then e.scope == [] else (Spells(e.scope, "<root>") || SafeText(e.scope)) && |e.scope| <= env.maxSourceBytes)
    && |e.data| <= env.maxSourceBytes && e.hash == env.sha(e.data) && env.utf8(e.data)
  }

  lemma AcceptableExactly(env: Env, version: nat, e: Entry)
    ensures Acceptable(env, version, e) <==> EntryOk(env, version, e)
  {
    RootSpelled();
    SafeTextIsSafe(e.path);
    SafeTextIsSafe(e.scope);
    hide SafeText, SafePath, Spells;
  }

  // Entries are accepted exactly when each is, the first and no other is the root, and no two have one path.
  lemma {:induction false} EntriesExactly(env: Env, version: nat, es: seq<Entry>)
    ensures EntriesOk(env, version, {}, es) <==>
      && (forall i :: 0 <= i < |es| ==> Acceptable(env, version, es[i]) && (Spells(es[i].path, "<root>") <==> i == 0))
      && (forall i, j :: 0 <= i < j < |es| ==> es[i].path != es[j].path)
  {
    EntriesBehind(env, version, {}, es);
    hide Acceptable, EntriesOk;
    RootSpelled();
  }

  lemma {:induction false} EntriesBehind(env: Env, version: nat, seen: set<Bytes>, es: seq<Entry>)
    ensures EntriesOk(env, version, seen, es) <==>
      && (forall i :: 0 <= i < |es| ==> Acceptable(env, version, es[i]) && (es[i].path == ROOT <==> i == 0 && seen == {}) && es[i].path !in seen)
      && (forall i, j :: 0 <= i < j < |es| ==> es[i].path != es[j].path)
    decreases es
  {
    hide Acceptable, EntryOk;
    if es != [] {
      AcceptableExactly(env, version, es[0]);
      var rest, more := es[1..], seen + {es[0].path};
      EntriesBehind(env, version, more, rest);
      if EntriesOk(env, version, seen, es) {
        forall i | 0 <= i < |es| ensures Acceptable(env, version, es[i]) && (es[i].path == ROOT <==> i == 0 && seen == {}) && es[i].path !in seen {
          if i > 0 { assert es[i] == rest[i - 1]; }
        }
        forall i, j | 0 <= i < j < |es| ensures es[i].path != es[j].path {
          assert es[j] == rest[j - 1];
          if i > 0 { assert es[i] == rest[i - 1]; }
        }
      }
      if (forall i :: 0 <= i < |es| ==> Acceptable(env, version, es[i]) && (es[i].path == ROOT <==> i == 0 && seen == {}) && es[i].path !in seen)
         && (forall i, j :: 0 <= i < j < |es| ==> es[i].path != es[j].path) {
        forall i | 0 <= i < |rest| ensures Acceptable(env, version, rest[i]) && (rest[i].path == ROOT <==> i == 0 && more == {}) && rest[i].path !in more {
          assert rest[i] == es[i + 1];
        }
        forall i, j | 0 <= i < j < |rest| ensures rest[i].path != rest[j].path { assert rest[i] == es[i + 1] && rest[j] == es[j + 1]; }
      }
    }
  }

  // ---- containers -------------------------------------------------------------------------------------

  // Sealing works for a passphrase that is not empty and a number of iterations from 1000 to ten million, or
  // none asked for, which means 200000. The fields stand at fixed positions.
  lemma SealedLayout(x: SealedContainer.Cipher, plain: Bytes, passphrase: Bytes, asked: int, salt: Bytes, nonce: Bytes)
    requires |salt| == 16 && |nonce| == 12
    ensures SealedContainer.Seal(x, plain, passphrase, asked, salt, nonce).Some? <==> passphrase != [] && (asked <= 0 || 1000 <= asked <= 10000000)
    ensures SealedContainer.Seal(x, plain, passphrase, asked, salt, nonce).Some? ==>
      var data, n := SealedContainer.Seal(x, plain, passphrase, asked, salt, nonce).value, if asked <= 0 then 200000 else asked;
      var box := x.seal(x.key(passphrase, salt, n), nonce, plain);
      && |data| == 53 + |box| && data[..9] == SealedContainer.SEALED_MAGIC && data[9..13] == [1, 0, 0, 0] && data[13..17] == LE(n, 4)
      && data[17..33] == salt && data[33..45] == nonce && data[45..53] == LE(|box|, 8) && data[53..] == box
  {
    var n := if asked <= 0 then 200000 else asked;
    if 1000 <= n <= 10000000 && passphrase != [] {
      var box := x.seal(x.key(passphrase, salt, n), nonce, plain);
      FrameFields(SealedContainer.Container(n, salt, nonce, box));
      hide SealedContainer.Frame;
    }
  }

  lemma FrameFields(c: SealedContainer.Container)
    requires |c.salt| == 16 && |c.nonce| == 12
    ensures var data := SealedContainer.Frame(c);
      && |data| == 53 + |c.sealed| && data[..9] == SealedContainer.SEALED_MAGIC && data[9..13] == [1, 0, 0, 0] && data[13..17] == LE(c.iterations, 4)
      && data[17..33] == c.salt && data[33..45] == c.nonce && data[45..53] == LE(|c.sealed|, 8) && data[53..] == c.sealed
  {
    SmallNumbers(1);
    hide LE;
    var sized := LE(|c.sealed|, 8) + c.sealed;
    var nonced := c.nonce + sized;
    var salted := c.salt + nonced;
    var counted := LE(c.iterations, 4) + salted;
    var versioned := LE(1, 4) + counted;
    var data := SealedContainer.SEALED_MAGIC + versioned;
    Field(SealedContainer.SEALED_MAGIC, versioned, data, 0);
    Field(LE(1, 4), counted, data, 9);
    Field(LE(c.iterations, 4), salted, data, 13);
    Field(c.salt, nonced, data, 17);
    Field(c.nonce, sized, data, 33);
    Field(LE(|c.sealed|, 8), c.sealed, data, 45);
  }

  // Behind `at` bytes stand the field and what follows it.
  lemma Field(x: Bytes, rest: Bytes, data: Bytes, at: nat)
    requires at <= |data| && data[at..] == x + rest
    ensures at + |x| <= |data| && data[at..at + |x|] == x && data[at + |x|..] == rest
  {
    assert data[at..][..|x|] == x && data[at..][|x|..] == rest;
  }
}
