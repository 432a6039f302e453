// What the decoder's test of entry paths guarantees.
module ArtifactPaths {
  import opened Wrappers
  import opened ByteOrder
  import opened ArtifactCodec
  import PathClean

  function AsText(p: Bytes): (s: string)
    ensures |s| == |p| && forall i :: 0 <= i < |p| ==> s[i] == p[i] as char
  {
    seq(|p|, i requires 0 <= i < |p| => p[i] as char)
  }

  // A path is safe exactly when it is not empty, has no NUL, is relative, is not ".", and no component
  // between its slashes is "..".
  lemma SafeExactly(p: Bytes)
    ensures SafePath(p) <==>
      p != [] && (forall i :: 0 <= i < |p| ==> p[i] != 0) && p[0] != 0x2F && AsText(p) != "." && ".." !in PathClean.Components(AsText(p))
  {
    hide HasParent, ParentAt, PathClean.Components, PathClean.IsRun;
    PathClean.ComponentsExactly(AsText(p), "..");
    ParentIsRun(p);
    DotText(p);
  }

  lemma DotText(p: Bytes)
    ensures p == [0x2E] <==> AsText(p) == "."
    ensures p == [0x2E, 0x2E] ==> HasParent(p)
  {
    if AsText(p) == "." { assert p[0] as char == '.'; }
    if p == [0x2E] { assert AsText(p)[0] == '.'; }
    if p == [0x2E, 0x2E] { assert ParentAt(p, 0); }
  }

  lemma ParentIsRun(p: Bytes)
    ensures HasParent(p) <==> PathClean.IsRun(AsText(p), "..")
  {
    var s := AsText(p);
    if HasParent(p) {
      var i: nat :| i + 2 <= |p| && ParentAt(p, i);
      assert s[i..i + 2] == "..";
      assert PathClean.RunAt(s, i, i + 2);
    }
    if PathClean.IsRun(s, "..") {
      var i: nat, j: nat :| PathClean.RunAt(s, i, j) && s[i..j] == "..";
      assert j == i + 2 && s[i] == s[i..j][0] && s[i + 1] == s[i..j][1];
      assert ParentAt(p, i);
    }
  }

  // Joined to any directory it leads to a place at or below it.
  lemma SafeStaysBelow(p: Bytes, dir: seq<string>)
    requires SafePath(p)
    ensures |dir| <= |PathClean.Place(dir, AsText(p))| && PathClean.Place(dir, AsText(p))[..|dir|] == dir
  {
    SafeExactly(p);
    PathClean.StaysBelow(dir, PathClean.Components(AsText(p)));
  }

  // So do the paths of every artifact that is decoded, except the root's own name.
  lemma {:induction false} EntriesAreSafe(env: Env, version: nat, seen: set<Bytes>, es: seq<Entry>, i: nat)
    requires EntriesOk(env, version, seen, es) && i < |es|
    ensures es[i].path == ROOT || SafePath(es[i].path)
    decreases es
  {
    if i > 0 { EntriesAreSafe(env, version, seen + {es[0].path}, es[1..], i - 1); }
  }
}
