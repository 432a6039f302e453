// Lexical path cleaning of the C runtime (POSIX), against a stack of path components.
module PathClean {

  const SLASH: char := '/'

  // ---- components ------------------------------------------------------------------------------------

  function SkipSlashes(s: string): (r: string)
    ensures |r| <= |s| && r == s[|s| - |r|..] && (r != "" ==> r[0] != SLASH)
  {
    if s != "" && s[0] == SLASH then SkipSlashes(s[1..]) else s
  }

  function PartLength(s: string): (n: nat)
    ensures n <= |s| && SLASH !in s[..n] && (n < |s| ==> s[n] == SLASH) && (s != "" && s[0] != SLASH ==> n > 0)
  {
    if s == "" || s[0] == SLASH then 0
    else
      var n := 1 + PartLength(s[1..]);
      assert s[..n] == [s[0]] + s[1..][..n - 1];
      n
  }

  function Components(s: string): (r: seq<string>)
    ensures AllParts(r)
    decreases |s|
  {
    var t := SkipSlashes(s);
    if t == "" then []
    else
      var n := PartLength(t);
      var rest := Components(t[n..]);
      MoreParts(t[..n], rest);
      [t[..n]] + rest
  }

  lemma MoreParts(p: string, ps: seq<string>)
    requires p != "" && SLASH !in p && AllParts(ps)
    ensures AllParts([p] + ps)
  {}

  predicate Part(p: string) { p != "" && SLASH !in p }

  // A run of characters between slashes, or between one and an end of the text.
  predicate RunAt(s: string, i: nat, j: nat) {
    && i < j <= |s| && s[i] != '/' && (forall k :: i <= k < j ==> s[k] != '/')
    && (i == 0 || s[i - 1] == '/') && (j == |s| || s[j] == '/')
  }

  ghost predicate IsRun(s: string, p: string) { exists i: nat, j: nat :: RunAt(s, i, j) && s[i..j] == p }

  lemma {:induction false} SkippedAreSlashes(s: string)
    ensures forall k :: 0 <= k < |s| - |SkipSlashes(s)| ==> s[k] == SLASH
  {
    if s != "" && s[0] == SLASH { SkippedAreSlashes(s[1..]); }
  }

  // The components are exactly the runs between slashes.
  lemma {:induction false} ComponentsExactly(s: string, p: string)
    ensures p in Components(s) <==> IsRun(s, p)
    decreases |s|
  {
    hide IsRun, Components, SkipSlashes, PartLength;
    var t := SkipSlashes(s);
    ComponentsUnfold(s, p);
    SkippedAreSlashes(s);
    if t == "" {
      NoRuns(s, p);
    } else {
      var k, n := |s| - |t|, PartLength(t);
      ComponentsExactly(t[n..], p);
      FrontRun(s, t, k, n);
      RunsSplit(s, k, n, p);
    }
  }

  lemma ComponentsUnfold(s: string, p: string)
    ensures var t := SkipSlashes(s);
      if t == "" then Components(s) == []
      else PartLength(t) > 0 && (p in Components(s) <==> p == t[..PartLength(t)] || p in Components(t[PartLength(t)..]))
  {}

  lemma FrontRun(s: string, t: string, k: nat, n: nat)
    requires k <= |s| && t == s[k..] && n <= |t| && SLASH !in t[..n] && (n < |t| ==> t[n] == SLASH)
    ensures s[k + n..] == t[n..] && s[k..k + n] == t[..n] && (k + n < |s| ==> s[k + n] == '/') && forall l :: k <= l < k + n ==> s[l] != '/'
  {
    forall l | k <= l < k + n ensures s[l] != '/' { assert s[l] == t[..n][l - k]; }
  }

  lemma NoRuns(s: string, p: string)
    requires forall k :: 0 <= k < |s| ==> s[k] == '/'
    ensures !IsRun(s, p)
  {}

  // Behind slashes and one run, the other runs are those of the rest.
  lemma RunsSplit(s: string, k: nat, n: nat, p: string)
    requires k + n <= |s| && n > 0 && (forall l :: 0 <= l < k ==> s[l] == '/') && (forall l :: k <= l < k + n ==> s[l] != '/')
    requires k + n < |s| ==> s[k + n] == '/'
    ensures IsRun(s, p) <==> p == s[k..k + n] || IsRun(s[k + n..], p)
  {
    if p == s[k..k + n] { FirstRun(s, k, n); }
    if IsRun(s[k + n..], p) {
      var i: nat, j: nat :| RunAt(s[k + n..], i, j) && s[k + n..][i..j] == p;
      RunOfRest(s, k + n, i, j);
    }
    if IsRun(s, p) {
      var i: nat, j: nat :| RunAt(s, i, j) && s[i..j] == p;
      RunBehind(s, k, n, i, j);
    }
  }

  lemma FirstRun(s: string, k: nat, n: nat)
    requires k + n <= |s| && n > 0 && (forall l :: 0 <= l < k ==> s[l] == '/') && (forall l :: k <= l < k + n ==> s[l] != '/')
    requires k + n < |s| ==> s[k + n] == '/'
    ensures RunAt(s, k, k + n)
  {}

  lemma RunOfRest(s: string, m: nat, i: nat, j: nat)
    requires m <= |s| && (m < |s| ==> s[m] == '/') && RunAt(s[m..], i, j)
    ensures RunAt(s, m + i, m + j) && s[m + i..m + j] == s[m..][i..j]
  {
    var rest := s[m..];
    assert i > 0;
    assert rest[i - 1] == s[m + i - 1] && rest[i] == s[m + i] && (j < |rest| ==> rest[j] == s[m + j]);
    forall l | m + i <= l < m + j ensures s[l] != '/' { assert s[l] == rest[l - m]; }
  }

  lemma RunBehind(s: string, k: nat, n: nat, i: nat, j: nat)
    requires k + n <= |s| && n > 0 && (forall l :: 0 <= l < k ==> s[l] == '/') && (forall l :: k <= l < k + n ==> s[l] != '/')
    requires (k + n < |s| ==> s[k + n] == '/') && RunAt(s, i, j)
    ensures (i == k && j == k + n) || (i >= k + n && j >= k + n && RunAt(s[k + n..], i - k - n, j - k - n) && s[k + n..][i - k - n..j - k - n] == s[i..j])
  {
    assert i >= k;
    if i == k {
      assert j >= k + n;
    } else {
      assert i - 1 >= k + n;
      var rest, a, b := s[k + n..], i - k - n, j - k - n;
      assert rest[a - 1] == s[i - 1] && rest[a] == s[i] && (b < |rest| ==> rest[b] == s[j]);
      forall l | a <= l < b ensures rest[l] != '/' { assert rest[l] == s[l + k + n]; }
    }
  }

  predicate Absolute(s: string) { s != "" && s[0] == SLASH }

  // ---- the specification -----------------------------------------------------------------------------

  // One component on the stack: "." does nothing, ".." takes the last name away when there is one
  // and is dropped at the root.
  function Push(absolute: bool, stack: seq<string>, p: string): seq<string> {
    if p == "." then stack
    else if p == ".." && stack != [] && stack[|stack| - 1] != ".." then stack[..|stack| - 1]
    else if p == ".." && absolute then stack
    else stack + [p]
  }

  function PushAll(absolute: bool, stack: seq<string>, ps: seq<string>): seq<string>
    decreases |ps|
  {
    if ps == [] then stack else PushAll(absolute, Push(absolute, stack, ps[0]), ps[1..])
  }

  function Join(ps: seq<string>): string {
    if ps == [] then ""
    else if |ps| == 1 then ps[0]
    else Join(ps[..|ps| - 1]) + [SLASH] + ps[|ps| - 1]
  }

  function Text(absolute: bool, ps: seq<string>): string { (if absolute then [SLASH] else "") + Join(ps) }

  function Show(absolute: bool, ps: seq<string>): string {
    if Text(absolute, ps) == "" then "." else Text(absolute, ps)
  }

  function Clean(s: string): string { Show(Absolute(s), PushAll(Absolute(s), [], Components(s))) }

  // ---- normal stacks ----------------------------------------------------------------------------------

  // No "." and no empty component; ".." only in front, and not under the root.
  predicate Normal(absolute: bool, ps: seq<string>) {
    && AllParts(ps)
    && (forall i :: 0 <= i < |ps| ==> ps[i] != ".")
    && (forall i, j :: 0 <= i < j < |ps| && ps[j] == ".." ==> ps[i] == "..")
    && (absolute ==> forall i :: 0 <= i < |ps| ==> ps[i] != "..")
  }

  predicate AllParts(ps: seq<string>) { forall i :: 0 <= i < |ps| ==> Part(ps[i]) }

  lemma PushNormal(absolute: bool, stack: seq<string>, p: string)
    requires Normal(absolute, stack) && Part(p)
    ensures Normal(absolute, Push(absolute, stack, p))
  {
    var q := Push(absolute, stack, p);
    if p == ".." && q == stack + [p] {
      forall i | 0 <= i < |stack| ensures stack[i] == ".." { assert stack[|stack| - 1] == ".."; }
    }
  }

  lemma {:induction false} PushAllNormal(absolute: bool, stack: seq<string>, ps: seq<string>)
    requires Normal(absolute, stack) && AllParts(ps)
    ensures Normal(absolute, PushAll(absolute, stack, ps))
    decreases |ps|
  {
    if ps != [] {
      PushNormal(absolute, stack, ps[0]);
      PushAllNormal(absolute, Push(absolute, stack, ps[0]), ps[1..]);
    }
  }

  // A normal stack is rebuilt by pushing it.
  lemma {:induction false} PushAgain(absolute: bool, stack: seq<string>, ps: seq<string>)
    requires Normal(absolute, stack + ps)
    ensures PushAll(absolute, stack, ps) == stack + ps
    decreases |ps|
  {
    if ps == [] {
      assert stack + ps == stack;
    } else {
      var all := stack + ps;
      assert all[|stack|] == ps[0];
      if stack != [] { assert all[|stack| - 1] == stack[|stack| - 1]; }
      assert stack + [ps[0]] + ps[1..] == all;
      PushAgain(absolute, stack + [ps[0]], ps[1..]);
    }
  }

  // ---- reading a shown stack back --------------------------------------------------------------------

  lemma {:induction false} SkipNothing(p: string, rest: string)
    requires SLASH !in p && (rest == "" || rest[0] == SLASH)
    ensures PartLength(p + rest) == |p|
    decreases |p|
  {
    if p == "" {
      assert p + rest == rest;
    } else {
      assert (p + rest)[1..] == p[1..] + rest && p[0] in p;
      SkipNothing(p[1..], rest);
    }
  }

  lemma OneComponent(p: string, rest: string)
    requires Part(p) && (rest == "" || rest[0] == SLASH)
    ensures Components(p + rest) == [p] + Components(rest)
  {
    SkipNothing(p, rest);
    assert p[0] in p && SkipSlashes(p + rest) == p + rest;
    assert (p + rest)[..|p|] == p && (p + rest)[|p|..] == rest;
  }

  lemma LeadingSlash(s: string)
    ensures Components([SLASH] + s) == Components(s)
  {
    assert ([SLASH] + s)[1..] == s;
  }

  lemma {:induction false} JoinFront(ps: seq<string>)
    requires |ps| > 1
    ensures Join(ps) == ps[0] + [SLASH] + Join(ps[1..])
  {
    var k := |ps| - 1;
    if k > 1 {
      JoinFront(ps[..k]);
      assert ps[..k][1..] == ps[1..][..k - 1];
    } else {
      assert ps[..1] == [ps[0]] && ps[1..] == [ps[1]];
    }
  }

  lemma {:induction false} ComponentsOfJoin(ps: seq<string>)
    requires AllParts(ps)
    ensures Components(Join(ps)) == ps
    decreases |ps|
  {
    hide Components, Join;
    NoComponents();
    if |ps| == 1 {
      OneComponent(ps[0], "");
      JoinOne(ps);
      assert ps[0] + "" == ps[0];
    } else if |ps| > 1 {
      JoinFront(ps);
      var rest := [SLASH] + Join(ps[1..]);
      assert Join(ps) == ps[0] + rest;
      OneComponent(ps[0], rest);
      LeadingSlash(Join(ps[1..]));
      ComponentsOfJoin(ps[1..]);
    }
  }

  lemma NoComponents()
    ensures Components("") == [] && Join([]) == ""
  {}

  lemma JoinOne(ps: seq<string>)
    requires |ps| == 1
    ensures Join(ps) == ps[0]
  {}

  lemma {:induction false} JoinStarts(ps: seq<string>)
    requires AllParts(ps)
    ensures !Absolute(Join(ps)) && (Join(ps) == "" <==> ps == [])
    decreases |ps|
  {
    if |ps| > 0 {
      assert Part(ps[0]) && ps[0][0] in ps[0];
      if |ps| > 1 { JoinStarts(ps[..|ps| - 1]); }
    }
  }

  lemma ShownComponents(absolute: bool, ps: seq<string>)
    requires Normal(absolute, ps)
    ensures Absolute(Show(absolute, ps)) == absolute
    ensures Components(Show(absolute, ps)) == if !absolute && ps == [] then ["."] else ps
  {
    JoinStarts(ps);
    ComponentsOfJoin(ps);
    if absolute {
      LeadingSlash(Join(ps));
    } else {
      assert "" + Join(ps) == Join(ps);
      if ps == [] { OneComponent(".", ""); assert "." + "" == "." && Components("") == []; }
    }
  }

  // The result's components: none empty, none "." but a lone one, ".." only in front of a relative
  // path; and cleaning again changes nothing.
  lemma CleanIsNormal(s: string)
    ensures Absolute(Clean(s)) == Absolute(s)
    ensures Components(Clean(s)) == ["."] || Normal(Absolute(s), Components(Clean(s)))
    ensures Clean(s) == "." || Clean(s) == Text(Absolute(s), Components(Clean(s)))
    ensures Clean(Clean(s)) == Clean(s)
  {
    hide Components, PushAll, Normal, Absolute, Text;
    var absolute := Absolute(s);
    var stack := PushAll(absolute, [], Components(s));
    StartText(absolute);
    PushAllNormal(absolute, [], Components(s));
    ShownComponents(absolute, stack);
    ShownAgain(absolute, stack);
  }

  lemma ShownAgain(absolute: bool, stack: seq<string>)
    requires Normal(absolute, stack)
    ensures PushAll(absolute, [], if !absolute && stack == [] then ["."] else stack) == stack
    ensures !absolute && stack == [] ==> Show(absolute, stack) == "."
  {
    if !absolute && stack == [] {
      assert ["."][1..] == [];
    } else {
      assert [] + stack == stack;
      PushAgain(absolute, [], stack);
    }
  }

  // ---- the place a path leads to ----------------------------------------------------------------------

  // Following components from a directory, where ".." leads to the parent and the root is its own.
  function Walk(dir: seq<string>, ps: seq<string>): seq<string> {
    if ps == [] then dir
    else
      var k := |ps| - 1;
      Follow(Walk(dir, ps[..k]), ps[k])
  }

  function Follow(dir: seq<string>, p: string): seq<string> {
    if p == "." then dir
    else if p == ".." then (if dir == [] then [] else dir[..|dir| - 1])
    else dir + [p]
  }

  function Place(dir: seq<string>, s: string): seq<string> { Walk(if Absolute(s) then [] else dir, Components(s)) }

  lemma {:induction false} WalkFront(dir: seq<string>, ps: seq<string>)
    requires ps != []
    ensures Walk(dir, ps) == Walk(Follow(dir, ps[0]), ps[1..])
  {
    var k := |ps| - 1;
    if k > 0 {
      WalkFront(dir, ps[..k]);
      assert ps[..k][1..] == ps[1..][..k - 1];
    } else {
      assert ps[..0] == [] && ps[1..] == [];
    }
  }

  lemma PushFollows(absolute: bool, dir: seq<string>, stack: seq<string>, p: string)
    requires Normal(absolute, stack) && (absolute ==> dir == [])
    ensures Walk(dir, Push(absolute, stack, p)) == Follow(Walk(dir, stack), p)
  {
    if Push(absolute, stack, p) == stack + [p] { assert (stack + [p])[..|stack|] == stack; }
  }

  lemma {:induction false} PushAllFollows(absolute: bool, dir: seq<string>, stack: seq<string>, ps: seq<string>)
    requires Normal(absolute, stack) && AllParts(ps) && (absolute ==> dir == [])
    ensures Walk(dir, PushAll(absolute, stack, ps)) == Walk(Walk(dir, stack), ps)
    decreases |ps|
  {
    if ps != [] {
      PushNormal(absolute, stack, ps[0]);
      PushFollows(absolute, dir, stack, ps[0]);
      PushAllFollows(absolute, dir, Push(absolute, stack, ps[0]), ps[1..]);
      WalkFront(Walk(dir, stack), ps);
    }
  }

  // A relative path without ".." leads to a place at or below where it starts.
  lemma {:induction false} StaysBelow(dir: seq<string>, ps: seq<string>)
    requires ".." !in ps
    ensures |dir| <= |Walk(dir, ps)| && Walk(dir, ps)[..|dir|] == dir
  {
    if ps != [] {
      var k := |ps| - 1;
      StaysBelow(dir, ps[..k]);
    }
  }

  // Cleaning does not change where a path leads, from any directory.
  lemma CleanKeepsPlace(dir: seq<string>, s: string)
    ensures Place(dir, Clean(s)) == Place(dir, s)
  {
    var absolute := Absolute(s);
    var stack := PushAll(absolute, [], Components(s));
    var start := if absolute then [] else dir;
    PushAllNormal(absolute, [], Components(s));
    PushAllFollows(absolute, start, [], Components(s));
    ShownComponents(absolute, stack);
    if !absolute && stack == [] { assert ["."][..0] == []; }
  }

  // ---- the text of a stack, from its end ----------------------------------------------------------------

  // What a text ends in.
  lemma LastPart(absolute: bool, ps: seq<string>)
    requires Normal(absolute, ps) && ps != []
    ensures var t := Text(absolute, ps);
      var p := ps[|ps| - 1];
      && |p| <= |t| && t[|t| - |p|..] == p && SLASH !in p
      && (|ps| > 1 ==> |t| > |p| + 1 + (if absolute then 1 else 0) && t[|t| - |p| - 1] == SLASH && t[..|t| - |p| - 1] == Text(absolute, ps[..|ps| - 1]))
      && (|ps| == 1 ==> |t| == |p| + if absolute then 1 else 0)
  {
    assert Part(ps[|ps| - 1]);
    if |ps| > 1 {
      JoinStarts(ps[..|ps| - 1]);
    }
  }

  lemma AddPart(absolute: bool, ps: seq<string>, p: string)
    requires Normal(absolute, ps)
    ensures Text(absolute, ps + [p]) == Text(absolute, ps) + (if ps == [] then "" else [SLASH]) + p
    ensures ps != [] ==> Text(absolute, ps) != "" && Text(absolute, ps)[|Text(absolute, ps)| - 1] != SLASH
    ensures ps == [] ==> Text(absolute, ps) == (if absolute then [SLASH] else "")
  {
    assert (ps + [p])[..|ps|] == ps;
    if ps != [] {
      LastPart(absolute, ps);
      var last := ps[|ps| - 1];
      assert Part(last) && last[|last| - 1] in last;
    }
  }

  // ---- the cleaner ------------------------------------------------------------------------------------

  // Where the last component of a text starts.
  lemma LastStarts(absolute: bool, stack: seq<string>, text: string, partStart: nat)
    requires Normal(absolute, stack) && stack != [] && text == Text(absolute, stack)
    requires (if absolute then 1 else 0) <= partStart <= |text| && |text| - partStart <= |stack[|stack| - 1]|
    requires partStart == (if absolute then 1 else 0) || text[partStart - 1] == SLASH
    ensures |text| - partStart == |stack[|stack| - 1]| && text[partStart..] == stack[|stack| - 1]
  {
    LastPart(absolute, stack);
  }

  class Cleaner {
    const path: string
    const clean: array<char>
    var read: nat
    var written: nat
    const absolute: bool
    const root: nat
    ghost var stack: seq<string>

    // The text so far is the stack's and the output has room for it.
    ghost predicate Shows()
      reads this, clean
    {
      && clean.Length == |path| + 4 && written <= |path| && root == (if absolute then 1 else 0)
      && Normal(absolute, stack) && clean[..written] == Text(absolute, stack)
    }

    // What is read and what is left make up the path; the text is never longer than what was read.
    ghost predicate Valid()
      reads this, clean
    {
      && Shows() && absolute == Absolute(path) && written <= read <= |path|
      && (stack != [] ==> read == |path| || path[read] == SLASH)
      && PushAll(absolute, stack, Components(path[read..])) == PushAll(absolute, [], Components(path))
    }

    constructor (p: string)
      ensures path == p && fresh(clean) && Started()
    {
      path := p;
      absolute := Absolute(p);
      root := if p != "" && p[0] == SLASH then 1 else 0;
      clean := new char[|p| + 4];
      stack := [];
      read, written := 0, 0;
    }

    ghost predicate Started()
      reads this
    {
      read == 0 && written == 0 && stack == [] && clean.Length == |path| + 4 && absolute == Absolute(path) && root == (if absolute then 1 else 0)
    }

    // The separators an absolute path starts with.
    method Root()
      requires Started()
      modifies this`read, this`written, clean
      ensures Valid()
    {
      hide Components, PushAll, Normal, Text, Join;
      StartText(absolute);
      assert path[0..] == path && clean[..0] == "";
      if absolute {
        Copy([SLASH]);
        Slashes();
      }
    }

    // Past the separators.
    method Slashes()
      requires read <= |path|
      modifies this`read
      ensures old(read) <= read <= |path| && Components(path[read..]) == Components(path[old(read)..])
      ensures read < |path| ==> path[read] != SLASH
      ensures old(read) < |path| && path[old(read)] == SLASH ==> read > old(read)
    {
      hide Components;
      while read < |path| && path[read] == SLASH
        invariant old(read) <= read <= |path| && Components(path[read..]) == Components(path[old(read)..])
      {
        LeadingSlash(path[read + 1..]);
        assert path[read..] == [SLASH] + path[read + 1..];
        read := read + 1;
      }
    }

    method TakePart() returns (part: string)
      requires read < |path| && path[read] != SLASH
      modifies this`read
      ensures old(read) < read <= |path| && part == path[old(read)..read] && Part(part) && (read < |path| ==> path[read] == SLASH)
      ensures Components(path[old(read)..]) == [part] + Components(path[read..])
    {
      hide Components;
      var start := read;
      while read < |path| && path[read] != SLASH
        invariant start <= read <= |path| && forall k :: start <= k < read ==> path[k] != SLASH
      {
        read := read + 1;
      }
      part := path[start..read];
      assert read > start;
      OneComponent(part, path[read..]);
      assert part + path[read..] == path[start..];
    }

    // Where the last component in the output starts.
    method PartStart() returns (partStart: nat)
      requires Shows() && stack != []
      ensures root <= partStart <= written && written - partStart == |stack[|stack| - 1]| && clean[partStart..written] == stack[|stack| - 1]
    {
      hide Join, Normal, Text;
      ghost var text := clean[..written];
      LastPart(absolute, stack);
      partStart := written;
      while partStart > root && clean[partStart - 1] != SLASH
        invariant root <= partStart <= written && written - partStart <= |stack[|stack| - 1]|
      {
        assert text[partStart - 1] == clean[partStart - 1];
        StillInside(absolute, stack, text, partStart);
        partStart := partStart - 1;
      }
      assert partStart > root ==> text[partStart - 1] == SLASH;
      LastStarts(absolute, stack, text, partStart);
      assert text[partStart..] == clean[partStart..written];
    }

    // Takes the last name off the text, if there is one.
    method Up() returns (done: bool)
      requires Shows()
      modifies this`written, this`stack
      ensures done <==> old(stack) != [] && old(stack)[|old(stack)| - 1] != ".."
      ensures stack == if done then old(stack)[..|old(stack)| - 1] else old(stack)
      ensures written <= old(written) && Shows()
    {
      hide Join, Normal, Text;
      NothingShown(absolute, stack, written);
      if written <= root { return false; }
      ghost var text, parts := clean[..written], stack;
      var partStart := PartStart();
      var length := written - partStart;
      var previousParent := length == 2 && clean[partStart] == '.' && clean[partStart + 1] == '.';
      ghost var last := clean[partStart..written];
      IsParent(last);
      assert last == parts[|parts| - 1] && |last| == length && (length == 2 ==> last[0] == clean[partStart] && last[1] == clean[partStart + 1]);
      if previousParent { return false; }
      PopLast(absolute, parts, text, partStart);
      written := partStart;
      if written > root && clean[written - 1] == SLASH { written := written - 1; }
      stack := stack[..|stack| - 1];
      assert clean[..written] == text[..written];
      done := true;
    }

    // A component that stays: a separator if one is needed, and its bytes.
    method Append(part: string)
      requires Shows() && Part(part) && part != "." && (part == ".." ==> !absolute && forall i :: 0 <= i < |stack| ==> stack[i] == "..")
      requires written + |part| <= |path| && (stack != [] ==> written + 1 + |part| <= |path|)
      modifies this`written, this`stack, clean
      ensures Shows() && stack == old(stack) + [part]
      ensures written == old(written) + |part| + if old(stack) == [] then 0 else 1
    {
      hide Join, Normal, Text, Part;
      AddPart(absolute, stack, part);
      StillNormal(absolute, stack, part);
      ghost var text := clean[..written];
      assert written > 0 ==> text[written - 1] == clean[written - 1];
      if written > 0 && clean[written - 1] != SLASH { Copy([SLASH]); }
      ghost var separated := clean[..written];
      Copy(part);
      assert clean[..written] == separated + part;
      stack := stack + [part];
    }

    // Bytes at the end of the output.
    method Copy(bytes: string)
      requires written + |bytes| <= clean.Length
      modifies this`written, clean
      ensures written == old(written) + |bytes| && clean[..written] == old(clean[..written]) + bytes
    {
      forall k | 0 <= k < |bytes| { clean[written + k] := bytes[k]; }
      written := written + |bytes|;
    }

    // One component.
    method Step()
      requires Valid() && read < |path|
      modifies this`read, this`written, this`stack, clean
      ensures Valid() && read > old(read)
    {
      hide Normal, Text, Join, Components, PushAll;
      Slashes();
      if read >= |path| { return; }
      var part := TakePart();
      OnePush(absolute, stack, part, Components(path[read..]));
      if part == "." { return; }
      if part == ".." {
        ParentsOnly(absolute, stack);
        var done := Up();
        if done || absolute { return; }
      }
      Append(part);
    }

    method Finish() returns (r: string)
      requires Shows()
      modifies this`written, clean
      ensures r == Show(absolute, stack)
    {
      hide Normal, Text, Join;
      if written == 0 { Copy("."); }
      r := clean[..written];
    }

    // The whole path; the lone "." stands for nothing left.
    method Run() returns (r: string)
      requires Valid()
      modifies this`read, this`written, this`stack, clean
      ensures r == Clean(path)
    {
      hide Normal, Text, Join, Components, PushAll;
      while read < |path|
        invariant Valid()
        decreases |path| - read
      {
        Step();
      }
      Shown(absolute, stack);
      assert path[|path|..] == "";
      r := Finish();
    }
  }

  lemma StartText(absolute: bool)
    ensures Text(absolute, []) == (if absolute then [SLASH] else "") && Normal(absolute, [])
  {}

  method CleanBytes(path: string) returns (r: string)
    ensures r == Clean(path)
  {
    var c := new Cleaner(path);
    c.Root();
    r := c.Run();
  }

  lemma StillNormal(absolute: bool, stack: seq<string>, part: string)
    requires Normal(absolute, stack) && Part(part) && part != "." && (part == ".." ==> !absolute && forall i :: 0 <= i < |stack| ==> stack[i] == "..")
    ensures Normal(absolute, stack + [part])
  {}

  // With ".." on top of a normal stack, all of it is "..".
  lemma ParentsOnly(absolute: bool, stack: seq<string>)
    requires Normal(absolute, stack)
    ensures stack != [] && stack[|stack| - 1] == ".." ==> forall i :: 0 <= i < |stack| ==> stack[i] == ".."
  {}

  lemma OnePush(absolute: bool, stack: seq<string>, part: string, rest: seq<string>)
    ensures PushAll(absolute, stack, [part] + rest) == PushAll(absolute, Push(absolute, stack, part), rest)
  {
    assert ([part] + rest)[1..] == rest;
  }

  lemma Shown(absolute: bool, stack: seq<string>)
    ensures PushAll(absolute, stack, Components("")) == stack
  {}

  lemma IsParent(p: string)
    ensures p == ".." <==> |p| == 2 && p[0] == '.' && p[1] == '.'
  {}

  // Without its last component, and the separator in front of that, a text is the shorter stack's.
  lemma PopLast(absolute: bool, ps: seq<string>, text: string, partStart: nat)
    requires Normal(absolute, ps) && ps != [] && text == Text(absolute, ps)
    requires partStart == |text| - |ps[|ps| - 1]| >= if absolute then 1 else 0
    ensures var root := if absolute then 1 else 0;
      var w := if partStart > root && text[partStart - 1] == SLASH then partStart - 1 else partStart;
      Normal(absolute, ps[..|ps| - 1]) && w <= |text| && text[..w] == Text(absolute, ps[..|ps| - 1])
  {
    LastPart(absolute, ps);
    NoComponents();
    if |ps| == 1 { JoinOne(ps); assert ps[..0] == []; }
  }

  lemma NothingShown(absolute: bool, stack: seq<string>, written: nat)
    requires Normal(absolute, stack) && |Text(absolute, stack)| == written
    ensures written <= (if absolute then 1 else 0) <==> stack == []
  {
    JoinStarts(stack);
  }

  lemma StillInside(absolute: bool, stack: seq<string>, text: string, at: nat)
    requires Normal(absolute, stack) && stack != [] && text == Text(absolute, stack)
    requires (if absolute then 1 else 0) < at <= |text| && |text| - at <= |stack[|stack| - 1]| && text[at - 1] != SLASH
    ensures |text| - (at - 1) <= |stack[|stack| - 1]|
  {
    LastPart(absolute, stack);
  }
}
