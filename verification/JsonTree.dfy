// JSON trees of the C runtime, the byte order of object keys, and the two object sorts.
module JsonTree {
  import opened Wrappers
  import opened JsonUtf8

  datatype Member = Member(key: Text, value: Json)

  // Number is an integer outside the signed 64-bit range, kept as its spelling; Float is a number
  // with a fraction or an exponent.
  datatype Json =
    | Null
    | Bool(b: bool)
    | Int(value: int)
    | Number(spelling: Text)
    | Float(spelling: Text)
    | Str(bytes: Text)
    | Array(items: seq<Json>)
    | Object(members: seq<Member>)

  // ---- byte order ---------------------------------------------------------------------------------

  predicate Less(a: Text, b: Text) {
    if b == [] then false
    else if a == [] then true
    else if a[0] != b[0] then a[0] < b[0]
    else Less(a[1..], b[1..])
  }

  // The first `k` bytes agree, and there one text ends or has the smaller byte.
  predicate LessAt(a: Text, b: Text, k: nat) {
    && k <= |a| && k < |b| && (forall i :: 0 <= i < k ==> a[i] == b[i])
    && (k == |a| || a[k] < b[k])
  }

  lemma {:induction false} LessExactly(a: Text, b: Text)
    ensures Less(a, b) <==> exists k: nat :: LessAt(a, b, k)
  {
    if a == [] && b != [] {
      assert LessAt(a, b, 0);
    } else if b != [] && a[0] != b[0] {
      if a[0] < b[0] { assert LessAt(a, b, 0); }
    } else if b != [] {
      LessExactly(a[1..], b[1..]);
      if k: nat :| LessAt(a[1..], b[1..], k) { assert LessAt(a, b, k + 1); }
      if k: nat :| LessAt(a, b, k) { assert LessAt(a[1..], b[1..], k - 1); }
    }
  }

  lemma {:induction false} LessTotal(a: Text, b: Text)
    ensures a == b || Less(a, b) || Less(b, a)
    ensures !(Less(a, b) && Less(b, a)) && !Less(a, a)
    decreases |a| + |b|
  {
    if a != [] { LessIrreflexive(a); }
    if a != [] && b != [] && a[0] == b[0] {
      LessTotal(a[1..], b[1..]);
      assert a == [a[0]] + a[1..] && b == [b[0]] + b[1..];
    }
  }

  lemma {:induction false} LessIrreflexive(a: Text)
    ensures !Less(a, a)
  {
    if a != [] { LessIrreflexive(a[1..]); }
  }

  lemma {:induction false} LessTransitive(a: Text, b: Text, c: Text)
    requires Less(a, b) && Less(b, c)
    ensures Less(a, c)
  {
    if a != [] && a[0] == b[0] && b[0] == c[0] { LessTransitive(a[1..], b[1..], c[1..]); }
  }

  // The comparison both sorts use: the common prefix decides, then the lengths.
  method Compare(a: Text, b: Text) returns (order: int)
    ensures order < 0 <==> Less(a, b)
    ensures order > 0 <==> Less(b, a)
    ensures order == 0 <==> a == b
  {
    var n := if |a| < |b| then |a| else |b|;
    LessTotal(a, b);
    for i := 0 to n
      invariant a[..i] == b[..i]
      invariant Less(a, b) <==> Less(a[i..], b[i..])
      invariant Less(b, a) <==> Less(b[i..], a[i..])
    {
      if a[i] != b[i] { return a[i] as int - b[i] as int; }
    }
    assert |a| == |b| ==> a[..n] == a && b[..n] == b;
    order := if |a| < |b| then -1 else if |a| > |b| then 1 else 0;
  }

  // ---- objects ------------------------------------------------------------------------------------

  predicate Ascending(ms: seq<Member>) {
    ms != [] ==> (forall m :: m in ms[1..] ==> Less(ms[0].key, m.key)) && Ascending(ms[1..])
  }

  // The last member with the key.
  function Lookup(ms: seq<Member>, k: Text): Option<Json> {
    if ms == [] then None
    else if Lookup(ms[1..], k).Some? then Lookup(ms[1..], k)
    else if ms[0].key == k then Some(ms[0].value)
    else None
  }

  lemma {:induction false} LookupAppend(a: seq<Member>, b: seq<Member>, k: Text)
    ensures Lookup(a + b, k) == if Lookup(b, k).Some? then Lookup(b, k) else Lookup(a, k)
  {
    if a == [] {
      assert a + b == b;
    } else {
      assert (a + b)[1..] == a[1..] + b;
      LookupAppend(a[1..], b, k);
    }
  }

  lemma {:induction false} LookupFound(ms: seq<Member>, k: Text)
    ensures Lookup(ms, k).Some? <==> exists m :: m in ms && m.key == k
  {
    if ms != [] {
      LookupFound(ms[1..], k);
      assert ms == [ms[0]] + ms[1..];
    }
  }

  // Where a lookup finds its value: no later member has the key.
  lemma {:induction false} LookupIndex(ms: seq<Member>, k: Text, i: nat)
    requires i < |ms| && ms[i].key == k && forall j :: i < j < |ms| ==> ms[j].key != k
    ensures Lookup(ms, k) == Some(ms[i].value)
  {
    LookupFound(ms[i + 1..], k);
    LookupAppend(ms[..i], ms[i..], k);
    assert ms == ms[..i] + ms[i..] && ms[i..][1..] == ms[i + 1..];
  }

  lemma {:induction false} Unique(a: seq<Member>, b: seq<Member>)
    requires Ascending(a) && Ascending(b) && forall k :: Lookup(a, k) == Lookup(b, k)
    ensures a == b
  {
    if a == [] || b == [] {
      var k := if a != [] then a[0].key else if b != [] then b[0].key else [];
      LookupFound(a, k);
      LookupFound(b, k);
    } else {
      LookupFound(a, a[0].key);
      LookupFound(b, a[0].key);
      LookupFound(a, b[0].key);
      LookupFound(b, b[0].key);
      LessTotal(a[0].key, b[0].key);
      assert a == [a[0]] + a[1..] && b == [b[0]] + b[1..];
      assert a[0].key == b[0].key;
      HeadNotBelow(a);
      HeadNotBelow(b);
      assert Lookup(a, a[0].key) == Some(a[0].value);
      assert Lookup(b, a[0].key) == Some(b[0].value);
      forall k ensures Lookup(a[1..], k) == Lookup(b[1..], k) { assert Lookup(a, k) == Lookup(b, k); }
      Unique(a[1..], b[1..]);
    }
  }

  lemma HeadNotBelow(a: seq<Member>)
    requires Ascending(a) && a != []
    ensures Lookup(a[1..], a[0].key) == None
  {
    LookupFound(a[1..], a[0].key);
    LessIrreflexive(a[0].key);
  }

  // What an object's written members come to: one member a key, in byte order, the last one wins.
  function Collect(ms: seq<Member>): seq<Member> {
    if ms == [] then [] else Add(ms[0], Collect(ms[1..]))
  }

  function Add(m: Member, ms: seq<Member>): seq<Member> {
    if ms == [] || Less(m.key, ms[0].key) then [m] + ms
    else if m.key == ms[0].key then ms
    else [ms[0]] + Add(m, ms[1..])
  }

  lemma {:induction false} AddLookup(m: Member, ms: seq<Member>, k: Text)
    requires Ascending(ms)
    ensures Ascending(Add(m, ms))
    ensures forall x :: x in Add(m, ms) ==> x == m || x in ms
    ensures Lookup(Add(m, ms), k) == if Lookup(ms, k).Some? then Lookup(ms, k) else if m.key == k then Some(m.value) else None
  {
    if ms == [] || Less(m.key, ms[0].key) {
      assert ([m] + ms)[1..] == ms;
      forall x | x in ms ensures Less(m.key, x.key) {
        if x in ms[1..] { LessTransitive(m.key, ms[0].key, x.key); }
      }
    } else if m.key == ms[0].key {
    } else {
      LessTotal(m.key, ms[0].key);
      AddLookup(m, ms[1..], k);
      assert Add(m, ms)[1..] == Add(m, ms[1..]);
    }
  }

  lemma {:induction false} CollectLookup(ms: seq<Member>, k: Text)
    ensures Ascending(Collect(ms)) && Lookup(Collect(ms), k) == Lookup(ms, k)
    ensures forall x :: x in Collect(ms) ==> x in ms
  {
    if ms != [] {
      CollectLookup(ms[1..], k);
      AddLookup(ms[0], Collect(ms[1..]), k);
    }
  }

  lemma CollectIs(a: seq<Member>, ms: seq<Member>)
    requires Ascending(a) && forall k :: Lookup(a, k) == Lookup(ms, k)
    ensures a == Collect(ms)
  {
    CollectLookup(ms, []);
    forall k ensures Lookup(a, k) == Lookup(Collect(ms), k) { CollectLookup(ms, k); }
    Unique(a, Collect(ms));
  }

  lemma CollectAscending(ms: seq<Member>)
    requires Ascending(ms)
    ensures Collect(ms) == ms
  {
    CollectIs(ms, ms);
  }

  // ---- the sorts -----------------------------------------------------------------------------------

  predicate Sorted(ms: seq<Member>) { forall i, j :: 0 <= i < j < |ms| ==> !Less(ms[j].key, ms[i].key) }

  ghost predicate Distinct(ms: seq<Member>) { forall i, j :: 0 <= i < j < |ms| ==> ms[i].key != ms[j].key }

  lemma {:induction false} DistinctSortedAscends(ms: seq<Member>)
    requires Sorted(ms) && Distinct(ms)
    ensures Ascending(ms)
  {
    if ms != [] {
      assert forall i, j :: 0 <= i < j < |ms[1..]| ==> ms[1..][i] == ms[i + 1] && ms[1..][j] == ms[j + 1];
      DistinctSortedAscends(ms[1..]);
      forall m | m in ms[1..] ensures Less(ms[0].key, m.key) {
        var j :| 0 <= j < |ms[1..]| && ms[1..][j] == m;
        assert m == ms[j + 1];
        LessTotal(ms[0].key, m.key);
      }
    }
  }

  // A permutation of distinct keys looks up alike.
  lemma PermutedLookup(a: seq<Member>, b: seq<Member>, k: Text)
    requires multiset(a) == multiset(b) && Distinct(a) && Distinct(b)
    ensures Lookup(a, k) == Lookup(b, k)
  {
    LookupFound(a, k);
    LookupFound(b, k);
    assert forall m :: m in a <==> m in multiset(a);
    assert forall m :: m in b <==> m in multiset(b);
    if i :| 0 <= i < |a| && a[i].key == k {
      LookupIndex(a, k, i);
      assert a[i] in multiset(b);
      var j :| 0 <= j < |b| && b[j] == a[i];
      LookupIndex(b, k, j);
    }
  }

  lemma DistinctByCount(a: seq<Member>, b: seq<Member>)
    requires multiset(a) == multiset(b) && Distinct(a)
    ensures Distinct(b)
  {
    forall i, j | 0 <= i < j < |b| ensures b[i].key != b[j].key {
      if b[i].key == b[j].key {
        assert b[i] in multiset(b) && b[j] in multiset(b);
        assert b[i] in multiset(a) && b[j] in multiset(a);
        var x :| 0 <= x < |a| && a[x] == b[i];
        var y :| 0 <= y < |a| && a[y] == b[j];
        assert x == y;
        TwiceIn(b, i, j);
        OnceIn(a, x);
      }
    }
  }

  lemma TwiceIn(b: seq<Member>, i: nat, j: nat)
    requires i < j < |b| && b[i] == b[j]
    ensures multiset(b)[b[i]] >= 2
  {
    assert b == b[..i] + [b[i]] + b[i + 1..j] + [b[j]] + b[j + 1..];
  }

  lemma OnceIn(a: seq<Member>, x: nat)
    requires x < |a| && Distinct(a)
    ensures multiset(a)[a[x]] == 1
  {
    assert a == a[..x] + [a[x]] + a[x + 1..];
    assert a[x] !in a[..x] && a[x] !in a[x + 1..];
  }

  // Whatever the sort does with equal keys, distinct keys come out as the collected object.
  lemma SortedIsCollected(a: seq<Member>, ms: seq<Member>)
    requires multiset(a) == multiset(ms) && Sorted(a) && Distinct(ms)
    ensures a == Collect(ms)
  {
    DistinctByCount(ms, a);
    DistinctSortedAscends(a);
    forall k ensures Lookup(a, k) == Lookup(ms, k) { PermutedLookup(a, ms, k); }
    CollectIs(a, ms);
  }

  method Place(r: seq<Member>, m: Member) returns (j: nat)
    requires Sorted(r)
    ensures j <= |r| && Sorted(r[..j] + [m] + r[j..])
  {
    j := |r|;
    while j > 0
      invariant 0 <= j <= |r|
      invariant forall x :: j <= x < |r| ==> Less(m.key, r[x].key)
    {
      var order := Compare(r[j - 1].key, m.key);
      if order <= 0 { break; }
      j := j - 1;
    }
    InsertSorted(r, m, j);
  }

  method SortByKey(ms: seq<Member>) returns (r: seq<Member>)
    ensures multiset(r) == multiset(ms) && Sorted(r)
  {
    r := [];
    assert ms[..0] == [];
    for i := 0 to |ms|
      invariant multiset(r) == multiset(ms[..i]) && Sorted(r)
    {
      hide Sorted;
      var j := Place(r, ms[i]);
      Inserted(r, ms[i], j);
      OneLonger(ms, i);
      r := r[..j] + [ms[i]] + r[j..];
    }
    assert ms[..|ms|] == ms;
  }

  lemma Inserted<T>(r: seq<T>, x: T, j: nat)
    requires j <= |r|
    ensures multiset(r[..j] + [x] + r[j..]) == multiset(r) + multiset{x}
  {
    assert r == r[..j] + r[j..];
  }

  lemma OneLonger<T>(s: seq<T>, i: nat)
    requires i < |s|
    ensures multiset(s[..i + 1]) == multiset(s[..i]) + multiset{s[i]}
  {
    assert s[..i + 1] == s[..i] + [s[i]];
  }

  lemma InsertSorted(r: seq<Member>, m: Member, j: nat)
    requires Sorted(r) && j <= |r|
    requires forall x :: j <= x < |r| ==> Less(m.key, r[x].key)
    requires j > 0 ==> !Less(m.key, r[j - 1].key)
    ensures Sorted(r[..j] + [m] + r[j..])
  {
    var q := r[..j] + [m] + r[j..];
    forall x, y | 0 <= x < y < |q| ensures !Less(q[y].key, q[x].key) {
      if x < j && y == j {
        if Less(m.key, r[x].key) {
          LessTotal(r[x].key, r[j - 1].key);
          if Less(r[x].key, r[j - 1].key) { LessTransitive(m.key, r[x].key, r[j - 1].key); }
          assert false;
        }
      } else if x == j {
        LessTotal(m.key, r[y - 1].key);
      }
    }
  }

  // ---- duplicate keys -------------------------------------------------------------------------------

  datatype Entry = Entry(member: Member, order: nat)

  predicate Precedes(a: Entry, b: Entry) {
    Less(a.member.key, b.member.key) || (a.member.key == b.member.key && a.order < b.order)
  }

  ghost predicate Numbered(es: seq<Entry>, ms: seq<Member>) {
    |es| == |ms| && forall i :: 0 <= i < |es| ==> es[i] == Entry(ms[i], i)
  }

  function Members(es: seq<Entry>): (r: seq<Member>)
    ensures |r| == |es| && forall i :: 0 <= i < |es| ==> r[i] == es[i].member
  {
    if es == [] then [] else [es[0].member] + Members(es[1..])
  }

  ghost predicate InOrder(es: seq<Entry>) { forall i, j :: 0 <= i < j < |es| ==> Precedes(es[i], es[j]) }

  // Sorting by key and original position keeps every last occurrence last.
  lemma SortedLookup(es: seq<Entry>, r: seq<Entry>, ms: seq<Member>, k: Text)
    requires Numbered(es, ms) && multiset(r) == multiset(es) && InOrder(r)
    ensures Lookup(Members(r), k) == Lookup(ms, k)
  {
    LookupFound(ms, k);
    LookupFound(Members(r), k);
    if Lookup(ms, k).Some? {
      var i := LastIndex(ms, k);
      LookupIndex(ms, k, i);
      assert es[i] in multiset(r);
      var x :| 0 <= x < |r| && r[x] == es[i];
      forall y | x < y < |r| ensures Members(r)[y].key != k {
        assert r[y] in multiset(es);
        var o :| 0 <= o < |es| && es[o] == r[y];
        LessIrreflexive(k);
      }
      LookupIndex(Members(r), k, x);
    } else {
      forall m | m in Members(r) ensures m.key != k {
        var y :| 0 <= y < |r| && r[y].member == m;
        assert r[y] in multiset(es);
        var o :| 0 <= o < |es| && es[o] == r[y];
        assert ms[o] in ms;
      }
    }
  }

  lemma {:induction false} LastIndex(ms: seq<Member>, k: Text) returns (i: nat)
    requires Lookup(ms, k).Some?
    ensures i < |ms| && ms[i].key == k && forall j :: i < j < |ms| ==> ms[j].key != k
  {
    if Lookup(ms[1..], k).Some? {
      i := LastIndex(ms[1..], k);
      LastInTail(ms, k, i);
      i := i + 1;
    } else {
      LookupFound(ms[1..], k);
      i := 0;
      forall j | 0 < j < |ms| ensures ms[j].key != k { assert ms[j] in ms[1..]; }
    }
  }

  lemma LastInTail(ms: seq<Member>, k: Text, i: nat)
    requires ms != [] && i < |ms[1..]| && ms[1..][i].key == k && forall j :: i < j < |ms[1..]| ==> ms[1..][j].key != k
    ensures ms[i + 1].key == k && forall j :: i + 1 < j < |ms| ==> ms[j].key != k
  {
    forall j | i + 1 < j < |ms| ensures ms[j].key != k { assert ms[1..][j - 1] == ms[j]; }
  }

  lemma PrecedesTransitive(a: Entry, b: Entry, c: Entry)
    requires Precedes(a, b) && Precedes(b, c)
    ensures Precedes(a, c)
  {
    if Less(a.member.key, b.member.key) && Less(b.member.key, c.member.key) { LessTransitive(a.member.key, b.member.key, c.member.key); }
  }

  method PlaceEntry(r: seq<Entry>, e: Entry) returns (j: nat)
    requires InOrder(r) && forall x :: x in r ==> x.order < e.order
    ensures j <= |r| && InOrder(r[..j] + [e] + r[j..])
  {
    j := |r|;
    while j > 0
      invariant j <= |r|
      invariant forall x :: j <= x < |r| ==> Precedes(e, r[x])
    {
      hide InOrder;
      var order := Compare(r[j - 1].member.key, e.member.key);
      assert r[j - 1] in r;
      if order <= 0 { break; }
      j := j - 1;
    }
    PlacedInOrder(r, e, j);
  }

  lemma PlacedInOrder(r: seq<Entry>, e: Entry, j: nat)
    requires InOrder(r) && j <= |r| && (j > 0 ==> Precedes(r[j - 1], e))
    requires forall x :: j <= x < |r| ==> Precedes(e, r[x])
    ensures InOrder(r[..j] + [e] + r[j..])
  {
    forall x | 0 <= x < j ensures Precedes(r[x], e) {
      if x < j - 1 { PrecedesTransitive(r[x], r[j - 1], e); }
    }
  }

  method SortEntries(es: seq<Entry>, ghost ms: seq<Member>) returns (r: seq<Entry>)
    requires Numbered(es, ms)
    ensures multiset(r) == multiset(es) && InOrder(r)
  {
    r := [];
    assert InOrder(r) && es[..0] == [];
    hide InOrder, Numbered;
    for i := 0 to |es|
      invariant multiset(r) == multiset(es[..i]) && InOrder(r)
    {
      Earlier(es, ms, i, r);
      var j := PlaceEntry(r, es[i]);
      Inserted(r, es[i], j);
      OneLonger(es, i);
      r := r[..j] + [es[i]] + r[j..];
    }
    assert es[..|es|] == es;
  }

  // What is sorted already was numbered before.
  lemma Earlier(es: seq<Entry>, ms: seq<Member>, i: nat, r: seq<Entry>)
    requires Numbered(es, ms) && i < |es| && multiset(r) == multiset(es[..i])
    ensures forall x :: x in r ==> x.order < es[i].order
  {
    forall x | x in r ensures x.order < es[i].order {
      assert x in multiset(es[..i]);
    }
  }

  // The parser's object: sorted, then each run of equal keys compacted into its last value.
  method CollectEntries(es: seq<Entry>, ghost ms: seq<Member>) returns (out: seq<Member>)
    requires Numbered(es, ms)
    ensures out == Collect(ms)
  {
    var sorted := SortEntries(es, ms);
    out := [];
    for i := 0 to |sorted|
      invariant Ascending(out) && (i > 0 ==> out != [] && out[|out| - 1].key == sorted[i - 1].member.key)
      invariant out != [] ==> i > 0
      invariant forall k :: Lookup(out, k) == Lookup(Members(sorted[..i]), k)
    {
      var e := sorted[i];
      MembersSnoc(sorted, i);
      var n := |out|;
      ghost var before := out;
      if n > 0 && out[n - 1].key == e.member.key {
        out := out[..n - 1] + [e.member];
        ReplaceLast(before, e.member, out);
      } else {
        if n > 0 { assert Precedes(sorted[i - 1], sorted[i]); }
        AppendLast(before, e.member);
        out := out + [e.member];
      }
      assert forall k :: Lookup(out, k) == if e.member.key == k then Some(e.member.value) else Lookup(before, k);
      forall k ensures Lookup(out, k) == Lookup(Members(sorted[..i + 1]), k) {
        LookupAppend(Members(sorted[..i]), [e.member], k);
        assert [e.member][1..] == [];
      }
    }
    assert sorted[..|sorted|] == sorted;
    forall k ensures Lookup(out, k) == Lookup(ms, k) { SortedLookup(es, sorted, ms, k); }
    CollectIs(out, ms);
  }

  lemma MembersSnoc(es: seq<Entry>, i: nat)
    requires i < |es|
    ensures Members(es[..i + 1]) == Members(es[..i]) + [es[i].member]
  {
    hide Members;
    var a, b := Members(es[..i + 1]), Members(es[..i]) + [es[i].member];
    assert forall k :: 0 <= k <= i ==> a[k] == b[k];
  }

  lemma {:induction false} AppendLast(ms: seq<Member>, m: Member)
    requires Ascending(ms) && (ms != [] ==> Less(ms[|ms| - 1].key, m.key))
    ensures Ascending(ms + [m])
    ensures forall k :: Lookup(ms + [m], k) == if m.key == k then Some(m.value) else Lookup(ms, k)
  {
    forall k ensures Lookup(ms + [m], k) == if m.key == k then Some(m.value) else Lookup(ms, k) { LookupAppend(ms, [m], k); }
    AppendAscends(ms, m);
  }

  lemma {:induction false} AppendAscends(ms: seq<Member>, m: Member)
    requires Ascending(ms) && (ms != [] ==> Less(ms[|ms| - 1].key, m.key))
    ensures Ascending(ms + [m])
  {
    if ms != [] {
      assert (ms + [m])[1..] == ms[1..] + [m];
      AppendAscends(ms[1..], m);
      if |ms| > 1 {
        assert ms[1..][|ms| - 2] == ms[|ms| - 1];
        LessTransitive(ms[0].key, ms[|ms| - 1].key, m.key);
      }
    }
  }

  lemma {:induction false} ReplaceLast(ms: seq<Member>, m: Member, out: seq<Member>)
    requires Ascending(ms) && ms != [] && ms[|ms| - 1].key == m.key && out == ms[..|ms| - 1] + [m]
    ensures Ascending(out)
    ensures forall k :: Lookup(out, k) == if m.key == k then Some(m.value) else Lookup(ms, k)
  {
    var n := |ms| - 1;
    assert ms == ms[..n] + [ms[n]];
    PrefixAscends(ms, n);
    AppendLast(ms[..n], m);
    forall k ensures Lookup(out, k) == if m.key == k then Some(m.value) else Lookup(ms, k) { LookupAppend(ms[..n], [ms[n]], k); }
  }

  lemma {:induction false} PrefixAscends(ms: seq<Member>, n: nat)
    requires Ascending(ms) && n == |ms| - 1
    ensures Ascending(ms[..n]) && (n > 0 ==> Less(ms[n - 1].key, ms[n].key))
  {
    if n > 0 {
      PrefixAscends(ms[1..], n - 1);
      assert ms[1..][..n - 1] == ms[..n][1..];
      if n == 1 { assert ms[1] in ms[1..]; }
    }
  }
}
