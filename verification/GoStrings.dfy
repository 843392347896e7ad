/** Strings as Go's library treats them: the order of `sort.Strings`, prefixes,
    and the `namespace/name` keys of client-go. */
module GoStrings {

  import opened Wrappers

  // ---------- Lexicographic order ----------

  /** Go's `<=` on strings: compares character by character, a proper prefix first. */
  predicate Leq(a: string, b: string) {
    a == "" || (b != "" && (a[0] < b[0] || (a[0] == b[0] && Leq(a[1..], b[1..]))))
  }

  lemma LeqTotal(a: string, b: string)
    ensures Leq(a, b) || Leq(b, a)
  {
    if a != "" && b != "" && a[0] == b[0] {
      LeqTotal(a[1..], b[1..]);
    }
  }

  lemma {:induction false} LeqAntisymmetric(a: string, b: string)
    requires Leq(a, b) && Leq(b, a)
    ensures a == b
  {
    if a != "" && b != "" {
      LeqAntisymmetric(a[1..], b[1..]);
      assert a == [a[0]] + a[1..] && b == [b[0]] + b[1..];
    }
  }

  lemma {:induction false} LeqTransitive(a: string, b: string, c: string)
    requires Leq(a, b) && Leq(b, c)
    ensures Leq(a, c)
  {
    if a != "" && a[0] == b[0] && b[0] == c[0] {
      LeqTransitive(a[1..], b[1..], c[1..]);
    }
  }

  /** The order is lexicographic: `a` is a prefix of `b`, or smaller where they first differ. */
  lemma {:induction false} LeqIsLexicographic(a: string, b: string)
    ensures Leq(a, b) <==> a <= b || exists i :: 0 <= i < |a| && i < |b| && a[..i] == b[..i] && a[i] < b[i]
  {
    if a != "" && b != "" && a[0] == b[0] {
      LeqIsLexicographic(a[1..], b[1..]);
      assert a == [a[0]] + a[1..] && b == [b[0]] + b[1..];
      if i :| 0 <= i < |a| && i < |b| && a[..i] == b[..i] && a[i] < b[i] {
        assert a[1..][..i - 1] == a[..i][1..] == b[..i][1..] == b[1..][..i - 1];
        assert a[1..][i - 1] < b[1..][i - 1];
      }
      if i :| 0 <= i < |a| - 1 && i < |b| - 1 && a[1..][..i] == b[1..][..i] && a[1..][i] < b[1..][i] {
        assert a[..i + 1] == [a[0]] + a[1..][..i] && b[..i + 1] == [b[0]] + b[1..][..i];
        assert a[i + 1] < b[i + 1];
      }
    } else if a != "" && b != "" && a[0] < b[0] {
      assert a[..0] == b[..0];
    }
  }

  // ---------- Sorting ----------

  ghost predicate Sorted(s: seq<string>) {
    forall i, j :: 0 <= i < j < |s| ==> Leq(s[i], s[j])
  }

  /** Puts `x` behind the last element of `s` that is not above it. */
  function Insert(x: string, s: seq<string>): seq<string> {
    if s == [] || Leq(s[|s| - 1], x) then s + [x]
    else Insert(x, s[..|s| - 1]) + [s[|s| - 1]]
  }

  /** The sorted arrangement of `s`. */
  function SortHosts(s: seq<string>): seq<string> {
    if s == [] then [] else Insert(s[|s| - 1], SortHosts(s[..|s| - 1]))
  }

  lemma {:induction false} InsertSorted(x: string, s: seq<string>)
    requires Sorted(s)
    ensures Sorted(Insert(x, s)) && multiset(Insert(x, s)) == multiset(s) + multiset{x}
  {
    if s == [] {
    } else if Leq(s[|s| - 1], x) {
      forall i | 0 <= i < |s| ensures Leq(s[i], x) {
        if i < |s| - 1 { LeqTransitive(s[i], s[|s| - 1], x); }
      }
    } else {
      var front, last := s[..|s| - 1], s[|s| - 1];
      assert s == front + [last];
      InsertSorted(x, front);
      LeqTotal(x, last);
      var r := Insert(x, front);
      forall i | 0 <= i < |r| ensures Leq(r[i], last) {
        assert r[i] in multiset(r);
        assert r[i] in multiset(front) || r[i] == x;
      }
    }
  }

  lemma {:induction false} SortHostsSorts(s: seq<string>)
    ensures Sorted(SortHosts(s)) && multiset(SortHosts(s)) == multiset(s)
    ensures |SortHosts(s)| == |s|
  {
    if s != [] {
      var front, last := s[..|s| - 1], s[|s| - 1];
      assert s == front + [last];
      SortHostsSorts(front);
      InsertSorted(last, SortHosts(front));
    }
    assert |multiset(SortHosts(s))| == |multiset(s)|;
  }

  lemma LeastIsFirst(a: seq<string>, x: string)
    requires Sorted(a) && x in multiset(a)
    ensures Leq(a[0], x)
  {
    LeqTotal(x, x);
    var j :| 0 <= j < |a| && a[j] == x;
  }

  lemma SameFirst(a: seq<string>, b: seq<string>)
    requires Sorted(a) && Sorted(b) && multiset(a) == multiset(b) && a != [] && b != []
    ensures a[0] == b[0]
  {
    assert a[0] in multiset(a) && b[0] in multiset(b);
    LeastIsFirst(a, b[0]);
    LeastIsFirst(b, a[0]);
    LeqAntisymmetric(a[0], b[0]);
  }

  lemma TailBag(a: seq<string>)
    requires a != []
    ensures multiset(a[1..]) == multiset(a) - multiset{a[0]}
  {
    assert a == [a[0]] + a[1..];
  }

  lemma {:induction false} SortedUnique(a: seq<string>, b: seq<string>)
    requires Sorted(a) && Sorted(b) && multiset(a) == multiset(b)
    ensures a == b
  {
    assert |a| == |multiset(a)| == |multiset(b)| == |b|;
    if a != [] {
      SameFirst(a, b);
      TailBag(a);
      TailBag(b);
      SortedUnique(a[1..], b[1..]);
      assert a == [a[0]] + a[1..] && b == [b[0]] + b[1..];
    }
  }

  /** Sorting forgets the order it was given: equal bags have one sorted form. */
  lemma {:induction false} SortHostsCanonical(a: seq<string>, b: seq<string>)
    ensures multiset(a) == multiset(b) <==> SortHosts(a) == SortHosts(b)
    ensures Sorted(a) ==> SortHosts(a) == a
  {
    SortHostsSorts(a);
    SortHostsSorts(b);
    if multiset(a) == multiset(b) {
      SortedUnique(SortHosts(a), SortHosts(b));
    }
    if Sorted(a) {
      SortedUnique(SortHosts(a), a);
    }
  }

  lemma SameElements(s: seq<string>, x: string)
    ensures x in SortHosts(s) <==> x in s
  {
    SortHostsSorts(s);
    assert x in multiset(SortHosts(s)) <==> x in multiset(s);
  }

  /** `sort.Strings`, in place. */
  method SortStrings(a: array<string>)
    modifies a
    ensures a[..] == SortHosts(old(a[..]))
  {
    var i := 0;
    while i < a.Length
      invariant 0 <= i <= a.Length
      invariant a[..i] == SortHosts(old(a[..])[..i])
      invariant a[i..] == old(a[..])[i..]
    {
      ghost var was := old(a[..]);
      assert was[..i + 1][..i] == was[..i] && a[i] == a[i..][0] == was[i];
      assert a[i + 1..] == a[i..][1..] == was[i + 1..];
      InsertLast(a, i);
      i := i + 1;
    }
    assert a[..] == a[..i] && old(a[..])[..i] == old(a[..]);
  }

  method InsertLast(a: array<string>, i: nat)
    requires i < a.Length
    modifies a
    ensures a[..i + 1] == Insert(old(a[i]), old(a[..i]))
    ensures a[i + 1..] == old(a[i + 1..])
  {
    var x, j := a[i], i;
    ghost var was := a[..];
    while j > 0 && !Leq(a[j - 1], x)
      invariant 0 <= j <= i
      invariant forall k :: 0 <= k < j ==> a[k] == was[k]
      invariant forall k :: j < k <= i ==> a[k] == was[k - 1]
      invariant forall k :: i < k < a.Length ==> a[k] == was[k]
      invariant Insert(x, was[..i]) == Insert(x, was[..j]) + was[j..i]
    {
      InsertStep(x, was, i, j);
      a[j] := a[j - 1];
      j := j - 1;
    }
    a[j] := x;
    InsertHere(x, was[..j]);
    Shifted(a[..], was, i, j);
  }

  lemma Shifted(now: seq<string>, was: seq<string>, i: nat, j: nat)
    requires j <= i < |was| == |now|
    requires forall k :: 0 <= k < j ==> now[k] == was[k]
    requires forall k :: j < k <= i ==> now[k] == was[k - 1]
    requires forall k :: i < k < |now| ==> now[k] == was[k]
    ensures now[..i + 1] == was[..j] + [now[j]] + was[j..i] && now[i + 1..] == was[i + 1..]
  {
  }

  lemma InsertStep(x: string, s: seq<string>, i: nat, j: nat)
    requires 0 < j <= i <= |s| && !Leq(s[j - 1], x)
    ensures Insert(x, s[..j]) + s[j..i] == Insert(x, s[..j - 1]) + s[j - 1..i]
  {
    assert s[..j][..j - 1] == s[..j - 1] && s[..j][j - 1] == s[j - 1];
    assert s[j - 1..i] == [s[j - 1]] + s[j..i];
  }

  lemma InsertHere(x: string, s: seq<string>)
    requires s == [] || Leq(s[|s| - 1], x)
    ensures Insert(x, s) == s + [x]
  {
  }

  // ---------- Prefixes ----------

  predicate HasPrefix(s: string, prefix: string)
    ensures HasPrefix(s, prefix) <==> prefix <= s
  {
    |prefix| <= |s| && s[..|prefix|] == prefix
  }

  lemma PrefixesOfOne(s: string, a: string, b: string)
    requires HasPrefix(s, a) && HasPrefix(s, b) && |a| <= |b|
    ensures HasPrefix(b, a)
  {
    assert b[..|a|] == s[..|b|][..|a|] == s[..|a|];
  }

  lemma PrefixTransitive(s: string, b: string, a: string)
    requires HasPrefix(s, b) && HasPrefix(b, a)
    ensures HasPrefix(s, a)
  {
    assert s[..|a|] == s[..|b|][..|a|];
  }

  // ---------- Namespace keys ----------

  /** `strings.Split(s, "/")`. */
  function Split(s: string): (parts: seq<string>)
    ensures |parts| > 0
  {
    if s == "" then [""]
    else
      var rest := Split(s[1..]);
      if s[0] == '/' then [""] + rest else [[s[0]] + rest[0]] + rest[1..]
  }

  function Join(parts: seq<string>): string
    requires |parts| > 0
  {
    if |parts| == 1 then parts[0] else parts[0] + "/" + Join(parts[1..])
  }

  /** Splitting loses nothing and leaves no separator inside a part. */
  lemma {:induction false} SplitJoin(s: string)
    ensures Join(Split(s)) == s
    ensures forall i :: 0 <= i < |Split(s)| ==> '/' !in Split(s)[i]
  {
    if s != "" {
      SplitJoin(s[1..]);
      var rest := Split(s[1..]);
      assert s == [s[0]] + s[1..];
      if s[0] == '/' {
        assert Split(s)[1..] == rest;
      } else if |rest| > 1 {
        assert Split(s)[1..] == rest[1..];
        assert Join(Split(s)) == [s[0]] + Join(rest);
      }
    }
  }

  lemma {:induction false} JoinSplit(parts: seq<string>)
    requires |parts| > 0
    requires forall i :: 0 <= i < |parts| ==> '/' !in parts[i]
    ensures Split(Join(parts)) == parts
    decreases |parts|, |parts[0]|
  {
    var s := Join(parts);
    if parts[0] == "" {
      if |parts| > 1 {
        assert s[1..] == Join(parts[1..]);
        JoinSplit(parts[1..]);
      }
    } else {
      var shorter := [parts[0][1..]] + parts[1..];
      assert shorter[1..] == parts[1..];
      assert s[0] == parts[0][0] && s[1..] == Join(shorter);
      JoinSplit(shorter);
      assert Split(s) == [[s[0]] + shorter[0]] + shorter[1..];
      assert parts[0] == [s[0]] + shorter[0];
    }
  }

  /** A key with its parts, or the reason it is not one. */
  datatype SplitKeyResult = SplitOk(namespace: string, name: string) | SplitErr

  /** `cache.SplitMetaNamespaceKey`: one part is a bare name, two are namespace and name. */
  function SplitMetaNamespaceKey(key: string): SplitKeyResult {
    var parts := Split(key);
    if |parts| == 1 then SplitOk("", parts[0])
    else if |parts| == 2 then SplitOk(parts[0], parts[1])
    else SplitErr
  }

  /** `cache.MetaNamespaceKeyFunc`. */
  function MetaNamespaceKey(namespace: string, name: string): string {
    if namespace == "" then name else namespace + "/" + name
  }

  /** Splitting undoes composing, for parts that hold no separator. */
  lemma SplitOfKey(namespace: string, name: string)
    requires '/' !in namespace && '/' !in name
    ensures SplitMetaNamespaceKey(MetaNamespaceKey(namespace, name)) == SplitOk(namespace, name)
  {
    if namespace == "" {
      JoinSplit([name]);
    } else {
      JoinPair(namespace, name);
    }
  }

  lemma JoinPair(ns: string, n: string)
    requires '/' !in ns && '/' !in n
    ensures Split(ns + "/" + n) == [ns, n]
  {
    assert [ns, n][1..] == [n];
    JoinSplit([ns, n]);
  }

  /** A key splits exactly when it is a bare name or a `namespace/name` pair. */
  lemma SplitSucceedsExactly(key: string)
    ensures SplitMetaNamespaceKey(key).SplitOk? <==>
            '/' !in key || exists ns, n :: '/' !in ns && '/' !in n && key == ns + "/" + n
  {
    var parts := Split(key);
    SplitJoin(key);
    if |parts| == 1 {
      assert key == parts[0];
    } else if |parts| == 2 {
      assert parts[1..] == [parts[1]];
      assert key == parts[0] + "/" + parts[1];
    } else {
      assert key == parts[0] + "/" + Join(parts[1..]);
      assert key[|parts[0]|] == '/';
      if ns, n :| '/' !in ns && '/' !in n && key == ns + "/" + n {
        JoinPair(ns, n);
      }
    }
  }

  lemma NoSlashBefore(ns: string, n: string)
    requires '/' !in ns
    ensures forall i :: 0 <= i < |ns| ==> (ns + "/" + n)[i] != '/'
  {
    forall i | 0 <= i < |ns| ensures (ns + "/" + n)[i] != '/' {
      assert (ns + "/" + n)[i] == ns[i];
      assert ns[i] in ns;
    }
  }

  /** The lister's composed key tells slash-free namespaces apart. */
  lemma {:induction false} ComposedKeyInjective(ns: string, n: string, ns': string, n': string)
    requires '/' !in ns && '/' !in ns'
    requires ns + "/" + n == ns' + "/" + n'
    ensures ns == ns' && n == n'
  {
    var key := ns + "/" + n;
    assert key[|ns|] == '/' && key[|ns'|] == '/';
    NoSlashBefore(ns, n);
    NoSlashBefore(ns', n');
    assert |ns| == |ns'|;
    assert ns == key[..|ns|] && ns' == key[..|ns'|];
    assert n == key[|ns| + 1..] && n' == key[|ns'| + 1..];
  }
}
