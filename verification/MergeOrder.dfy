/** The order that the list merge sort establishes, over snapshots of the keys it has seen.
    A comparator may rewrite an item the first time it sees it, so an item has a settled
    key only once it has been touched. */
module MergeOrder {

  /** info: the data of each node; key: the settled key of each touched datum; pos: the
      place of each node in the list being sorted. */
  ghost predicate IsTouched<N, D>(v: View<N, D>, n: N) {
    n in v.info && v.info[n] in v.touched
  }

  ghost function Key<N, D>(v: View<N, D>, n: N): int {
    if n in v.info && v.info[n] in v.key then v.key[v.info[n]] else 0
  }

  ghost function Pos<N, D>(v: View<N, D>, n: N): int {
    if n in v.pos then v.pos[n] else 0
  }

  datatype View<N, D> = View(info: map<N, D>, key: map<D, int>, touched: set<D>, pos: map<N, int>)

  /** a is to come before b: a smaller key, or the same key and an earlier place. */
  ghost predicate Before<N, D>(v: View<N, D>, a: N, b: N) {
    Key(v, a) < Key(v, b) || (Key(v, a) == Key(v, b) && Pos(v, a) < Pos(v, b))
  }

  ghost predicate Ordered<N, D>(v: View<N, D>, s: seq<N>) {
    forall i, j :: 0 <= i < j < |s| ==> Before(v, s[i], s[j])
  }

  ghost predicate AllBefore<N, D>(v: View<N, D>, a: seq<N>, b: seq<N>) {
    forall i, j :: 0 <= i < |a| && 0 <= j < |b| ==> Before(v, a[i], b[j])
  }

  ghost predicate AllTouched<N, D>(v: View<N, D>, s: seq<N>) {
    forall i :: 0 <= i < |s| ==> IsTouched(v, s[i])
  }

  /** A sorted run: in order, and settled unless it is a single node. */
  ghost predicate SortedRun<N, D>(v: View<N, D>, s: seq<N>) {
    Ordered(v, s) && (|s| >= 2 ==> AllTouched(v, s))
  }

  /** All places in a are earlier than all places in b. */
  ghost predicate Earlier<N, D>(v: View<N, D>, a: seq<N>, b: seq<N>) {
    forall i, j :: 0 <= i < |a| && 0 <= j < |b| ==> Pos(v, a[i]) < Pos(v, b[j])
  }

  function Min(a: int, b: int): int {
    if a < b then a else b
  }

  /** s is cut into sorted runs of length k, the last possibly shorter. */
  ghost predicate Runs<N, D>(v: View<N, D>, s: seq<N>, k: nat)
    requires k > 0
    decreases |s|
  {
    s == [] ||
    var h := Min(k, |s|);
    SortedRun(v, s[..h]) && Earlier(v, s[..h], s[h..]) && Runs(v, s[h..], k)
  }

  /** s is cut into sorted runs of length exactly k. */
  ghost predicate FullRuns<N, D>(v: View<N, D>, s: seq<N>, k: nat)
    requires k > 0
    decreases |s|
  {
    s == [] || (|s| >= k && SortedRun(v, s[..k]) && Earlier(v, s[..k], s[k..]) && FullRuns(v, s[k..], k))
  }

  /** w knows all that v knew about settled items, and more. */
  ghost predicate Extends<N, D>(v: View<N, D>, w: View<N, D>) {
    && w.info == v.info && w.pos == v.pos && v.touched <= w.touched
    && forall d :: d in v.touched && d in v.key ==> d in w.key && w.key[d] == v.key[d]
  }

  /** Keys are known of all touched data. */
  ghost predicate Settled<N, D>(v: View<N, D>) {
    forall d :: d in v.touched ==> d in v.key
  }

  lemma KeyKept<N, D>(v: View<N, D>, w: View<N, D>, n: N)
    requires Extends(v, w) && Settled(v) && IsTouched(v, n)
    ensures Key(w, n) == Key(v, n) && IsTouched(w, n)
  {
  }

  lemma SortedRunKept<N, D>(v: View<N, D>, w: View<N, D>, s: seq<N>)
    requires Extends(v, w) && Settled(v) && SortedRun(v, s)
    ensures SortedRun(w, s)
  {
    if |s| >= 2 {
      forall i | 0 <= i < |s|
        ensures Key(w, s[i]) == Key(v, s[i]) && IsTouched(w, s[i])
      {
        KeyKept(v, w, s[i]);
      }
    }
  }

  lemma {:induction false} RunsKept<N, D>(v: View<N, D>, w: View<N, D>, s: seq<N>, k: nat)
    requires k > 0 && Extends(v, w) && Settled(v) && Runs(v, s, k)
    ensures Runs(w, s, k)
    decreases |s|
  {
    if s != [] {
      var h := Min(k, |s|);
      SortedRunKept(v, w, s[..h]);
      RunsKept(v, w, s[h..], k);
    }
  }

  lemma {:induction false} FullRunsKept<N, D>(v: View<N, D>, w: View<N, D>, s: seq<N>, k: nat)
    requires k > 0 && Extends(v, w) && Settled(v) && FullRuns(v, s, k)
    ensures FullRuns(w, s, k)
    decreases |s|
  {
    if s != [] {
      SortedRunKept(v, w, s[..k]);
      FullRunsKept(v, w, s[k..], k);
    }
  }

  /** A sorted run of length at most k after full runs of length k. */
  lemma {:induction false} AppendRun<N, D>(v: View<N, D>, a: seq<N>, b: seq<N>, k: nat)
    requires k > 0 && FullRuns(v, a, k) && SortedRun(v, b) && 0 < |b| <= k && Earlier(v, a, b)
    ensures Runs(v, a + b, k)
    ensures |b| == k ==> FullRuns(v, a + b, k)
    decreases |a|
  {
    if a == [] {
      assert a + b == b && b[..|b|] == b && b[|b|..] == [];
    } else {
      assert (a + b)[..k] == a[..k] && (a + b)[k..] == a[k..] + b;
      forall i, j | 0 <= i < k && 0 <= j < |a[k..] + b|
        ensures Pos(v, a[..k][i]) < Pos(v, (a[k..] + b)[j])
      {
      }
      AppendRun(v, a[k..], b, k);
    }
  }

  /** Singletons are sorted runs. */
  lemma {:induction false} SingletonRuns<N, D>(v: View<N, D>, s: seq<N>)
    requires forall i, j :: 0 <= i < j < |s| ==> Pos(v, s[i]) < Pos(v, s[j])
    ensures Runs(v, s, 1)
    decreases |s|
  {
    if s != [] {
      SingletonRuns(v, s[1..]);
    }
  }

  // ---------------------------------------------------------------- merging two runs

  /** While block is being merged from what is left of the runs p and q. */
  ghost predicate Merging<N, D>(v: View<N, D>, block: seq<N>, p: seq<N>, q: seq<N>) {
    && SortedRun(v, p) && SortedRun(v, q) && Earlier(v, p, q)
    && Ordered(v, block) && AllBefore(v, block, p) && AllBefore(v, block, q)
    && (block != [] && |block| + |p| + |q| >= 2 ==> AllTouched(v, block) && AllTouched(v, p) && AllTouched(v, q))
    && (p == [] && q != [] ==> block != [])
  }

  lemma MergingKept<N, D>(v: View<N, D>, w: View<N, D>, block: seq<N>, p: seq<N>, q: seq<N>)
    requires Extends(v, w) && Settled(v) && Merging(v, block, p, q)
    ensures Merging(w, block, p, q)
  {
    SortedRunKept(v, w, p);
    SortedRunKept(v, w, q);
    if block != [] && |block| + |p| + |q| >= 2 {
      AllKept(v, w, block);
      AllKept(v, w, p);
      AllKept(v, w, q);
    }
  }

  lemma AllKept<N, D>(v: View<N, D>, w: View<N, D>, s: seq<N>)
    requires Extends(v, w) && Settled(v) && AllTouched(v, s)
    ensures AllTouched(w, s) && forall i :: 0 <= i < |s| ==> Key(w, s[i]) == Key(v, s[i])
  {
    forall i | 0 <= i < |s|
      ensures Key(w, s[i]) == Key(v, s[i]) && IsTouched(w, s[i])
    {
      KeyKept(v, w, s[i]);
    }
  }

  /** The head of p goes first when q is used up. */
  lemma TakeRestOfP<N, D>(v: View<N, D>, block: seq<N>, p: seq<N>)
    requires Merging(v, block, p, []) && p != []
    ensures Merging(v, block + [p[0]], p[1..], [])
  {
  }

  lemma TakeRestOfQ<N, D>(v: View<N, D>, block: seq<N>, q: seq<N>)
    requires Merging(v, block, [], q) && q != []
    ensures Merging(v, block + [q[0]], [], q[1..])
  {
  }

  /** The head of p goes first when its settled key is not larger. */
  lemma TakeP<N, D>(v: View<N, D>, block: seq<N>, p: seq<N>, q: seq<N>)
    requires Merging(v, block, p, q) && p != [] && q != []
    requires IsTouched(v, p[0]) && IsTouched(v, q[0]) && Key(v, p[0]) <= Key(v, q[0])
    ensures Merging(v, block + [p[0]], p[1..], q)
  {
    assert Before(v, p[0], q[0]);
    forall j | 0 <= j < |q|
      ensures Before(v, p[0], q[j])
    {
      if j > 0 {
        assert Before(v, q[0], q[j]);
      }
    }
  }

  /** The head of q goes first only when its settled key is smaller. */
  lemma TakeQ<N, D>(v: View<N, D>, block: seq<N>, p: seq<N>, q: seq<N>)
    requires Merging(v, block, p, q) && p != [] && q != []
    requires IsTouched(v, p[0]) && IsTouched(v, q[0]) && Key(v, q[0]) < Key(v, p[0])
    ensures Merging(v, block + [q[0]], p, q[1..])
  {
    assert Before(v, q[0], p[0]);
    forall i | 0 <= i < |p|
      ensures Before(v, q[0], p[i])
    {
      if i > 0 {
        assert Before(v, p[0], p[i]);
      }
    }
  }
}
