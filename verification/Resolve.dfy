/** Breadth-first dependency resolution, skipping the packages of the base system. */
module DependencyResolver {

  type Name = string

  datatype Package = Package(filename: string, deps: seq<Name>)

  type Index = map<Name, Package>

  /** Packages `resolve` may return: indexed, and not part of the base system. */
  predicate Wanted(db: Index, base: set<Name>, x: Name) {
    x in db && x !in base
  }

  /** A chain of wanted packages from a root along declared dependencies. */
  ghost predicate Chain(db: Index, base: set<Name>, roots: seq<Name>, path: seq<Name>) {
    && path != []
    && path[0] in roots
    && (forall i :: 0 <= i < |path| ==> Wanted(db, base, path[i]))
    && (forall i :: 0 <= i < |path| - 1 ==> path[i + 1] in db[path[i]].deps)
  }

  ghost predicate ReachedIn(db: Index, base: set<Name>, roots: seq<Name>, x: Name, steps: nat) {
    exists path :: Chain(db, base, roots, path) && |path| == steps + 1 && path[steps] == x
  }

  /** The number of dependency steps on a shortest chain to x. */
  ghost predicate IsDistance(db: Index, base: set<Name>, roots: seq<Name>, x: Name, d: nat) {
    && ReachedIn(db, base, roots, x, d)
    && forall k: nat :: ReachedIn(db, base, roots, x, k) ==> d <= k
  }

  /** Every name the search can ever meet. */
  ghost function Universe(db: Index, roots: seq<Name>): set<Name> {
    (set x | x in roots) + (set p, x | p in db && x in db[p].deps :: x)
  }

  ghost predicate Rising(ds: seq<nat>) {
    forall i, j :: 0 <= i < j < |ds| ==> ds[i] <= ds[j]
  }

  /** Depths of a breadth-first queue: rising, and at most one apart. */
  ghost predicate QueueDepths(ds: seq<nat>) {
    Rising(ds) && forall i :: 0 <= i < |ds| ==> ds[i] <= ds[0] + 1
  }

  /** x is settled within depth d: discarded for good, listed at depth at most d, or queued at depth at most d. */
  ghost predicate Covered(x: Name, d: nat, wanted: bool,
                          ordered: seq<Name>, depth: seq<nat>, queue: seq<Name>, qDepth: seq<nat>)
    requires |depth| == |ordered| && |qDepth| == |queue|
  {
    || !wanted
    || (exists i :: 0 <= i < |ordered| && ordered[i] == x && depth[i] <= d)
    || (exists i :: 0 <= i < |queue| && queue[i] == x && qDepth[i] <= d)
  }

  lemma ExtendChain(db: Index, base: set<Name>, roots: seq<Name>, x: Name, k: nat, y: Name)
    requires ReachedIn(db, base, roots, x, k) && Wanted(db, base, x) && y in db[x].deps && Wanted(db, base, y)
    ensures ReachedIn(db, base, roots, y, k + 1)
  {
    var path :| Chain(db, base, roots, path) && |path| == k + 1 && path[k] == x;
    var longer := path + [y];
    assert Chain(db, base, roots, longer) && longer[k + 1] == y;
  }

  /** A queued name at depth d is a root (d = 0) or a dependency of a package listed at depth d - 1. */
  ghost predicate Sourced(db: Index, base: set<Name>, roots: seq<Name>, x: Name, d: nat) {
    Wanted(db, base, x) ==> ReachedIn(db, base, roots, x, d)
  }

  lemma SourcedRoot(db: Index, base: set<Name>, roots: seq<Name>, x: Name)
    requires x in roots
    ensures Sourced(db, base, roots, x, 0)
  {
    if Wanted(db, base, x) {
      assert Chain(db, base, roots, [x]) && [x][0] == x;
    }
  }

  /** What is listed and queued between two pops. */
  ghost predicate Listing(db: Index, base: set<Name>, roots: seq<Name>, seen: set<Name>,
                          ordered: seq<Name>, depth: seq<nat>, queue: seq<Name>, qDepth: seq<nat>)
  {
    && |depth| == |ordered| && |qDepth| == |queue|
    && base <= seen
    && (forall x :: x in seen ==> !Wanted(db, base, x) || x in ordered)
    && (forall i :: 0 <= i < |ordered| ==> Wanted(db, base, ordered[i]) && ordered[i] in seen
                                           && ReachedIn(db, base, roots, ordered[i], depth[i]))
    && (forall i, j :: 0 <= i < j < |ordered| ==> ordered[i] != ordered[j])
    && Rising(depth) && QueueDepths(qDepth)
    && (forall i :: 0 <= i < |depth| && queue != [] ==> depth[i] <= qDepth[0])
    && (forall i :: 0 <= i < |queue| ==> Sourced(db, base, roots, queue[i], qDepth[i]))
  }

  /** Nothing is forgotten: the roots, and the dependencies of what is listed, are covered. */
  ghost predicate Covering(db: Index, base: set<Name>, roots: seq<Name>,
                           ordered: seq<Name>, depth: seq<nat>, queue: seq<Name>, qDepth: seq<nat>)
    requires |depth| == |ordered| && |qDepth| == |queue|
  {
    && (forall x :: x in roots ==> Covered(x, 0, Wanted(db, base, x), ordered, depth, queue, qDepth))
    && (forall i, x :: 0 <= i < |ordered| && ordered[i] in db && x in db[ordered[i]].deps ==>
          Covered(x, depth[i] + 1, Wanted(db, base, x), ordered, depth, queue, qDepth))
  }

  ghost predicate Search(db: Index, base: set<Name>, roots: seq<Name>, seen: set<Name>,
                         ordered: seq<Name>, depth: seq<nat>, queue: seq<Name>, qDepth: seq<nat>)
  {
    && Listing(db, base, roots, seen, ordered, depth, queue, qDepth)
    && Covering(db, base, roots, ordered, depth, queue, qDepth)
  }

  /** Coverage survives a pop, as long as a wanted head ends up listed at its depth. */
  lemma StillCovered(x: Name, d: nat, wanted: bool,
                     ordered: seq<Name>, depth: seq<nat>, queue: seq<Name>, qDepth: seq<nat>,
                     ordered': seq<Name>, depth': seq<nat>, queue': seq<Name>, qDepth': seq<nat>)
    requires |depth| == |ordered| && |qDepth| == |queue| && |depth'| == |ordered'| && |qDepth'| == |queue'|
    requires queue != [] && ordered <= ordered' && depth <= depth' && queue[1..] <= queue' && qDepth[1..] <= qDepth'
    requires wanted && x == queue[0] ==> exists j :: 0 <= j < |ordered'| && ordered'[j] == x && depth'[j] <= qDepth[0]
    requires Covered(x, d, wanted, ordered, depth, queue, qDepth)
    ensures Covered(x, d, wanted, ordered', depth', queue', qDepth')
  {
    if i :| 0 <= i < |ordered| && ordered[i] == x && depth[i] <= d {
      assert ordered'[i] == x && depth'[i] <= d;
    } else if i :| 0 <= i < |queue| && queue[i] == x && qDepth[i] <= d {
      if i > 0 {
        assert queue'[i - 1] == queue[1..][i - 1] && qDepth'[i - 1] == qDepth[1..][i - 1];
      }
    }
  }

  lemma TailDepths(qDepth: seq<nat>)
    requires QueueDepths(qDepth) && qDepth != []
    ensures QueueDepths(qDepth[1..])
  {
  }

  lemma CoverSeen(db: Index, base: set<Name>, roots: seq<Name>,
                  ordered: seq<Name>, depth: seq<nat>, queue: seq<Name>, qDepth: seq<nat>)
    requires |depth| == |ordered| && |qDepth| == |queue| && queue != []
    requires Covering(db, base, roots, ordered, depth, queue, qDepth)
    requires Wanted(db, base, queue[0]) ==>
               exists j :: 0 <= j < |ordered| && ordered[j] == queue[0] && depth[j] <= qDepth[0]
    ensures Covering(db, base, roots, ordered, depth, queue[1..], qDepth[1..])
  {
    forall x | x in roots
      ensures Covered(x, 0, Wanted(db, base, x), ordered, depth, queue[1..], qDepth[1..])
    {
      StillCovered(x, 0, Wanted(db, base, x), ordered, depth, queue, qDepth, ordered, depth, queue[1..], qDepth[1..]);
    }
    forall i, x | 0 <= i < |ordered| && ordered[i] in db && x in db[ordered[i]].deps
      ensures Covered(x, depth[i] + 1, Wanted(db, base, x), ordered, depth, queue[1..], qDepth[1..])
    {
      StillCovered(x, depth[i] + 1, Wanted(db, base, x),
                   ordered, depth, queue, qDepth, ordered, depth, queue[1..], qDepth[1..]);
    }
  }

  lemma ListSeen(db: Index, base: set<Name>, roots: seq<Name>, seen: set<Name>,
                 ordered: seq<Name>, depth: seq<nat>, queue: seq<Name>, qDepth: seq<nat>)
    requires Listing(db, base, roots, seen, ordered, depth, queue, qDepth) && queue != []
    requires queue[0] in seen || !Wanted(db, base, queue[0])
    ensures Listing(db, base, roots, seen + {queue[0]}, ordered, depth, queue[1..], qDepth[1..])
  {
    TailDepths(qDepth);
  }

  /** Popping a name that was seen before, or that is not wanted. */
  lemma PopSeen(db: Index, base: set<Name>, roots: seq<Name>, seen: set<Name>,
                ordered: seq<Name>, depth: seq<nat>, queue: seq<Name>, qDepth: seq<nat>)
    requires Search(db, base, roots, seen, ordered, depth, queue, qDepth) && queue != []
    requires queue[0] in seen || !Wanted(db, base, queue[0])
    ensures Search(db, base, roots, seen + {queue[0]}, ordered, depth, queue[1..], qDepth[1..])
  {
    ListSeen(db, base, roots, seen, ordered, depth, queue, qDepth);
    if Wanted(db, base, queue[0]) {
      var j :| 0 <= j < |ordered| && ordered[j] == queue[0];
      assert depth[j] <= qDepth[0];
    }
    CoverSeen(db, base, roots, ordered, depth, queue, qDepth);
  }

  function Repeat(d: nat, n: nat): (s: seq<nat>)
    ensures |s| == n && forall i :: 0 <= i < n ==> s[i] == d
  {
    seq(n, _ => d)
  }

  lemma PushDepths(qDepth: seq<nat>, n: nat)
    requires QueueDepths(qDepth) && qDepth != []
    ensures var ds := qDepth[1..] + Repeat(qDepth[0] + 1, n);
            QueueDepths(ds) && forall i :: 0 <= i < |ds| ==> qDepth[0] <= ds[i]
  {
  }

  lemma SourcedAfterListing(db: Index, base: set<Name>, roots: seq<Name>, queue: seq<Name>, qDepth: seq<nat>)
    requires |qDepth| == |queue| && queue != [] && Wanted(db, base, queue[0])
    requires forall i :: 0 <= i < |queue| ==> Sourced(db, base, roots, queue[i], qDepth[i])
    ensures var deps := db[queue[0]].deps;
            var queue', qDepth' := queue[1..] + deps, qDepth[1..] + Repeat(qDepth[0] + 1, |deps|);
            forall i :: 0 <= i < |queue'| ==> Sourced(db, base, roots, queue'[i], qDepth'[i])
  {
    var head, d := queue[0], qDepth[0];
    var deps := db[head].deps;
    var queue', qDepth' := queue[1..] + deps, qDepth[1..] + Repeat(d + 1, |deps|);
    assert Sourced(db, base, roots, queue[0], qDepth[0]);
    forall i | 0 <= i < |queue'| ensures Sourced(db, base, roots, queue'[i], qDepth'[i]) {
      if i < |queue| - 1 {
        assert queue'[i] == queue[i + 1] && qDepth'[i] == qDepth[i + 1];
      } else if Wanted(db, base, queue'[i]) {
        ExtendChain(db, base, roots, head, d, queue'[i]);
      }
    }
  }

  lemma ListWanted(db: Index, base: set<Name>, roots: seq<Name>, seen: set<Name>,
                   ordered: seq<Name>, depth: seq<nat>, queue: seq<Name>, qDepth: seq<nat>)
    requires Listing(db, base, roots, seen, ordered, depth, queue, qDepth) && queue != []
    requires queue[0] !in seen && Wanted(db, base, queue[0])
    ensures Listing(db, base, roots, seen + {queue[0]}, ordered + [queue[0]], depth + [qDepth[0]],
                    queue[1..] + db[queue[0]].deps, qDepth[1..] + Repeat(qDepth[0] + 1, |db[queue[0]].deps|))
  {
    PushDepths(qDepth, |db[queue[0]].deps|);
    SourcedAfterListing(db, base, roots, queue, qDepth);
    assert Sourced(db, base, roots, queue[0], qDepth[0]);
  }

  lemma CoverWanted(db: Index, base: set<Name>, roots: seq<Name>,
                    ordered: seq<Name>, depth: seq<nat>, queue: seq<Name>, qDepth: seq<nat>)
    requires |depth| == |ordered| && |qDepth| == |queue| && queue != [] && queue[0] in db
    requires Covering(db, base, roots, ordered, depth, queue, qDepth)
    ensures Covering(db, base, roots, ordered + [queue[0]], depth + [qDepth[0]],
                     queue[1..] + db[queue[0]].deps, qDepth[1..] + Repeat(qDepth[0] + 1, |db[queue[0]].deps|))
  {
    var head, d := queue[0], qDepth[0];
    var deps := db[head].deps;
    var ordered', depth' := ordered + [head], depth + [d];
    var queue', qDepth' := queue[1..] + deps, qDepth[1..] + Repeat(d + 1, |deps|);
    assert ordered'[|ordered|] == head && depth'[|ordered|] == d;
    forall x | x in roots
      ensures Covered(x, 0, Wanted(db, base, x), ordered', depth', queue', qDepth')
    {
      StillCovered(x, 0, Wanted(db, base, x), ordered, depth, queue, qDepth, ordered', depth', queue', qDepth');
    }
    forall i, x | 0 <= i < |ordered'| && ordered'[i] in db && x in db[ordered'[i]].deps
      ensures Covered(x, depth'[i] + 1, Wanted(db, base, x), ordered', depth', queue', qDepth')
    {
      if i < |ordered| {
        StillCovered(x, depth[i] + 1, Wanted(db, base, x),
                     ordered, depth, queue, qDepth, ordered', depth', queue', qDepth');
      } else {
        var j :| 0 <= j < |deps| && deps[j] == x;
        assert queue'[|queue| - 1 + j] == x && qDepth'[|queue| - 1 + j] == d + 1;
      }
    }
  }

  /** Popping a wanted name for the first time: it is listed, and its dependencies join the queue. */
  lemma PopWanted(db: Index, base: set<Name>, roots: seq<Name>, seen: set<Name>,
                  ordered: seq<Name>, depth: seq<nat>, queue: seq<Name>, qDepth: seq<nat>)
    requires Search(db, base, roots, seen, ordered, depth, queue, qDepth) && queue != []
    requires queue[0] !in seen && Wanted(db, base, queue[0])
    ensures Search(db, base, roots, seen + {queue[0]}, ordered + [queue[0]], depth + [qDepth[0]],
                   queue[1..] + db[queue[0]].deps, qDepth[1..] + Repeat(qDepth[0] + 1, |db[queue[0]].deps|))
  {
    ListWanted(db, base, roots, seen, ordered, depth, queue, qDepth);
    CoverWanted(db, base, roots, ordered, depth, queue, qDepth);
  }

  // ---------------------------------------------------------- the result

  /** With an empty queue every chain ends in the list, at a depth no larger than its length. */
  lemma {:induction false} ChainListed(db: Index, base: set<Name>, roots: seq<Name>, seen: set<Name>,
                                       ordered: seq<Name>, depth: seq<nat>, path: seq<Name>)
    requires Search(db, base, roots, seen, ordered, depth, [], [])
    requires Chain(db, base, roots, path)
    ensures exists i :: 0 <= i < |ordered| && ordered[i] == path[|path| - 1] && depth[i] <= |path| - 1
  {
    var last := path[|path| - 1];
    if |path| == 1 {
      assert Covered(last, 0, true, ordered, depth, [], []);
    } else {
      var init := path[..|path| - 1];
      ChainListed(db, base, roots, seen, ordered, depth, init);
      var i :| 0 <= i < |ordered| && ordered[i] == init[|init| - 1] && depth[i] <= |init| - 1;
      assert last in db[ordered[i]].deps;
      assert Covered(last, depth[i] + 1, Wanted(db, base, last), ordered, depth, [], []);
    }
  }

  lemma DepthsAreDistances(db: Index, base: set<Name>, roots: seq<Name>, seen: set<Name>,
                           ordered: seq<Name>, depth: seq<nat>)
    requires Search(db, base, roots, seen, ordered, depth, [], [])
    ensures forall i :: 0 <= i < |ordered| ==> IsDistance(db, base, roots, ordered[i], depth[i])
    ensures forall x, k: nat :: ReachedIn(db, base, roots, x, k) ==> x in ordered
  {
    forall x, k: nat | ReachedIn(db, base, roots, x, k)
      ensures exists i :: 0 <= i < |ordered| && ordered[i] == x && depth[i] <= k
    {
      var path :| Chain(db, base, roots, path) && |path| == k + 1 && path[k] == x;
      ChainListed(db, base, roots, seen, ordered, depth, path);
    }
    forall i | 0 <= i < |ordered|
      ensures IsDistance(db, base, roots, ordered[i], depth[i])
    {
      forall k: nat | ReachedIn(db, base, roots, ordered[i], k) ensures depth[i] <= k {
        var j :| 0 <= j < |ordered| && ordered[j] == ordered[i] && depth[j] <= k;
        assert i == j;
      }
    }
  }

  ghost predicate HasDistance(db: Index, base: set<Name>, roots: seq<Name>, x: Name) {
    exists d: nat :: IsDistance(db, base, roots, x, d)
  }

  /** x is no farther from the roots than y. */
  ghost predicate NoFarther(db: Index, base: set<Name>, roots: seq<Name>, x: Name, y: Name) {
    forall d: nat, e: nat :: IsDistance(db, base, roots, x, d) && IsDistance(db, base, roots, y, e) ==> d <= e
  }

  ghost predicate Reached(db: Index, base: set<Name>, roots: seq<Name>, x: Name) {
    exists k: nat :: ReachedIn(db, base, roots, x, k)
  }

  lemma SearchResult(db: Index, base: set<Name>, roots: seq<Name>, seen: set<Name>,
                     ordered: seq<Name>, depth: seq<nat>)
    requires Search(db, base, roots, seen, ordered, depth, [], [])
    ensures forall x :: x in ordered <==> Reached(db, base, roots, x)
    ensures forall i :: 0 <= i < |ordered| ==> HasDistance(db, base, roots, ordered[i])
    ensures forall i, j :: 0 <= i < j < |ordered| ==> NoFarther(db, base, roots, ordered[i], ordered[j])
  {
    DepthsAreDistances(db, base, roots, seen, ordered, depth);
    forall i, j | 0 <= i < j < |ordered|
      ensures NoFarther(db, base, roots, ordered[i], ordered[j])
    {
      assert IsDistance(db, base, roots, ordered[i], depth[i]) && IsDistance(db, base, roots, ordered[j], depth[j]);
    }
    forall i | 0 <= i < |ordered|
      ensures HasDistance(db, base, roots, ordered[i])
    {
      assert IsDistance(db, base, roots, ordered[i], depth[i]);
    }
  }

  // ------------------------------------------------------------ its order

  /** The dependencies of the listed packages, in the order of the list. */
  function Dependencies(db: Index, ordered: seq<Name>): seq<Name> {
    if ordered == [] then []
    else
      var last := ordered[|ordered| - 1];
      Dependencies(db, ordered[..|ordered| - 1]) + if last in db then db[last].deps else []
  }

  /** Each wanted name where it is mentioned first. */
  function Firsts(db: Index, base: set<Name>, names: seq<Name>): seq<Name> {
    if names == [] then []
    else
      var init, last := Firsts(db, base, names[..|names| - 1]), names[|names| - 1];
      if Wanted(db, base, last) && last !in init then init + [last] else init
  }

  lemma FirstsSnoc(db: Index, base: set<Name>, names: seq<Name>, x: Name)
    ensures var init := Firsts(db, base, names);
            Firsts(db, base, names + [x]) == if Wanted(db, base, x) && x !in init then init + [x] else init
  {
    assert (names + [x])[..|names|] == names;
  }

  lemma DependenciesSnoc(db: Index, ordered: seq<Name>, x: Name)
    requires x in db
    ensures Dependencies(db, ordered + [x]) == Dependencies(db, ordered) + db[x].deps
  {
    assert (ordered + [x])[..|ordered|] == ordered;
  }

  /** Between two pops: what was popped and what waits are all mentions so far, and the list their firsts. */
  ghost predicate InOrder(db: Index, base: set<Name>, roots: seq<Name>,
                          popped: seq<Name>, queue: seq<Name>, ordered: seq<Name>) {
    popped + queue == roots + Dependencies(db, ordered) && ordered == Firsts(db, base, popped)
  }

  lemma OrderAfterSkip(db: Index, base: set<Name>, roots: seq<Name>,
                       popped: seq<Name>, queue: seq<Name>, ordered: seq<Name>)
    requires InOrder(db, base, roots, popped, queue, ordered) && queue != []
    requires !Wanted(db, base, queue[0]) || queue[0] in ordered
    ensures InOrder(db, base, roots, popped + [queue[0]], queue[1..], ordered)
  {
    FirstsSnoc(db, base, popped, queue[0]);
    assert popped + [queue[0]] + queue[1..] == popped + queue;
  }

  lemma PopAndExtend(popped: seq<Name>, queue: seq<Name>, more: seq<Name>)
    requires queue != []
    ensures popped + [queue[0]] + (queue[1..] + more) == popped + queue + more
  {
  }

  lemma ConcatAssoc(a: seq<Name>, b: seq<Name>, c: seq<Name>)
    ensures a + b + c == a + (b + c)
  {
  }

  lemma OrderAfterListing(db: Index, base: set<Name>, roots: seq<Name>,
                          popped: seq<Name>, queue: seq<Name>, ordered: seq<Name>)
    requires InOrder(db, base, roots, popped, queue, ordered) && queue != []
    requires Wanted(db, base, queue[0]) && queue[0] !in ordered
    ensures InOrder(db, base, roots, popped + [queue[0]], queue[1..] + db[queue[0]].deps, ordered + [queue[0]])
  {
    FirstsSnoc(db, base, popped, queue[0]);
    DependenciesSnoc(db, ordered, queue[0]);
    PopAndExtend(popped, queue, db[queue[0]].deps);
    ConcatAssoc(roots, Dependencies(db, ordered), db[queue[0]].deps);
  }

  /** In the list of first mentions the wanted roots come first, in their own order. */
  lemma {:induction false} RootsComeFirst(db: Index, base: set<Name>, roots: seq<Name>, more: seq<Name>)
    ensures Firsts(db, base, roots) <= Firsts(db, base, roots + more)
  {
    if more == [] {
      assert roots + more == roots;
    } else {
      var init := more[..|more| - 1];
      RootsComeFirst(db, base, roots, init);
      assert (roots + more)[..|roots + more| - 1] == roots + init;
    }
  }

  /**
   * The list holds, once each, exactly the wanted packages a chain from the roots reaches, nearest first:
   * in rising order of their shortest distance from the roots. Read as a whole, it names each of them where the
   * roots, followed by the dependencies of the list itself, mention it first.
   */
  method Resolve(db: Index, base: set<Name>, roots: seq<Name>) returns (ordered: seq<Name>)
    ensures forall i, j :: 0 <= i < j < |ordered| ==> ordered[i] != ordered[j]
    ensures forall x :: x in ordered <==> Reached(db, base, roots, x)
    ensures forall i :: 0 <= i < |ordered| ==> HasDistance(db, base, roots, ordered[i])
    ensures forall i, j :: 0 <= i < j < |ordered| ==> NoFarther(db, base, roots, ordered[i], ordered[j])
    ensures ordered == Firsts(db, base, roots + Dependencies(db, ordered))
  {
    ordered := [];
    var seen := base;
    var queue := roots;
    ghost var popped: seq<Name> := [];
    ghost var depth: seq<nat> := [];
    ghost var qDepth := Repeat(0, |roots|);
    forall i | 0 <= i < |queue| ensures Sourced(db, base, roots, queue[i], qDepth[i]) {
      SourcedRoot(db, base, roots, queue[i]);
    }
    while queue != []
      invariant Search(db, base, roots, seen, ordered, depth, queue, qDepth)
      invariant forall x :: x in queue ==> x in Universe(db, roots)
      invariant InOrder(db, base, roots, popped, queue, ordered)
      decreases Universe(db, roots) - seen, |queue|
    {
      var pkg := queue[0];
      ghost var tail := qDepth[1..];
      ghost var before := popped;
      popped := popped + [pkg];
      if pkg in seen {
        PopSeen(db, base, roots, seen, ordered, depth, queue, qDepth);
        OrderAfterSkip(db, base, roots, before, queue, ordered);
        assert seen + {pkg} == seen;
        queue, qDepth := queue[1..], tail;
        continue;
      }
      if pkg !in db {
        PopSeen(db, base, roots, seen, ordered, depth, queue, qDepth);
        OrderAfterSkip(db, base, roots, before, queue, ordered);
        seen := seen + {pkg};
        queue, qDepth := queue[1..], tail;
        continue;
      }
      PopWanted(db, base, roots, seen, ordered, depth, queue, qDepth);
      OrderAfterListing(db, base, roots, before, queue, ordered);
      seen := seen + {pkg};
      ordered, depth := ordered + [pkg], depth + [qDepth[0]];
      qDepth := tail + Repeat(qDepth[0] + 1, |db[pkg].deps|);
      queue := queue[1..] + db[pkg].deps;
    }
    SearchResult(db, base, roots, seen, ordered, depth);
    assert popped + [] == popped;
  }
}
