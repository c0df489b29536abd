/**
 What a walk over the dependencies tells, in the order in which it visits them: the first fault it meets, or that it
 is too deep; and exactly when it never ends.
 */
module ReviewFaults {
  import opened Wrappers
  import opened ReviewGraph
  import opened ReviewPaths
  import opened ReviewIds

  // ---------------------------------------------------------------- faults

  /** What a walk that meets a fault at the end of `r` tells about it. */
  function ToldBy(g: Graph, u: Id, r: Path): Outcome
    requires r != [] && Named(g, u, r).Some?
    decreases r
  {
    var d := g[u].dependsOn[r[0]];
    if |r| > 1 then ToldBy(g, d, r[1..]) else if d !in g then NotFetched(d) else Circular(u)
  }

  /** The review has been visited before the end of `r`. */
  ghost predicate Met(g: Graph, u: Id, d: Id, r: Path) {
    exists s: Path :: Before(s, r) && Follow(g, u, s) == Some(d)
  }

  /** At the end of `r` is a review that cannot be fetched, is listed, or is unsubmitted and has been visited. */
  ghost predicate Fault(g: Graph, u: Id, ids: seq<Id>, r: Path) {
    r != [] && Named(g, u, r).Some? &&
    var d := Named(g, u, r).value;
    d !in g || d in ids || (d in Unsubmitted(g) && Met(g, u, d, r))
  }

  ghost predicate FirstFault(g: Graph, u: Id, ids: seq<Id>, r: Path) {
    Fault(g, u, ids, r) && forall r': Path | Fault(g, u, ids, r') :: !Before(r', r)
  }

  ghost predicate NoFaultUpTo(g: Graph, u: Id, ids: seq<Id>, p: Path) {
    forall r: Path | Fault(g, u, ids, r) :: !NotAfter(r, p)
  }

  /** The paths visited before `p` fit on the call stack. */
  ghost predicate FitBefore(g: Graph, u: Id, p: Path, depth: nat) {
    forall s: Path | Before(s, p) && Follow(g, u, s).Some? :: |s| < depth
  }

  /** A path as long as the call stack is deep, without a fault up to its end. */
  ghost predicate Overflows(g: Graph, u: Id, ids: seq<Id>, p: Path, depth: nat) {
    Follow(g, u, p).Some? && |p| == depth && NoFaultUpTo(g, u, ids, p)
  }

  /** The outcome of a walk, told in the order of visits. */
  ghost predicate Explained(g: Graph, u: Id, ids: seq<Id>, depth: nat, outcome: Outcome) {
    match outcome
    case Listed(_) => (forall r: Path :: !Fault(g, u, ids, r)) && PathsWithin(g, u, depth)
    case TooDeep => exists p: Path :: Overflows(g, u, ids, p, depth) && FitBefore(g, u, p, depth)
    case _ => exists r: Path :: FirstFault(g, u, ids, r) && FitBefore(g, u, r, depth) && outcome == ToldBy(g, u, r)
  }

  // ---------------------------------------------------------------- the same from the i-th dependency on

  ghost predicate MetFrom(g: Graph, u: Id, i: nat, d: Id, r: Path) {
    exists s: Path :: From(s, i) && Before(s, r) && Follow(g, u, s) == Some(d)
  }

  ghost predicate FaultFrom(g: Graph, u: Id, i: nat, ids: seq<Id>, r: Path) {
    From(r, i) && Named(g, u, r).Some? &&
    var d := Named(g, u, r).value;
    d !in g || d in ids || (d in Unsubmitted(g) && MetFrom(g, u, i, d, r))
  }

  ghost predicate FirstFaultFrom(g: Graph, u: Id, i: nat, ids: seq<Id>, r: Path) {
    FaultFrom(g, u, i, ids, r) && forall r': Path | FaultFrom(g, u, i, ids, r') :: !Before(r', r)
  }

  ghost predicate NoFaultFromUpTo(g: Graph, u: Id, i: nat, ids: seq<Id>, p: Path) {
    forall r: Path | FaultFrom(g, u, i, ids, r) :: !NotAfter(r, p)
  }

  ghost predicate FitFromBefore(g: Graph, u: Id, i: nat, p: Path, depth: nat) {
    forall s: Path | From(s, i) && Before(s, p) && Follow(g, u, s).Some? :: |s| < depth
  }

  ghost predicate OverflowsFrom(g: Graph, u: Id, i: nat, ids: seq<Id>, p: Path, depth: nat) {
    From(p, i) && Follow(g, u, p).Some? && |p| == depth && NoFaultFromUpTo(g, u, i, ids, p)
  }

  ghost predicate ExplainedFrom(g: Graph, u: Id, i: nat, ids: seq<Id>, depth: nat, outcome: Outcome) {
    match outcome
    case Listed(_) => (forall r: Path :: !FaultFrom(g, u, i, ids, r)) && PathsWithinFrom(g, u, i, depth)
    case TooDeep => exists p: Path :: OverflowsFrom(g, u, i, ids, p, depth) && FitFromBefore(g, u, i, p, depth)
    case _ =>
      exists r: Path ::
        FirstFaultFrom(g, u, i, ids, r) && FitFromBefore(g, u, i, r, depth) && outcome == ToldBy(g, u, r)
  }

  // ---------------------------------------------------------------- at a review

  lemma {:induction false} FaultAtNode(g: Graph, u: Id, ids: seq<Id>, r: Path)
    requires u in g
    ensures Fault(g, u, ids, r) <==> FaultFrom(g, u, 0, Listing(g, u, ids), r)
  {
    if r != [] && Named(g, u, r).Some? {
      var d := Named(g, u, r).value;
      assert d in Listing(g, u, ids) <==> d in ids || (d == u && !g[u].submitted);
      assert Follow(g, u, []) == Some(u) && Before([], r);
      if Met(g, u, d, r) && d != u {
        var s: Path :| Before(s, r) && Follow(g, u, s) == Some(d);
        assert From(s, 0);
      }
    }
  }

  lemma {:induction false} NodeExplained(g: Graph, u: Id, ids: seq<Id>, depth: nat, outcome: Outcome)
    requires u in g && depth > 0 && ExplainedFrom(g, u, 0, Listing(g, u, ids), depth, outcome)
    ensures Explained(g, u, ids, depth, outcome)
  {
    forall r: Path
      ensures Fault(g, u, ids, r) <==> FaultFrom(g, u, 0, Listing(g, u, ids), r)
    {
      FaultAtNode(g, u, ids, r);
    }
    forall p: Path | p != [] && FitFromBefore(g, u, 0, p, depth)
      ensures FitBefore(g, u, p, depth)
    {
      forall s: Path | Before(s, p) && Follow(g, u, s).Some?
        ensures |s| < depth
      {
        assert s == [] || From(s, 0);
      }
    }
    if outcome.Listed? {
      WithinAtNode(g, u, depth);
    } else if outcome.TooDeep? {
      var p: Path :| OverflowsFrom(g, u, 0, Listing(g, u, ids), p, depth) && FitFromBefore(g, u, 0, p, depth);
      assert Overflows(g, u, ids, p, depth) && FitBefore(g, u, p, depth);
    } else {
      var r: Path :|
        && FirstFaultFrom(g, u, 0, Listing(g, u, ids), r) && FitFromBefore(g, u, 0, r, depth)
        && outcome == ToldBy(g, u, r);
      assert FirstFault(g, u, ids, r) && FitBefore(g, u, r, depth);
    }
  }

  // ---------------------------------------------------------------- at a dependency

  lemma {:induction false} StepBelow(g: Graph, u: Id, i: nat, r: Path)
    requires u in g && i < |g[u].dependsOn| && g[u].dependsOn[i] in g && r != [] && r[0] == i
    ensures Follow(g, u, r) == Follow(g, g[u].dependsOn[i], r[1..])
    ensures |r| > 1 ==> Named(g, u, r) == Named(g, g[u].dependsOn[i], r[1..])
    ensures |r| > 1 && Named(g, u, r).Some? ==> ToldBy(g, u, r) == ToldBy(g, g[u].dependsOn[i], r[1..])
  {
  }

  /** A fault below the i-th dependency is a fault of the walk there. */
  lemma {:induction false} FaultBelow(g: Graph, u: Id, i: nat, ids: seq<Id>, r: Path)
    requires u in g && i < |g[u].dependsOn| && g[u].dependsOn[i] in g && g[u].dependsOn[i] !in ids
    requires r != [] && r[0] == i
    ensures FaultFrom(g, u, i, ids, r) <==> Fault(g, g[u].dependsOn[i], ids, r[1..])
  {
    var d := g[u].dependsOn[i];
    StepBelow(g, u, i, r);
    if r[1..] == [] {
      assert Named(g, u, r) == Some(d);
      forall s: Path | From(s, i)
        ensures !Before(s, r)
      {
        assert !Before(s[1..], r[1..]);
      }
    } else if Named(g, u, r).Some? {
      var w := Named(g, u, r).value;
      if MetFrom(g, u, i, w, r) {
        var s: Path :| From(s, i) && Before(s, r) && Follow(g, u, s) == Some(w);
        StepBelow(g, u, i, s);
        assert Before(s[1..], r[1..]);
      }
      if Met(g, d, w, r[1..]) {
        var s: Path :| Before(s, r[1..]) && Follow(g, d, s) == Some(w);
        FollowFirst(g, u, i, s);
        assert ([i] + s)[1..] == s && From([i] + s, i) && Before([i] + s, r);
      }
    }
  }

  /** Once the i-th dependency has been walked, its reviews are listed: later faults are the same. */
  lemma {:induction false} FaultLater(g: Graph, u: Id, i: nat, ids: seq<Id>, ids': seq<Id>, r: Path)
    requires u in g && i < |g[u].dependsOn| && g[u].dependsOn[i] in g
    requires ToSet(ids') == ToSet(ids) + Reachable(g, Unsubmitted(g), g[u].dependsOn[i])
    requires From(r, i + 1)
    ensures FaultFrom(g, u, i, ids, r) <==> FaultFrom(g, u, i + 1, ids', r)
  {
    if Named(g, u, r).Some? {
      var w := Named(g, u, r).value;
      assert (w in ids' <==> w in ToSet(ids')) && (w in ids <==> w in ToSet(ids));
      LaterMeets(g, u, i, w, r);
    }
  }

  lemma {:induction false} LaterMeets(g: Graph, u: Id, i: nat, w: Id, r: Path)
    requires u in g && i < |g[u].dependsOn| && g[u].dependsOn[i] in g && From(r, i + 1)
    ensures MetFrom(g, u, i, w, r) <==> Reaches(g, g[u].dependsOn[i], w) || MetFrom(g, u, i + 1, w, r)
  {
    var d := g[u].dependsOn[i];
    if MetFrom(g, u, i, w, r) {
      var s: Path :| From(s, i) && Before(s, r) && Follow(g, u, s) == Some(w);
      if s[0] == i {
        StepBelow(g, u, i, s);
      } else {
        assert From(s, i + 1);
      }
    }
    if Reaches(g, d, w) {
      var s: Path :| Follow(g, d, s) == Some(w);
      FollowFirst(g, u, i, s);
      assert From([i] + s, i) && Before([i] + s, r);
    }
    if MetFrom(g, u, i + 1, w, r) {
      var s: Path :| From(s, i + 1) && Before(s, r) && Follow(g, u, s) == Some(w);
      assert From(s, i);
    }
  }

  lemma {:induction false} FaultAtOnce(g: Graph, u: Id, i: nat, ids: seq<Id>, depth: nat)
    requires u in g && i < |g[u].dependsOn| && depth > 0
    requires g[u].dependsOn[i] !in g || g[u].dependsOn[i] in ids
    ensures ExplainedFrom(g, u, i, ids, depth, WalkDependencies(g, u, i, ids, depth))
  {
    var r := [i];
    forall s: Path | From(s, i)
      ensures !Before(s, r)
    {
      assert !Before(s[1..], r[1..]);
    }
    forall r': Path | FaultFrom(g, u, i, ids, r')
      ensures !Before(r', r)
    {
      assert From(r', i);
    }
    assert FirstFaultFrom(g, u, i, ids, r) && FitFromBefore(g, u, i, r, depth);
  }

  lemma {:induction false} NothingLeftToExplain(g: Graph, u: Id, ids: seq<Id>, depth: nat)
    requires u in g
    ensures ExplainedFrom(g, u, |g[u].dependsOn|, ids, depth, Listed(ids))
  {
  }

  /** What comes before a path below the i-th dependency, from there on, is below it too. */
  lemma {:induction false} FitBelow(g: Graph, u: Id, i: nat, p: Path, depth: nat)
    requires u in g && i < |g[u].dependsOn| && g[u].dependsOn[i] in g && depth > 0
    requires FitBefore(g, g[u].dependsOn[i], p, depth - 1)
    ensures FitFromBefore(g, u, i, [i] + p, depth)
  {
    forall s: Path | From(s, i) && Before(s, [i] + p) && Follow(g, u, s).Some?
      ensures |s| < depth
    {
      StepBelow(g, u, i, s);
      assert ([i] + p)[1..] == p;
    }
  }

  lemma {:induction false} OverflowsBelow(g: Graph, u: Id, i: nat, ids: seq<Id>, depth: nat)
    requires u in g && i < |g[u].dependsOn| && g[u].dependsOn[i] in g && g[u].dependsOn[i] !in ids && depth > 0
    requires Explained(g, g[u].dependsOn[i], ids, depth - 1, TooDeep)
    ensures ExplainedFrom(g, u, i, ids, depth, TooDeep)
  {
    var d := g[u].dependsOn[i];
    var p': Path :| Overflows(g, d, ids, p', depth - 1) && FitBefore(g, d, p', depth - 1);
    var p := [i] + p';
    assert p[1..] == p';
    FollowFirst(g, u, i, p');
    forall r: Path | FaultFrom(g, u, i, ids, r)
      ensures !NotAfter(r, p)
    {
      if r[0] == i {
        FaultBelow(g, u, i, ids, r);
        assert !NotAfter(r[1..], p');
      }
    }
    FitBelow(g, u, i, p', depth);
    assert OverflowsFrom(g, u, i, ids, p, depth);
  }

  lemma {:induction false} FaultyBelow(g: Graph, u: Id, i: nat, ids: seq<Id>, depth: nat, outcome: Outcome)
    requires u in g && i < |g[u].dependsOn| && g[u].dependsOn[i] in g && g[u].dependsOn[i] !in ids && depth > 0
    requires !outcome.Listed? && !outcome.TooDeep? && Explained(g, g[u].dependsOn[i], ids, depth - 1, outcome)
    ensures ExplainedFrom(g, u, i, ids, depth, outcome)
  {
    var d := g[u].dependsOn[i];
    var r': Path :| FirstFault(g, d, ids, r') && FitBefore(g, d, r', depth - 1) && outcome == ToldBy(g, d, r');
    var r := [i] + r';
    assert r[1..] == r';
    FaultBelow(g, u, i, ids, r);
    StepBelow(g, u, i, r);
    forall other: Path | FaultFrom(g, u, i, ids, other)
      ensures !Before(other, r)
    {
      if other[0] == i {
        FaultBelow(g, u, i, ids, other);
      }
    }
    FitBelow(g, u, i, r', depth);
    assert FirstFaultFrom(g, u, i, ids, r);
  }

  /** After a dependency without fault, the walk tells what it tells of the others. */
  lemma {:induction false} OthersExplained(g: Graph, u: Id, i: nat, ids: seq<Id>, ids': seq<Id>, depth: nat, outcome: Outcome)
    requires u in g && i < |g[u].dependsOn| && g[u].dependsOn[i] in g && g[u].dependsOn[i] !in ids && depth > 0
    requires Explained(g, g[u].dependsOn[i], ids, depth - 1, Listed(ids'))
    requires ToSet(ids') == ToSet(ids) + Reachable(g, Unsubmitted(g), g[u].dependsOn[i])
    requires ExplainedFrom(g, u, i + 1, ids', depth, outcome)
    ensures ExplainedFrom(g, u, i, ids, depth, outcome)
  {
    forall r: Path
      ensures FaultFrom(g, u, i, ids, r) <==> FaultFrom(g, u, i + 1, ids', r)
    {
      if From(r, i) && r[0] == i {
        FaultBelow(g, u, i, ids, r);
      } else if From(r, i + 1) {
        FaultLater(g, u, i, ids, ids', r);
      }
    }
    forall p: Path | FitFromBefore(g, u, i + 1, p, depth)
      ensures FitFromBefore(g, u, i, p, depth)
    {
      OthersFit(g, u, i, p, depth);
    }
    if outcome.Listed? {
      WithinAtDependency(g, u, i, depth);
    } else if outcome.TooDeep? {
      var p: Path :| OverflowsFrom(g, u, i + 1, ids', p, depth) && FitFromBefore(g, u, i + 1, p, depth);
      assert OverflowsFrom(g, u, i, ids, p, depth) && FitFromBefore(g, u, i, p, depth);
    } else {
      var r: Path :|
        && FirstFaultFrom(g, u, i + 1, ids', r) && FitFromBefore(g, u, i + 1, r, depth)
        && outcome == ToldBy(g, u, r);
      assert FirstFaultFrom(g, u, i, ids, r) && FitFromBefore(g, u, i, r, depth);
    }
  }

  lemma {:induction false} OthersFit(g: Graph, u: Id, i: nat, p: Path, depth: nat)
    requires u in g && i < |g[u].dependsOn| && g[u].dependsOn[i] in g && depth > 0
    requires PathsWithin(g, g[u].dependsOn[i], depth - 1) && FitFromBefore(g, u, i + 1, p, depth)
    ensures FitFromBefore(g, u, i, p, depth)
  {
    forall s: Path | From(s, i) && Before(s, p) && Follow(g, u, s).Some?
      ensures |s| < depth
    {
      if s[0] == i {
        StepBelow(g, u, i, s);
      } else {
        assert From(s, i + 1);
      }
    }
  }

  // ---------------------------------------------------------------- the whole walk

  lemma {:induction false} WalkExplained(g: Graph, u: Id, ids: seq<Id>, depth: nat)
    requires u in g && (!g[u].submitted ==> u !in ids) && Proper(g, ids)
    ensures Explained(g, u, ids, depth, Walk(g, u, ids, depth))
    decreases depth, |g[u].dependsOn| + 1
  {
    if depth == 0 {
      assert Overflows(g, u, ids, [], 0) && FitBefore(g, u, [], 0);
    } else {
      DependenciesExplained(g, u, 0, Listing(g, u, ids), depth);
      NodeExplained(g, u, ids, depth, Walk(g, u, ids, depth));
    }
  }

  lemma {:induction false} DependenciesExplained(g: Graph, u: Id, i: nat, ids: seq<Id>, depth: nat)
    requires u in g && i <= |g[u].dependsOn| && Proper(g, ids) && depth > 0
    ensures ExplainedFrom(g, u, i, ids, depth, WalkDependencies(g, u, i, ids, depth))
    decreases depth, |g[u].dependsOn| - i
  {
    if i == |g[u].dependsOn| {
      NothingLeftToExplain(g, u, ids, depth);
    } else if g[u].dependsOn[i] !in g || g[u].dependsOn[i] in ids {
      FaultAtOnce(g, u, i, ids, depth);
    } else {
      var d := g[u].dependsOn[i];
      WalkExplained(g, d, ids, depth - 1);
      var r := Walk(g, d, ids, depth - 1);
      if r.Listed? {
        WalkExplores(g, d, ids, depth - 1);
        DependenciesExplained(g, u, i + 1, r.ids, depth);
        OthersExplained(g, u, i, ids, r.ids, depth, WalkDependencies(g, u, i + 1, r.ids, depth));
      } else if r.TooDeep? {
        OverflowsBelow(g, u, i, ids, depth);
      } else {
        FaultyBelow(g, u, i, ids, depth, r);
      }
    }
  }

  /** A walk that is too deep, and only such a walk, has a path as long as the stack without a fault up to its end. */
  lemma {:induction false} TooDeepExactly(g: Graph, root: Id, depth: nat)
    requires root in g
    ensures Walk(g, root, [], depth) == TooDeep <==> exists p: Path :: Overflows(g, root, [], p, depth)
  {
    WalkExplained(g, root, [], depth);
    var outcome := Walk(g, root, [], depth);
    if p: Path :| Overflows(g, root, [], p, depth) && !outcome.TooDeep? && !outcome.Listed? {
      var r: Path :| FirstFault(g, root, [], r) && FitBefore(g, root, r, depth);
      EitherWay(r, p);
      assert false;
    }
  }

  /**
   On every graph and every call stack: the ids are listed exactly if there is no fault and every path fits, the
   stack overflows exactly if some path does not fit and no fault comes up to its end, and otherwise the first
   fault is told.
   */
  lemma {:induction false} WalkTellsTheFirstFault(g: Graph, root: Id, depth: nat)
    requires root in g
    ensures
      var outcome := Walk(g, root, [], depth);
      && (outcome.Listed? <==> PathsWithin(g, root, depth) && forall r: Path :: !Fault(g, root, [], r))
      && (outcome.TooDeep? <==> exists p: Path :: Overflows(g, root, [], p, depth))
      && (!outcome.Listed? && !outcome.TooDeep? ==>
            exists r: Path :: FirstFault(g, root, [], r) && outcome == ToldBy(g, root, r))
  {
    WalkExplained(g, root, [], depth);
    TooDeepExactly(g, root, depth);
    var outcome := Walk(g, root, [], depth);
    if !outcome.Listed? && !outcome.TooDeep? {
      var r: Path :| FirstFault(g, root, [], r) && outcome == ToldBy(g, root, r);
    }
  }

  // ---------------------------------------------------------------- walks that never end

  /** The walk goes twice round a cycle, from the end of `p` along `q`, before it meets any fault. */
  ghost predicate Loops(g: Graph, root: Id, p: Path, q: Path) {
    && q != [] && Follow(g, root, p).Some? && Follow(g, Follow(g, root, p).value, q) == Follow(g, root, p)
    && NoFaultUpTo(g, root, [], p + q + q)
  }

  function Rounds(q: Path, n: nat): Path {
    if n == 0 then [] else Rounds(q, n - 1) + q
  }

  lemma {:induction false} RoundsFollow(g: Graph, root: Id, p: Path, q: Path, n: nat)
    requires root in g && Follow(g, root, p).Some? && Follow(g, Follow(g, root, p).value, q) == Follow(g, root, p)
    requires q != []
    ensures Follow(g, root, p + Rounds(q, n)) == Follow(g, root, p) && |Rounds(q, n)| >= n
    decreases n
  {
    if n == 0 {
      assert p + [] == p;
    } else {
      RoundsFollow(g, root, p, q, n - 1);
      FollowAppend(g, root, p + Rounds(q, n - 1), q);
      assert p + Rounds(q, n) == (p + Rounds(q, n - 1)) + q;
    }
  }

  /** A fault met on a later round would have been met on the second one. */
  lemma {:induction false} FaultOnSecondRound(g: Graph, root: Id, p: Path, q: Path, a: Path, r: Path)
    requires root in g && q != [] && Follow(g, root, p).Some?
    requires Follow(g, Follow(g, root, p).value, q) == Follow(g, root, p) == Follow(g, root, a)
    requires r != [] && NotAfter(r, q) && Fault(g, root, [], a + r)
    ensures Fault(g, root, [], p + q + r) && NotAfter(p + q + r, p + q + q)
  {
    var v := Follow(g, root, p).value;
    FollowAppend(g, root, p, q);
    NamedAppend(g, root, a, r);
    NamedAppend(g, root, p + q, r);
    AfterCommonPart(p + q, r, q);
    var d := Named(g, v, r).value;
    if d in g {
      NamedIsFollowed(g, v, r, d);
      FollowAppend(g, root, p, r);
      NotAfterLonger(r, q, r);
      BeforeLonger(q, r);
      assert Before(r, q + r);
      AfterCommonPart(p, r, q + r);
      assert p + (q + r) == p + q + r;
      assert Met(g, root, d, p + q + r);
    }
  }

  lemma {:induction false} RoundsWithoutFault(g: Graph, root: Id, p: Path, q: Path, n: nat)
    requires root in g && Loops(g, root, p, q)
    ensures NoFaultUpTo(g, root, [], p + Rounds(q, n))
    decreases n
  {
    forall r: Path | Fault(g, root, [], r)
      ensures !NotAfter(r, p + Rounds(q, n))
    {
      if NotAfter(r, p + Rounds(q, n)) {
        if n == 0 {
          assert p + [] == p && p + q + q == p + (q + q);
          NotAfterLonger(r, p, q + q);
        } else {
          var a := p + Rounds(q, n - 1);
          assert p + Rounds(q, n) == a + q;
          RoundsWithoutFault(g, root, p, q, n - 1);
          NotAfterSum(r, a, q);
          var r' := r[|a|..];
          assert r == a + r';
          RoundsFollow(g, root, p, q, n - 1);
          FaultOnSecondRound(g, root, p, q, a, r');
        }
        assert false;
      }
    }
  }

  lemma {:induction false} FollowPrefix(g: Graph, u: Id, p: Path, k: nat)
    requires u in g && Follow(g, u, p).Some? && k <= |p|
    ensures Follow(g, u, p[..k]).Some?
    ensures Follow(g, Follow(g, u, p[..k]).value, p[k..]) == Follow(g, u, p)
    decreases p
  {
    if k == 0 {
      assert p[..k] == [] && p[k..] == p;
    } else {
      var d := g[u].dependsOn[p[0]];
      FollowPrefix(g, d, p[1..], k - 1);
      assert p[..k][0] == p[0] && p[..k][1..] == p[1..][..k - 1] && p[1..][k - 1..] == p[k..];
    }
  }

  lemma NoFaultUpToPrefix(g: Graph, u: Id, ids: seq<Id>, p: Path, k: nat)
    requires u in g && k <= |p| && NoFaultUpTo(g, u, ids, p)
    ensures NoFaultUpTo(g, u, ids, p[..k])
  {
    assert p[..k] + p[k..] == p;
    forall r: Path | Fault(g, u, ids, r)
      ensures !NotAfter(r, p[..k])
    {
      if NotAfter(r, p[..k]) {
        NotAfterLonger(r, p[..k], p[k..]);
      }
    }
  }

  lemma LoopOverflows(g: Graph, root: Id, p: Path, q: Path, depth: nat)
    requires root in g && Loops(g, root, p, q)
    ensures Walk(g, root, [], depth) == TooDeep
  {
    RoundsFollow(g, root, p, q, depth);
    RoundsWithoutFault(g, root, p, q, depth);
    var long := p + Rounds(q, depth);
    FollowPrefix(g, root, long, depth);
    NoFaultUpToPrefix(g, root, [], long, depth);
    assert Overflows(g, root, [], long[..depth], depth);
    TooDeepExactly(g, root, depth);
  }

  // ---------------------------------------------------------------- a deep stack that overflows has met a loop

  lemma {:induction false} VisitedAt(g: Graph, u: Id, p: Path, v: Id) returns (k: nat)
    requires u in g && Follow(g, u, p).Some? && v in Visited(g, u, p)
    ensures k <= |p| && Follow(g, u, p[..k]) == Some(v)
    decreases p
  {
    if v == u {
      k := 0;
      assert p[..0] == [];
    } else {
      var k' := VisitedAt(g, g[u].dependsOn[p[0]], p[1..], v);
      k := k' + 1;
      assert p[..k][0] == p[0] && p[..k][1..] == p[1..][..k'];
    }
  }

  /** A path with more steps than reviews on it comes twice to the same one. */
  lemma {:induction false} Repeats(g: Graph, u: Id, p: Path) returns (a: nat, b: nat)
    requires u in g && Follow(g, u, p).Some? && |Visited(g, u, p)| <= |p|
    ensures a < b <= |p| && Follow(g, u, p[..a]).Some? && Follow(g, u, p[..a]) == Follow(g, u, p[..b])
    decreases p
  {
    assert p != [];
    var d := g[u].dependsOn[p[0]];
    if u in Visited(g, d, p[1..]) {
      var k := VisitedAt(g, d, p[1..], u);
      a, b := 0, k + 1;
      assert p[..0] == [] && p[..b][0] == p[0] && p[..b][1..] == p[1..][..k];
    } else {
      assert |Visited(g, u, p)| == 1 + |Visited(g, d, p[1..])|;
      var a', b' := Repeats(g, d, p[1..]);
      a, b := a' + 1, b' + 1;
      assert p[..a][0] == p[0] && p[..a][1..] == p[1..][..a'];
      assert p[..b][0] == p[0] && p[..b][1..] == p[1..][..b'];
    }
  }

  lemma {:induction false} VisitedIsInGraph(g: Graph, u: Id, p: Path)
    requires u in g && Follow(g, u, p).Some?
    ensures Visited(g, u, p) <= g.Keys
    decreases p
  {
    if p != [] {
      VisitedIsInGraph(g, g[u].dependsOn[p[0]], p[1..]);
    }
  }

  lemma LongPathRepeats(g: Graph, u: Id, p: Path) returns (a: nat, b: nat)
    requires u in g && Follow(g, u, p).Some? && |p| >= |g|
    ensures a < b <= |g| && Follow(g, u, p[..a]).Some? && Follow(g, u, p[..a]) == Follow(g, u, p[..b])
  {
    var start := p[..|g|];
    FollowPrefix(g, u, p, |g|);
    VisitedIsInGraph(g, u, start);
    Cardinality(Visited(g, u, start), g.Keys);
    a, b := Repeats(g, u, start);
    assert start[..a] == p[..a] && start[..b] == p[..b];
  }

  /** Below a path visited before an overflow everything fits, so there is no cycle and no long path there. */
  lemma {:induction false} ShortBelow(g: Graph, root: Id, a: Path, y: Path, depth: nat)
    requires root in g && Follow(g, root, a + y).Some?
    requires forall y': Path | Follow(g, root, a + y').Some? :: |a + y'| < depth
    ensures |y| < |g|
  {
    FollowPrefix(g, root, a + y, |a|);
    assert (a + y)[..|a|] == a && (a + y)[|a|..] == y;
    var w := Follow(g, root, a).value;
    forall y': Path | Follow(g, w, y').Some?
      ensures |y'| < depth
    {
      FollowAppend(g, root, a, y');
    }
    PathsFitExactlyWithoutCycles(g, w, depth);
    AcyclicPathsAreSimple(g, w, y);
    Cardinality(Visited(g, w, y), g.Keys);
  }

  lemma TurnedLeft(p: Path, x: Path, i: nat, y: Path, j: nat, z: Path, c: Path)
    requires i < j
    ensures Before((p + (x + [i])) + y, (p + (x + ([j] + z))) + c)
  {
    PartingWays(x, i, y, j, z + c);
    AfterCommonPart(p, x + ([i] + y), x + ([j] + (z + c)));
    assert (p + (x + [i])) + y == p + (x + ([i] + y));
    assert (p + (x + ([j] + z))) + c == p + (x + ([j] + (z + c)));
  }

  /** What is to the left of the first round was visited then, and fitted: a path there is short. */
  lemma {:induction false} LeftIsShort(g: Graph, root: Id, p: Path, x: Path, i: nat, y: Path, j: nat, z: Path, depth: nat)
    requires root in g && i < j && Follow(g, root, p + (x + ([i] + y))).Some?
    requires FitBefore(g, root, (p + (x + ([j] + z))) + (x + ([i] + y)), depth)
    ensures |y| < |g|
  {
    var a := p + (x + [i]);
    forall y': Path | Follow(g, root, a + y').Some?
      ensures |a + y'| < depth
    {
      TurnedLeft(p, x, i, y', j, z, x + ([i] + y));
    }
    assert a + y == p + (x + ([i] + y));
    ShortBelow(g, root, a, y, depth);
  }

  lemma AtStep(q: Path, t: nat)
    requires t < |q|
    ensures q == q[..t] + ([q[t]] + q[t + 1..])
  {
  }

  /**
   The first path that does not fit, having come round a cycle, goes round once more or parts from it to the right:
   to the left it would not be long enough.
   */
  lemma {:induction false} SecondRoundIsNotAfter(g: Graph, root: Id, p: Path, q: Path, c: Path, depth: nat)
    requires root in g && Follow(g, root, p).Some? && Follow(g, Follow(g, root, p).value, c).Some?
    requires q != [] && |p| + |q| <= |g| && |p| + |q| + |c| >= 3 * |g|
    requires FitBefore(g, root, (p + q) + c, depth)
    ensures NotAfter((p + q) + q, (p + q) + c)
  {
    var n := |q|;
    if c[..n] == q {
      assert (p + q) + c == ((p + q) + q) + c[n..];
      NotAfterLonger((p + q) + q, (p + q) + q, c[n..]);
    } else {
      var t := FirstDifference(q, c[..n]);
      AtStep(q, t);
      AtStep(c, t);
      assert c[..n][t] == c[t] && c[..n][..t] == c[..t];
      if q[t] < c[t] {
        PartingWays(q[..t], q[t], q[t + 1..], c[t], c[t + 1..]);
        AfterCommonPart(p + q, q, c);
      } else {
        FollowAppend(g, root, p, c);
        LeftIsShort(g, root, p, q[..t], c[t], c[t + 1..], q[t], q[t + 1..], depth);
      }
    }
  }

  lemma {:induction false} OverflowHasLoop(g: Graph, root: Id, depth: nat) returns (p: Path, q: Path)
    requires root in g && depth >= 3 * |g| && Walk(g, root, [], depth) == TooDeep
    ensures Loops(g, root, p, q)
  {
    WalkExplained(g, root, [], depth);
    var path: Path :| Overflows(g, root, [], path, depth) && FitBefore(g, root, path, depth);
    var a, b := LongPathRepeats(g, root, path);
    p, q := path[..a], path[a..b];
    assert path[..b] == p + q && path == (p + q) + path[b..];
    FollowAppend(g, root, p, q);
    FollowAppend(g, root, p + q, path[b..]);
    SecondRoundIsNotAfter(g, root, p, q, path[b..], depth);
    NoFaultUpToEarlier(g, root, [], p + q + q, path);
  }

  lemma NoFaultUpToEarlier(g: Graph, u: Id, ids: seq<Id>, s: Path, p: Path)
    requires u in g && NotAfter(s, p) && NoFaultUpTo(g, u, ids, p)
    ensures NoFaultUpTo(g, u, ids, s)
  {
    forall r: Path | Fault(g, u, ids, r)
      ensures !NotAfter(r, s)
    {
      if NotAfter(r, s) && r != s && s != p {
        BeforeBefore(r, s, p);
      }
    }
  }

  /** The walk overflows every call stack. */
  ghost predicate NeverEnds(g: Graph, root: Id)
    requires root in g
  {
    forall depth: nat :: Walk(g, root, [], depth) == TooDeep
  }

  /**
   The walk never ends exactly if it goes twice round a cycle before it meets a fault; and a stack three times as
   deep as there are reviews tells.
   */
  lemma {:induction false} NeverEndsExactly(g: Graph, root: Id)
    requires root in g
    ensures NeverEnds(g, root) <==> exists p: Path, q: Path :: Loops(g, root, p, q)
    ensures NeverEnds(g, root) <==> Walk(g, root, [], 3 * |g|) == TooDeep
  {
    var depth := 3 * |g|;
    if Walk(g, root, [], depth) == TooDeep {
      var p, q := OverflowHasLoop(g, root, depth);
      LoopNeverEnds(g, root, p, q);
    }
    if p: Path, q: Path :| Loops(g, root, p, q) {
      LoopNeverEnds(g, root, p, q);
    }
  }

  lemma LoopNeverEnds(g: Graph, root: Id, p: Path, q: Path)
    requires root in g && Loops(g, root, p, q)
    ensures NeverEnds(g, root)
  {
    forall depth: nat
      ensures Walk(g, root, [], depth) == TooDeep
    {
      LoopOverflows(g, root, p, q, depth);
    }
  }

  lemma OnSecondRound(p: Path, q: Path, k: nat)
    requires q != [] && k <= |q|
    ensures Before(p + q[..k], p + q + q[..k]) && NotAfter(p + q + q[..k], p + q + q)
  {
    var x, z := q[..k], q[k..];
    assert q == x + z && p + q + q == (p + q + x) + z;
    NotAfterLonger(p + q + x, p + q + x, z);
    assert q + x == x + (z + x) && p + q + x == p + (q + x);
    BeforeLonger(x, z + x);
    AfterCommonPart(p, x, q + x);
  }

  /** Every review on such a cycle is submitted. */
  lemma {:induction false} LoopIsSubmitted(g: Graph, root: Id, p: Path, q: Path, k: nat)
    requires root in g && Loops(g, root, p, q) && k <= |q|
    ensures Follow(g, root, p + q[..k]).Some? && Follow(g, root, p + q[..k]).value !in Unsubmitted(g)
  {
    FollowPrefix(g, Follow(g, root, p).value, q, k);
    FollowAppend(g, root, p, q[..k]);
    FollowAppend(g, root, p, q);
    FollowAppend(g, root, p + q, q[..k]);
    var w, r := Follow(g, root, p + q[..k]).value, p + q + q[..k];
    OnSecondRound(p, q, k);
    FollowedIsNamed(g, root, r, w);
    assert Met(g, root, w, r);
    assert !Fault(g, root, [], r);
  }

  lemma {:induction false} BeforeIsOther(s: Path)
    ensures !Before(s, s)
    decreases s
  {
    if s != [] {
      BeforeIsOther(s[1..]);
    }
  }

  lemma {:induction false} NamedIsFetched(g: Graph, u: Id, r: Path)
    requires u in g && r != [] && Named(g, u, r).Some? && AllFetched(g, u)
    ensures Named(g, u, r).value in g
    decreases r
  {
    assert Follow(g, u, []) == Some(u);
    var d := g[u].dependsOn[r[0]];
    if |r| > 1 {
      forall p: Path | Follow(g, d, p).Some?
        ensures Acceptable(g, g.Keys, Follow(g, d, p).value)
      {
        FollowFirst(g, u, r[0], p);
      }
      NamedIsFetched(g, d, r[1..]);
    }
  }

  /** Where everything can be fetched and no unsubmitted review is on two paths, there is no fault. */
  lemma NoFaults(g: Graph, root: Id, r: Path)
    requires root in g && AllFetched(g, root) && Unique(g, Unsubmitted(g), root)
    ensures !Fault(g, root, [], r)
  {
    if Fault(g, root, [], r) {
      NamedIsFetched(g, root, r);
      var d := Named(g, root, r).value;
      NamedIsFollowed(g, root, r, d);
      var s: Path :| Before(s, r) && Follow(g, root, s) == Some(d);
      BeforeIsOther(s);
    }
  }

  /** There the walk never ends exactly if there is a cycle. */
  lemma NeverEndsExactlyOnCycles(g: Graph, root: Id)
    requires root in g && AllFetched(g, root) && Unique(g, Unsubmitted(g), root)
    ensures NeverEnds(g, root) <==> !Acyclic(g, root)
  {
    forall depth: nat
      ensures Walk(g, root, [], depth) == TooDeep <==> !PathsWithin(g, root, depth)
    {
      ListedExactlyWhenPathsAreUnique(g, root, depth);
      WalkExplained(g, root, [], depth);
      forall r: Path
        ensures !Fault(g, root, [], r)
      {
        NoFaults(g, root, r);
      }
    }
    forall depth: nat
      ensures PathsWithin(g, root, depth) ==> Acyclic(g, root)
    {
      PathsFitExactlyWithoutCycles(g, root, depth);
    }
    PathsFitExactlyWithoutCycles(g, root, |g|);
    assert Walk(g, root, [], |g|) == TooDeep <==> !PathsWithin(g, root, |g|);
  }

  /** The shortest such walk: a submitted review that depends on itself. */
  lemma {:induction false} SubmittedCycleOverflows(depth: nat)
    ensures Walk(map[0 := Review(true, true, [0])], 0, [], depth) == TooDeep
    decreases depth
  {
    var g := map[0 := Review(true, true, [0])];
    if depth > 0 {
      SubmittedCycleOverflows(depth - 1);
      assert WalkDependencies(g, 0, 0, [], depth) == TooDeep;
    }
  }
}
