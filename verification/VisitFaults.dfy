/** Which error applying reviews raises: the first one met in the order of visits, unless a patch fails before it. */
module VisitFaults {
  import opened Wrappers
  import opened ReviewGraph
  import opened ReviewPaths
  import opened ApplyReviews

  /** The review has been visited before the end of `r`. */
  ghost predicate Met(g: Graph, u: Id, w: Id, r: Path) {
    exists s: Path :: Before(s, r) && Follow(g, u, s) == Some(w)
  }

  /** At the end of `r` is a review that cannot be fetched, has no reviewers, or has been visited. */
  ghost predicate Faulty(g: Graph, u: Id, seen: seq<Id>, r: Path) {
    Named(g, u, r).Some? &&
    var w := Named(g, u, r).value;
    w !in g || !g[w].hasReviewers || w in seen || Met(g, u, w, r)
  }

  ghost predicate FirstFault(g: Graph, u: Id, seen: seq<Id>, r: Path) {
    Faulty(g, u, seen, r) && forall r': Path | Faulty(g, u, seen, r') :: !Before(r', r)
  }

  /** What is told about a fault: a review that cannot be fetched, one without reviewers, and else a circle. */
  function ToldOf(g: Graph, w: Id): Fault {
    if w !in g then NotFetched(w) else if !g[w].hasReviewers then NoReviewers(w) else Circular(w)
  }

  /** A visit on which every patch applies raises the first fault, and nothing if there is none. */
  ghost predicate Explained(g: Graph, u: Id, seen: seq<Id>, outcome: Outcome) {
    match outcome
    case Done(_) => forall r: Path :: !Faulty(g, u, seen, r)
    case Raised(fault, _) => exists r: Path :: FirstFault(g, u, seen, r) && fault == ToldOf(g, Named(g, u, r).value)
  }

  // ---------------------------------------------------------------- the same from the i-th dependency on

  ghost predicate MetFrom(g: Graph, u: Id, i: nat, w: Id, r: Path) {
    exists s: Path :: From(s, i) && Before(s, r) && Follow(g, u, s) == Some(w)
  }

  ghost predicate FaultyFrom(g: Graph, u: Id, i: nat, seen: seq<Id>, r: Path) {
    From(r, i) && Named(g, u, r).Some? &&
    var w := Named(g, u, r).value;
    w !in g || !g[w].hasReviewers || w in seen || MetFrom(g, u, i, w, r)
  }

  ghost predicate FirstFaultFrom(g: Graph, u: Id, i: nat, seen: seq<Id>, r: Path) {
    FaultyFrom(g, u, i, seen, r) && forall r': Path | FaultyFrom(g, u, i, seen, r') :: !Before(r', r)
  }

  ghost predicate ExplainedFrom(g: Graph, u: Id, i: nat, seen: seq<Id>, outcome: Outcome) {
    match outcome
    case Done(_) => forall r: Path :: !FaultyFrom(g, u, i, seen, r)
    case Raised(fault, _) =>
      exists r: Path :: FirstFaultFrom(g, u, i, seen, r) && fault == ToldOf(g, Named(g, u, r).value)
  }

  // ---------------------------------------------------------------- at a review

  lemma {:induction false} FaultyAtNode(g: Graph, u: Id, seen: seq<Id>, r: Path)
    requires u in g && g[u].hasReviewers && u !in seen
    ensures Faulty(g, u, seen, r) <==> FaultyFrom(g, u, 0, seen + [u], r)
  {
    if r == [] {
      assert !Met(g, u, u, r);
    } else if Named(g, u, r).Some? {
      var w := Named(g, u, r).value;
      assert w in seen + [u] <==> w in seen || w == u;
      assert Follow(g, u, []) == Some(u) && Before([], r);
      if Met(g, u, w, r) && w != u {
        var s: Path :| Before(s, r) && Follow(g, u, s) == Some(w);
        assert From(s, 0);
      }
    }
  }

  lemma {:induction false} FaultAtRoot(g: Graph, u: Id, seen: seq<Id>)
    requires u in g && (!g[u].hasReviewers || u in seen)
    ensures FirstFault(g, u, seen, []) && Named(g, u, []) == Some(u)
  {
  }

  lemma {:induction false} NodeExplained(g: Graph, u: Id, seen: seq<Id>, outcome: Outcome)
    requires u in g && g[u].hasReviewers && u !in seen && ExplainedFrom(g, u, 0, seen + [u], outcome)
    ensures Explained(g, u, seen, outcome)
  {
    forall r: Path
      ensures Faulty(g, u, seen, r) <==> FaultyFrom(g, u, 0, seen + [u], r)
    {
      FaultyAtNode(g, u, seen, r);
    }
    if outcome.Raised? {
      var r: Path :| FirstFaultFrom(g, u, 0, seen + [u], r) && outcome.fault == ToldOf(g, Named(g, u, r).value);
      assert FirstFault(g, u, seen, r);
    }
  }

  // ---------------------------------------------------------------- at a dependency

  /** A fault below the i-th dependency is a fault of the visit there. */
  lemma {:induction false} FaultyBelow(g: Graph, u: Id, i: nat, seen: seq<Id>, r: Path)
    requires u in g && i < |g[u].dependsOn| && r != [] && r[0] == i
    ensures Named(g, u, r) == Named(g, g[u].dependsOn[i], r[1..])
    ensures FaultyFrom(g, u, i, seen, r) <==> Faulty(g, g[u].dependsOn[i], seen, r[1..])
  {
    var d := g[u].dependsOn[i];
    if Named(g, u, r).Some? {
      var w := Named(g, u, r).value;
      if MetFrom(g, u, i, w, r) {
        var s: Path :| From(s, i) && Before(s, r) && Follow(g, u, s) == Some(w);
        assert s[0] == i && Before(s[1..], r[1..]) && Follow(g, d, s[1..]) == Some(w);
      }
      if Met(g, d, w, r[1..]) {
        var s: Path :| Before(s, r[1..]) && Follow(g, d, s) == Some(w);
        assert ([i] + s)[1..] == s;
        assert From([i] + s, i) && Before([i] + s, r) && Follow(g, u, [i] + s) == Some(w);
      }
    }
  }

  lemma {:induction false} LaterMeets(g: Graph, u: Id, i: nat, w: Id, r: Path)
    requires u in g && i < |g[u].dependsOn| && g[u].dependsOn[i] in g && From(r, i + 1)
    ensures MetFrom(g, u, i, w, r) <==> Reaches(g, g[u].dependsOn[i], w) || MetFrom(g, u, i + 1, w, r)
  {
    var d := g[u].dependsOn[i];
    if MetFrom(g, u, i, w, r) {
      var s: Path :| From(s, i) && Before(s, r) && Follow(g, u, s) == Some(w);
      if s[0] == i {
        assert Follow(g, d, s[1..]) == Some(w);
      } else {
        assert From(s, i + 1);
      }
    }
    if Reaches(g, d, w) {
      var s: Path :| Follow(g, d, s) == Some(w);
      FollowFirst(g, u, i, s);
      assert From([i] + s, i) && Before([i] + s, r);
    }
    if MetFrom(g, u, i + 1, w, r) {
      var s: Path :| From(s, i + 1) && Before(s, r) && Follow(g, u, s) == Some(w);
      assert From(s, i);
    }
  }

  /** Once the i-th dependency has been visited, so have its reviews: later faults are the same. */
  lemma {:induction false} FaultyLater(g: Graph, u: Id, i: nat, seen: seq<Id>, seen': seq<Id>, r: Path)
    requires u in g && i < |g[u].dependsOn| && g[u].dependsOn[i] in g
    requires ToSet(seen') == ToSet(seen) + Reachable(g, g.Keys, g[u].dependsOn[i])
    requires From(r, i + 1)
    ensures FaultyFrom(g, u, i, seen, r) <==> FaultyFrom(g, u, i + 1, seen', r)
  {
    if Named(g, u, r).Some? {
      var w := Named(g, u, r).value;
      assert (w in seen' <==> w in ToSet(seen')) && (w in seen <==> w in ToSet(seen));
      LaterMeets(g, u, i, w, r);
    }
  }

  lemma {:induction false} RaisedBelow(g: Graph, u: Id, i: nat, seen: seq<Id>, outcome: Outcome)
    requires u in g && i < |g[u].dependsOn| && outcome.Raised? && Explained(g, g[u].dependsOn[i], seen, outcome)
    ensures ExplainedFrom(g, u, i, seen, outcome)
  {
    var d := g[u].dependsOn[i];
    var r': Path :| FirstFault(g, d, seen, r') && outcome.fault == ToldOf(g, Named(g, d, r').value);
    var r := [i] + r';
    assert r[1..] == r';
    FaultyBelow(g, u, i, seen, r);
    forall other: Path | FaultyFrom(g, u, i, seen, other)
      ensures !Before(other, r)
    {
      if other[0] == i {
        FaultyBelow(g, u, i, seen, other);
      }
    }
    assert FirstFaultFrom(g, u, i, seen, r);
  }

  lemma {:induction false} NotFetchedExplained(g: Graph, d: Id, seen: seq<Id>, s: State)
    requires d !in g
    ensures Explained(g, d, seen, Raised(NotFetched(d), s))
  {
    assert FirstFault(g, d, seen, []) && Named(g, d, []) == Some(d);
  }

  lemma {:induction false} OthersExplained(g: Graph, u: Id, i: nat, seen: seq<Id>, s: State, outcome: Outcome)
    requires u in g && i < |g[u].dependsOn| && g[u].dependsOn[i] in g
    requires Explained(g, g[u].dependsOn[i], seen, Done(s))
    requires ToSet(s.reviews) == ToSet(seen) + Reachable(g, g.Keys, g[u].dependsOn[i])
    requires ExplainedFrom(g, u, i + 1, s.reviews, outcome)
    ensures ExplainedFrom(g, u, i, seen, outcome)
  {
    forall r: Path
      ensures FaultyFrom(g, u, i, seen, r) <==> FaultyFrom(g, u, i + 1, s.reviews, r)
    {
      if From(r, i) && r[0] == i {
        FaultyBelow(g, u, i, seen, r);
      } else if From(r, i + 1) {
        FaultyLater(g, u, i, seen, s.reviews, r);
      }
    }
    if outcome.Raised? {
      var r: Path :| FirstFaultFrom(g, u, i + 1, s.reviews, r) && outcome.fault == ToldOf(g, Named(g, u, r).value);
      assert FirstFaultFrom(g, u, i, seen, r);
    }
  }

  // ---------------------------------------------------------------- the whole visit

  lemma {:induction false} VisitExplained(g: Graph, u: Id, s: State)
    requires u in g && Proper(g, s)
    ensures Explained(g, u, s.reviews, Visit(g, EASY, u, s))
    decreases Unvisited(g, s.reviews), 0
  {
    if !g[u].hasReviewers || u in s.reviews {
      FaultAtRoot(g, u, s.reviews);
    } else {
      VisitShrinks(g, s.reviews, u);
      var s' := s.(reviews := s.reviews + [u]);
      DependenciesExplained(g, u, 0, s');
      EasyPatch(g, u, s');
      NodeExplained(g, u, s.reviews, Visit(g, EASY, u, s));
    }
  }

  /** A patch that applies changes nothing about what is told. */
  lemma {:induction false} EasyPatch(g: Graph, u: Id, s: State)
    requires u in g && ExplainedFrom(g, u, 0, s.reviews, VisitDependencies(g, EASY, u, 0, s))
    ensures
      var r := VisitDependencies(g, EASY, u, 0, s);
      ExplainedFrom(g, u, 0, s.reviews, if r.Done? then Patch(g, EASY, u, r.state) else r)
  {
  }

  lemma {:induction false} DependenciesExplained(g: Graph, u: Id, i: nat, s: State)
    requires u in g && i <= |g[u].dependsOn| && Proper(g, s)
    ensures ExplainedFrom(g, u, i, s.reviews, VisitDependencies(g, EASY, u, i, s))
    decreases Unvisited(g, s.reviews), 1 + |g[u].dependsOn| - i
  {
    if i < |g[u].dependsOn| {
      var d := g[u].dependsOn[i];
      if d !in g {
        NotFetchedExplained(g, d, s.reviews, s);
        RaisedBelow(g, u, i, s.reviews, Raised(NotFetched(d), s));
      } else {
        VisitExplained(g, d, s);
        var r := Visit(g, EASY, d, s);
        if r.Raised? {
          RaisedBelow(g, u, i, s.reviews, r);
        } else {
          VisitExplores(g, EASY, d, s);
          VisitingShrinks(g, s.reviews, r.state.reviews);
          DependenciesExplained(g, u, i + 1, r.state);
          OthersExplained(g, u, i, s.reviews, r.state, VisitDependencies(g, EASY, u, i + 1, r.state));
        }
      }
    }
  }

  /**
   On every graph and with every patcher: the visit raises the error of the first patch, in the order of the visit,
   that does not apply to those before it; if there is none, that of the first fault met; and if there is none, nothing.
   */
  lemma {:induction false} VisitTellsTheFirstFault(g: Graph, patch: Patcher, root: Id)
    requires root in g
    ensures
      var s := State([], []);
      var easy := Visit(g, EASY, root, s);
      Explained(g, root, [], easy) && Follows(patch, s, easy, Visit(g, patch, root, s))
  {
    VisitExplained(g, root, State([], []));
    VisitFollows(g, patch, root, State([], []));
  }
}
