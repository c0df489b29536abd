/**
 `apply_reviews`: applies a review after everything it depends on, recursively. All visited
 reviews are recorded in one shared list, whether submitted or not.
 */
module ApplyReviews {
  import opened Wrappers
  import opened ReviewGraph

  /** What the script that applies one patch can do, given the patches already applied. */
  datatype Patching = Patched | DoesNotApply | CommandFails
  type Patcher = (seq<Id>, Id) -> Patching

  /** The reviews visited so far and the patches applied so far. */
  datatype State = State(reviews: seq<Id>, applied: seq<Id>)

  datatype Fault =
    | NoReviewers(id: Id)
    | Circular(id: Id)
    | NotFetched(id: Id)
    | BadPatch(id: Id)
    | CommandError(id: Id)

  /** A visit ends well or raises an error; either way it leaves what it has visited and applied so far. */
  datatype Outcome = Done(state: State) | Raised(fault: Fault, state: State)

  ghost function Unvisited(g: Graph, reviews: seq<Id>): nat {
    |g.Keys - ToSet(reviews)|
  }

  lemma VisitingShrinks(g: Graph, reviews: seq<Id>, reviews': seq<Id>)
    requires reviews <= reviews'
    ensures Unvisited(g, reviews') <= Unvisited(g, reviews)
    ensures (exists u :: u in g && u in reviews' && u !in reviews) ==> Unvisited(g, reviews') < Unvisited(g, reviews)
  {
    var a, b := g.Keys - ToSet(reviews'), g.Keys - ToSet(reviews);
    assert forall v | v in reviews :: v in reviews';
    assert b == a + (b - a);
    if u :| u in g && u in reviews' && u !in reviews {
      assert u in b - a;
    }
  }

  lemma VisitShrinks(g: Graph, reviews: seq<Id>, u: Id)
    requires u in g && u !in reviews
    ensures Unvisited(g, reviews + [u]) < Unvisited(g, reviews)
  {
    assert u in reviews + [u];
    VisitingShrinks(g, reviews, reviews + [u]);
  }

  // ---------------------------------------------------------------- the recursion

  function Visit(g: Graph, patch: Patcher, u: Id, s: State): (r: Outcome)
    requires u in g
    ensures s.reviews <= r.state.reviews
    decreases Unvisited(g, s.reviews), 0
  {
    if !g[u].hasReviewers then Raised(NoReviewers(u), s)
    else if u in s.reviews then Raised(Circular(u), s)
    else
      VisitShrinks(g, s.reviews, u);
      match VisitDependencies(g, patch, u, 0, s.(reviews := s.reviews + [u]))
      case Done(s') => Patch(g, patch, u, s')
      case failure => failure
  }

  function VisitDependencies(g: Graph, patch: Patcher, u: Id, i: nat, s: State): (r: Outcome)
    requires u in g && i <= |g[u].dependsOn|
    ensures s.reviews <= r.state.reviews
    decreases Unvisited(g, s.reviews), 1 + |g[u].dependsOn| - i
  {
    if i == |g[u].dependsOn| then Done(s)
    else
      var d := g[u].dependsOn[i];
      if d !in g then Raised(NotFetched(d), s)
      else
        match Visit(g, patch, d, s)
        case Done(s') => VisitingShrinks(g, s.reviews, s'.reviews); VisitDependencies(g, patch, u, i + 1, s')
        case failure => failure
  }

  function Patch(g: Graph, patch: Patcher, u: Id, s: State): (r: Outcome)
    requires u in g
    ensures r.state.reviews == s.reviews
  {
    if g[u].submitted then Done(s)
    else
      match patch(s.applied, u)
      case Patched => Done(s.(applied := s.applied + [u]))
      case DoesNotApply => Raised(BadPatch(u), s)
      case CommandFails => Raised(CommandError(u), s)
  }

  /** The shared list of visited reviews, and the repository the patches go to. */
  class Session {
    var reviews: seq<Id>
    var applied: seq<Id>

    ghost function View(): State
      reads this
    {
      State(reviews, applied)
    }

    constructor ()
      ensures View() == State([], [])
    {
      reviews, applied := [], [];
    }

    /** Returns the error raised, if one is. */
    method ApplyReviews(g: Graph, patch: Patcher, u: Id) returns (error: Option<Fault>)
      requires u in g
      modifies this
      ensures match Visit(g, patch, u, old(View()))
        case Done(s) => error == None && View() == s
        case Raised(fault, s) => error == Some(fault) && View() == s
      decreases Unvisited(g, reviews)
    {
      ghost var entry := View();
      if !g[u].hasReviewers {
        return Some(NoReviewers(u));
      }
      if u in reviews {
        return Some(Circular(u));
      }
      VisitShrinks(g, reviews, u);
      reviews := reviews + [u];
      ghost var visited := View();
      var deps := g[u].dependsOn;
      for i := 0 to |deps|
        invariant visited.reviews <= reviews
        invariant VisitDependencies(g, patch, u, i, View()) == VisitDependencies(g, patch, u, 0, visited)
      {
        if deps[i] !in g {
          return Some(NotFetched(deps[i]));
        }
        VisitingShrinks(g, visited.reviews, reviews);
        error := ApplyReviews(g, patch, deps[i]);
        if error.Some? {
          return;
        }
      }
      if !g[u].submitted {
        match patch(applied, u)
        case Patched =>
          applied := applied + [u];
        case DoesNotApply =>
          return Some(BadPatch(u));
        case CommandFails =>
          return Some(CommandError(u));
      }
      error := None;
    }
  }

  // ---------------------------------------------------------------- patches go on after their dependencies

  /** `a` was extended to `a'` by exactly the patches in `added`, each after every patch it depends on. */
  ghost predicate Applies(g: Graph, a: seq<Id>, a': seq<Id>, added: set<Id>) {
    && a <= a'
    && (forall i | 0 <= i < |a'| :: a'[i] in g)
    && (forall i | |a| <= i < |a'| :: a'[i] in added)
    && (forall v | v in added :: exists i :: |a| <= i < |a'| && a'[i] == v)
    && (forall i, j | |a| <= i < j < |a'| :: a'[i] != a'[j])
    && (forall i, j | |a| <= i <= j < |a'| :: !DependsOn(g, a'[i], a'[j]))
  }

  lemma AppliesTwice(g: Graph, a: seq<Id>, b: seq<Id>, c: seq<Id>, u: Id, i: nat)
    requires u in g && i < |g[u].dependsOn| && g[u].dependsOn[i] in g
    requires Applies(g, a, b, Reachable(g, Unsubmitted(g), g[u].dependsOn[i]))
    requires Applies(g, b, c, ReachableFrom(g, Unsubmitted(g), u, i + 1))
    requires Reachable(g, Unsubmitted(g), g[u].dependsOn[i]) !! ReachableFrom(g, Unsubmitted(g), u, i + 1)
    ensures Applies(g, a, c, ReachableFrom(g, Unsubmitted(g), u, i))
  {
    var marks, d := Unsubmitted(g), g[u].dependsOn[i];
    ReachableAtDependency(g, marks, u, i);
    forall v | v in ReachableFrom(g, marks, u, i)
      ensures exists k :: |a| <= k < |c| && c[k] == v
    {
      if v in Reachable(g, marks, d) {
        var k :| |a| <= k < |b| && b[k] == v;
        assert c[k] == v;
      }
    }
    forall x, y | |a| <= x <= y < |c|
      ensures !DependsOn(g, c[x], c[y]) && (x < y ==> c[x] != c[y])
    {
      if y < |b| {
        assert c[x] == b[x] && c[y] == b[y];
      } else if x < |b| {
        assert c[x] == b[x];
        if DependsOn(g, c[x], c[y]) {
          ReachableIsClosed(g, marks, d, c[x], c[y]);
          ReachableAtNode(g, marks, d);
          assert false;
        }
      }
    }
  }

  lemma AppliesAtNode(g: Graph, a: seq<Id>, b: seq<Id>, u: Id)
    requires u in Unsubmitted(g) && u !in ReachableFrom(g, Unsubmitted(g), u, 0)
    requires Applies(g, a, b, ReachableFrom(g, Unsubmitted(g), u, 0))
    ensures Applies(g, a, b + [u], Reachable(g, Unsubmitted(g), u))
  {
    var marks, c := Unsubmitted(g), b + [u];
    ReachableAtNode(g, marks, u);
    forall v | v in Reachable(g, marks, u)
      ensures exists k :: |a| <= k < |c| && c[k] == v
    {
      if v == u {
        assert c[|b|] == v;
      } else {
        var k :| |a| <= k < |b| && b[k] == v;
        assert c[k] == v;
      }
    }
    forall x, y | |a| <= x <= y < |c|
      ensures !DependsOn(g, c[x], c[y]) && (x < y ==> c[x] != c[y])
    {
      if y < |b| {
        assert c[x] == b[x] && c[y] == b[y];
      } else if DependsOn(g, c[x], u) {
        ReachableIsClosed(g, marks, u, c[x], u);
        assert false;
      }
    }
  }

  // ---------------------------------------------------------------- what is visited and applied, and when

  ghost predicate AlwaysPatches(patch: Patcher) {
    forall applied: seq<Id>, u: Id :: patch(applied, u) == Patched
  }

  function WithReviewers(g: Graph): set<Id> {
    set v | v in g && g[v].hasReviewers
  }

  ghost predicate Proper(g: Graph, s: State) {
    && Distinct(s.reviews)
    && (forall i | 0 <= i < |s.reviews| :: s.reviews[i] in g)
    && (forall i | 0 <= i < |s.applied| :: s.applied[i] in g)
  }

  /**
   `r` visits exactly the reviews in `visited` and applies exactly those in `patched`; it cannot
   succeed unless `clean`, and if every patch applies it then does.
   */
  ghost predicate Explores(g: Graph, patch: Patcher, s: State, r: Outcome,
                           visited: set<Id>, patched: set<Id>, clean: bool) {
    && (r.Done? ==> clean)
    && (clean && AlwaysPatches(patch) ==> r.Done?)
    && (r.Done? ==>
          && Proper(g, r.state)
          && Extends(g, s.reviews, r.state.reviews, visited)
          && ToSet(r.state.reviews) == ToSet(s.reviews) + visited
          && Applies(g, s.applied, r.state.applied, patched))
  }

  ghost predicate CleanVisit(g: Graph, u: Id, s: State) {
    Clean(g, WithReviewers(g), g.Keys, u, ToSet(s.reviews)) && Unique(g, g.Keys, u)
  }

  ghost predicate CleanDependencies(g: Graph, u: Id, i: nat, s: State)
    requires u in g
  {
    CleanFrom(g, WithReviewers(g), g.Keys, u, i, ToSet(s.reviews)) && UniqueFrom(g, g.Keys, u, i)
  }

  lemma NothingLeft(g: Graph, patch: Patcher, u: Id, s: State)
    requires u in g && Proper(g, s)
    ensures
      var n := |g[u].dependsOn|;
      Explores(g, patch, s, Done(s), ReachableFrom(g, g.Keys, u, n), ReachableFrom(g, Unsubmitted(g), u, n),
               CleanDependencies(g, u, n, s))
  {
    assert ReachableFrom(g, g.Keys, u, |g[u].dependsOn|) == {};
    assert ReachableFrom(g, Unsubmitted(g), u, |g[u].dependsOn|) == {};
    ExtendsNothing(g, s.reviews);
  }

  lemma DependencyFailed(g: Graph, u: Id, i: nat, s: State)
    requires u in g && i < |g[u].dependsOn|
    requires g[u].dependsOn[i] in g ==> !CleanVisit(g, g[u].dependsOn[i], s)
    ensures !CleanDependencies(g, u, i, s)
  {
    if g[u].dependsOn[i] in g {
      CleanAtDependency(g, WithReviewers(g), g.Keys, u, i, ToSet(s.reviews));
    }
  }

  lemma DependencyExplored(g: Graph, patch: Patcher, u: Id, i: nat, s: State, r: Outcome, r': Outcome)
    requires u in g && i < |g[u].dependsOn| && g[u].dependsOn[i] in g && r.Done?
    requires
      var d := g[u].dependsOn[i];
      Explores(g, patch, s, r, Reachable(g, g.Keys, d), Reachable(g, Unsubmitted(g), d), CleanVisit(g, d, s))
    requires Explores(g, patch, r.state, r', ReachableFrom(g, g.Keys, u, i + 1), ReachableFrom(g, Unsubmitted(g), u, i + 1),
                      CleanDependencies(g, u, i + 1, r.state))
    ensures Explores(g, patch, s, r', ReachableFrom(g, g.Keys, u, i), ReachableFrom(g, Unsubmitted(g), u, i),
                     CleanDependencies(g, u, i, s))
  {
    CleanAtDependency(g, WithReviewers(g), g.Keys, u, i, ToSet(s.reviews));
    if r'.Done? {
      ExtendsTwice(g, g.Keys, s.reviews, r.state.reviews, r'.state.reviews, u, i);
      ReachableAtDependency(g, g.Keys, u, i);
      AppliesTwice(g, s.applied, r.state.applied, r'.state.applied, u, i);
    }
  }

  lemma NodeExplored(g: Graph, patch: Patcher, u: Id, s: State, r: Outcome)
    requires u in g && g[u].hasReviewers && u !in s.reviews
    requires
      var s' := s.(reviews := s.reviews + [u]);
      Explores(g, patch, s', r, ReachableFrom(g, g.Keys, u, 0), ReachableFrom(g, Unsubmitted(g), u, 0),
               CleanDependencies(g, u, 0, s'))
    ensures
      var r' := if r.Done? then Patch(g, patch, u, r.state) else r;
      Explores(g, patch, s, r', Reachable(g, g.Keys, u), Reachable(g, Unsubmitted(g), u), CleanVisit(g, u, s))
  {
    CleanAtNode(g, WithReviewers(g), g.Keys, u, ToSet(s.reviews));
    assert ToSet(s.reviews + [u]) == ToSet(s.reviews) + {u} * g.Keys;
    ReachableAtNode(g, g.Keys, u);
    ReachableAtNode(g, Unsubmitted(g), u);
    if r.Done? {
      ExtendsFromNode(g, g.Keys, s.reviews, r.state.reviews, u);
      assert u in s.reviews + [u];
      assert u !in ReachableFrom(g, g.Keys, u, 0);
      if !g[u].submitted {
        AppliesAtNode(g, s.applied, r.state.applied, u);
      }
    }
  }

  lemma {:induction false} VisitExplores(g: Graph, patch: Patcher, u: Id, s: State)
    requires u in g && Proper(g, s)
    ensures Explores(g, patch, s, Visit(g, patch, u, s), Reachable(g, g.Keys, u), Reachable(g, Unsubmitted(g), u),
                     CleanVisit(g, u, s))
    decreases Unvisited(g, s.reviews), 0
  {
    if !g[u].hasReviewers || u in s.reviews {
      assert Follow(g, u, []) == Some(u);
      assert u in s.reviews ==> u in g.Keys * ToSet(s.reviews);
    } else {
      VisitShrinks(g, s.reviews, u);
      var s' := s.(reviews := s.reviews + [u]);
      DependenciesExplore(g, patch, u, 0, s');
      NodeExplored(g, patch, u, s, VisitDependencies(g, patch, u, 0, s'));
    }
  }

  lemma {:induction false} DependenciesExplore(g: Graph, patch: Patcher, u: Id, i: nat, s: State)
    requires u in g && i <= |g[u].dependsOn| && Proper(g, s)
    ensures Explores(g, patch, s, VisitDependencies(g, patch, u, i, s),
                     ReachableFrom(g, g.Keys, u, i), ReachableFrom(g, Unsubmitted(g), u, i), CleanDependencies(g, u, i, s))
    decreases Unvisited(g, s.reviews), 1 + |g[u].dependsOn| - i
  {
    if i == |g[u].dependsOn| {
      NothingLeft(g, patch, u, s);
    } else if g[u].dependsOn[i] !in g {
      DependencyFailed(g, u, i, s);
    } else {
      var d := g[u].dependsOn[i];
      VisitExplores(g, patch, d, s);
      var r := Visit(g, patch, d, s);
      if r.Done? {
        VisitingShrinks(g, s.reviews, r.state.reviews);
        DependenciesExplore(g, patch, u, i + 1, r.state);
        DependencyExplored(g, patch, u, i, s, r, VisitDependencies(g, patch, u, i + 1, r.state));
      } else if AlwaysPatches(patch) {
        DependencyFailed(g, u, i, s);
      }
    }
  }

  /**
   On success every review reachable from the root has been visited once, every unsubmitted one of them has
   been applied exactly once, and each patch went on after all the patches it depends on.
   */
  lemma AppliedAfterDependencies(g: Graph, patch: Patcher, root: Id)
    requires root in g && Visit(g, patch, root, State([], [])).Done?
    ensures
      var s := Visit(g, patch, root, State([], [])).state;
      && Distinct(s.reviews) && ToSet(s.reviews) == Reachable(g, g.Keys, root)
      && Distinct(s.applied) && ToSet(s.applied) == Reachable(g, Unsubmitted(g), root)
      && forall i, j | 0 <= i <= j < |s.applied| :: s.applied[i] in g && !DependsOn(g, s.applied[i], s.applied[j])
  {
    VisitExplores(g, patch, root, State([], []));
  }

  /** Every review met has reviewers and names only dependencies that can be fetched. */
  ghost predicate AllReviewable(g: Graph, u: Id) {
    forall p: Path | Follow(g, u, p).Some? :: Acceptable(g, WithReviewers(g), Follow(g, u, p).value)
  }

  // ---------------------------------------------------------------- exactly when the visit succeeds

  /** The patcher under which every patch applies. */
  const EASY: Patcher := (applied, u) => Patched

  /** Every patch beyond the first `n` applies to the patches before it. */
  predicate AllApply(patch: Patcher, applied: seq<Id>, n: nat) {
    forall i | n <= i < |applied| :: patch(applied[..i], applied[i]) == Patched
  }

  /** The error a patch that does not apply, or whose command fails, is told as. */
  function PatchFault(patching: Patching, u: Id): Fault {
    if patching == DoesNotApply then BadPatch(u) else CommandError(u)
  }

  /** `r` stopped at the first patch beyond the `n`-th that does not apply to those before it. */
  predicate StopsAtPatch(patch: Patcher, applied: seq<Id>, n: nat, r: Outcome) {
    var k := |r.state.applied|;
    && n <= k < |applied| && r.state.applied == applied[..k] && AllApply(patch, applied[..k], n)
    && var patching := patch(applied[..k], applied[k]);
       patching != Patched && r.Raised? && r.fault == PatchFault(patching, applied[k])
  }

  /** `r` is what becomes of the visit `easy`, on which every patch applied: the same, unless some patch does not apply. */
  predicate Follows(patch: Patcher, s: State, easy: Outcome, r: Outcome) {
    && s.applied <= easy.state.applied
    && if AllApply(patch, easy.state.applied, |s.applied|) then r == easy
       else StopsAtPatch(patch, easy.state.applied, |s.applied|, r)
  }

  lemma {:induction false} AllApplyPrefix(patch: Patcher, a: seq<Id>, b: seq<Id>, n: nat)
    requires a <= b && n <= |a|
    ensures AllApply(patch, b, n) <==> AllApply(patch, a, n) && AllApply(patch, b, |a|)
  {
    assert forall i | n <= i < |a| :: a[..i] == b[..i] && a[i] == b[i];
  }

  lemma {:induction false} PatchFollows(g: Graph, patch: Patcher, u: Id, s: State)
    requires u in g
    ensures Follows(patch, s, Patch(g, EASY, u, s), Patch(g, patch, u, s))
  {
    if !g[u].submitted {
      var applied := s.applied + [u];
      assert applied[..|s.applied|] == s.applied;
      assert AllApply(patch, applied, |s.applied|) <==> patch(s.applied, u) == Patched;
    }
  }

  lemma {:induction false} StoppedBefore(patch: Patcher, a: seq<Id>, b: seq<Id>, n: nat, r: Outcome)
    requires a <= b && StopsAtPatch(patch, a, n, r)
    ensures StopsAtPatch(patch, b, n, r) && !AllApply(patch, b, n)
  {
    var k := |r.state.applied|;
    assert a[..k] == b[..k] && a[k] == b[k];
  }

  lemma {:induction false} StoppedAfter(patch: Patcher, a: seq<Id>, b: seq<Id>, n: nat, r: Outcome)
    requires a <= b && n <= |a| && AllApply(patch, a, n) && StopsAtPatch(patch, b, |a|, r)
    ensures StopsAtPatch(patch, b, n, r)
  {
    var k := |r.state.applied|;
    AllApplyPrefix(patch, a, b[..k], n);
  }

  lemma {:induction false} FollowsTwice(patch: Patcher, s: State, easy: Outcome, easy': Outcome, r: Outcome, r': Outcome)
    requires Follows(patch, s, easy, r) && easy.Done? && easy.state.applied <= easy'.state.applied
    requires if r.Done? then Follows(patch, easy.state, easy', r') else r' == r
    ensures Follows(patch, s, easy', r')
  {
    var a, b, n := easy.state.applied, easy'.state.applied, |s.applied|;
    AllApplyPrefix(patch, a, b, n);
    if !AllApply(patch, a, n) {
      StoppedBefore(patch, a, b, n, r);
    } else if !AllApply(patch, b, |a|) {
      StoppedAfter(patch, a, b, n, r');
    }
  }

  lemma {:induction false} VisitFollows(g: Graph, patch: Patcher, u: Id, s: State)
    requires u in g
    ensures Follows(patch, s, Visit(g, EASY, u, s), Visit(g, patch, u, s))
    decreases Unvisited(g, s.reviews), 0
  {
    if g[u].hasReviewers && u !in s.reviews {
      VisitShrinks(g, s.reviews, u);
      var s' := s.(reviews := s.reviews + [u]);
      DependenciesFollow(g, patch, u, 0, s');
      var easy, r := VisitDependencies(g, EASY, u, 0, s'), VisitDependencies(g, patch, u, 0, s');
      if easy.Done? {
        PatchFollows(g, patch, u, easy.state);
        FollowsTwice(patch, s', easy, Patch(g, EASY, u, easy.state), r, if r.Done? then Patch(g, patch, u, r.state) else r);
      }
    }
  }

  lemma {:induction false} DependenciesFollow(g: Graph, patch: Patcher, u: Id, i: nat, s: State)
    requires u in g && i <= |g[u].dependsOn|
    ensures Follows(patch, s, VisitDependencies(g, EASY, u, i, s), VisitDependencies(g, patch, u, i, s))
    decreases Unvisited(g, s.reviews), 1 + |g[u].dependsOn| - i
  {
    if i < |g[u].dependsOn| && g[u].dependsOn[i] in g {
      var d := g[u].dependsOn[i];
      VisitFollows(g, patch, d, s);
      var easy, r := Visit(g, EASY, d, s), Visit(g, patch, d, s);
      if easy.Done? {
        VisitingShrinks(g, s.reviews, easy.state.reviews);
        DependenciesFollow(g, patch, u, i + 1, easy.state);
        FollowsTwice(patch, s, easy, VisitDependencies(g, EASY, u, i + 1, easy.state), r,
                     if r.Done? then VisitDependencies(g, patch, u, i + 1, r.state) else r);
      }
    }
  }

  /**
   The visit succeeds exactly when every review met has reviewers and can be fetched, no review, submitted or not,
   is on two different paths from the root, and every patch applies to those before it in the order of the visit.
   Otherwise it raises what it would raise if every patch applied, or stops before that at the first that does not.
   */
  lemma DoneExactlyOnUniquePaths(g: Graph, patch: Patcher, root: Id)
    requires root in g
    ensures
      var easy := Visit(g, EASY, root, State([], []));
      && (easy.Done? <==> AllReviewable(g, root) && Unique(g, g.Keys, root))
      && (Visit(g, patch, root, State([], [])).Done? <==> easy.Done? && AllApply(patch, easy.state.applied, 0))
      && Follows(patch, State([], []), easy, Visit(g, patch, root, State([], [])))
  {
    VisitExplores(g, EASY, root, State([], []));
    assert AlwaysPatches(EASY);
    assert Clean(g, WithReviewers(g), g.Keys, root, ToSet([])) <==> AllReviewable(g, root);
    VisitFollows(g, patch, root, State([], []));
  }
}
