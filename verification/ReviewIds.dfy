/**
 `get_dependent_review_ids`: the unsubmitted reviews that must be applied for a review, in an order
 in which they can be applied. The walk appends to one shared list, which is reversed at the end.
 It need not end, so it runs on a call stack of a given depth, as the interpreter's does.
 */
module ReviewIds {
  import opened Wrappers
  import opened ReviewGraph

  datatype Outcome = Listed(ids: seq<Id>) | Circular(at: Id) | NotFetched(id: Id) | TooDeep

  // ---------------------------------------------------------------- the walk

  /** A review is listed before the walk goes on to its dependencies. */
  function Listing(g: Graph, u: Id, ids: seq<Id>): seq<Id>
    requires u in g
  {
    if g[u].submitted then ids else ids + [u]
  }

  function Walk(g: Graph, u: Id, ids: seq<Id>, depth: nat): Outcome
    requires u in g
    decreases depth, |g[u].dependsOn| + 1
  {
    if depth == 0 then TooDeep else WalkDependencies(g, u, 0, Listing(g, u, ids), depth)
  }

  function WalkDependencies(g: Graph, u: Id, i: nat, ids: seq<Id>, depth: nat): Outcome
    requires u in g && i <= |g[u].dependsOn| && depth > 0
    decreases depth, |g[u].dependsOn| - i
  {
    if i == |g[u].dependsOn| then Listed(ids)
    else
      var d := g[u].dependsOn[i];
      if d !in g then NotFetched(d)
      else if d in ids then Circular(u)
      else
        match Walk(g, d, ids, depth - 1)
        case Listed(ids') => WalkDependencies(g, u, i + 1, ids', depth)
        case failure => failure
  }

  /** The list the recursive calls share and append to. */
  class IdList {
    var ids: seq<Id>

    constructor ()
      ensures ids == []
    {
      ids := [];
    }
  }

  /** Returns the error raised, if one is. */
  method CollectReviewIds(g: Graph, u: Id, list: IdList, depth: nat) returns (error: Option<Outcome>)
    requires u in g
    modifies list
    ensures match Walk(g, u, old(list.ids), depth)
      case Listed(ids) => error == None && list.ids == ids
      case failure => error == Some(failure)
    decreases depth
  {
    if depth == 0 {
      return Some(TooDeep);
    }
    ghost var entry := list.ids;
    if !g[u].submitted {
      list.ids := list.ids + [u];
    }
    var deps := g[u].dependsOn;
    for i := 0 to |deps|
      invariant WalkDependencies(g, u, i, list.ids, depth) == Walk(g, u, entry, depth)
    {
      var d := deps[i];
      if d !in g {
        return Some(NotFetched(d));
      }
      if d in list.ids {
        return Some(Circular(u));
      }
      error := CollectReviewIds(g, d, list, depth - 1);
      if error.Some? {
        return;
      }
    }
    error := None;
  }

  function Reversed(ids: seq<Id>): (r: seq<Id>)
    ensures |r| == |ids| && forall i | 0 <= i < |r| :: r[i] == ids[|ids| - 1 - i]
  {
    seq(|ids|, i requires 0 <= i < |ids| => ids[|ids| - 1 - i])
  }

  method GetDependentReviewIds(g: Graph, root: Id, depth: nat) returns (r: Outcome)
    requires root in g
    ensures match Walk(g, root, [], depth)
      case Listed(ids) => r == Listed(Reversed(ids))
      case failure => r == failure
  {
    var list := new IdList();
    var error := CollectReviewIds(g, root, list, depth);
    if error.Some? {
      return error.value;
    }
    return Listed(Reversed(list.ids));
  }

  // ---------------------------------------------------------------- how deep a walk can go

  /** Every dependency path from `u` fits on the call stack. */
  ghost predicate PathsWithin(g: Graph, u: Id, depth: nat) {
    forall p: Path | Follow(g, u, p).Some? :: |p| < depth
  }

  ghost predicate PathsWithinFrom(g: Graph, u: Id, i: nat, depth: nat) {
    forall p: Path | From(p, i) && Follow(g, u, p).Some? :: |p| < depth
  }

  lemma WithinAtNode(g: Graph, u: Id, depth: nat)
    requires u in g
    ensures PathsWithin(g, u, depth) <==> depth > 0 && PathsWithinFrom(g, u, 0, depth)
  {
    assert Follow(g, u, []) == Some(u);
    forall p: Path | Follow(g, u, p).Some?
      ensures p == [] || From(p, 0)
    {
    }
  }

  lemma WithinAtDependency(g: Graph, u: Id, i: nat, depth: nat)
    requires u in g && i < |g[u].dependsOn| && g[u].dependsOn[i] in g && depth > 0
    ensures PathsWithinFrom(g, u, i, depth) <==>
              PathsWithin(g, g[u].dependsOn[i], depth - 1) && PathsWithinFrom(g, u, i + 1, depth)
  {
    var d := g[u].dependsOn[i];
    if PathsWithinFrom(g, u, i, depth) {
      forall p: Path | Follow(g, d, p).Some?
        ensures |p| < depth - 1
      {
        FollowFirst(g, u, i, p);
        assert From([i] + p, i);
      }
      assert forall p: Path | From(p, i + 1) :: From(p, i);
    }
    if PathsWithin(g, d, depth - 1) && PathsWithinFrom(g, u, i + 1, depth) {
      forall p: Path | From(p, i) && Follow(g, u, p).Some?
        ensures |p| < depth
      {
        if p[0] == i {
          assert Follow(g, d, p[1..]).Some?;
        } else {
          assert From(p, i + 1);
        }
      }
    }
  }

  // ---------------------------------------------------------------- what is listed, and when

  /** A list of unsubmitted reviews, without repetition. */
  ghost predicate Proper(g: Graph, ids: seq<Id>) {
    Distinct(ids) && forall i | 0 <= i < |ids| :: ids[i] in Unsubmitted(g)
  }

  /** `r` lists exactly the reviews in `added` after `ids`, and succeeds exactly when `clean` holds. */
  ghost predicate Explores(g: Graph, ids: seq<Id>, r: Outcome, added: set<Id>, clean: bool) {
    && (r.Listed? <==> clean)
    && (r.Listed? ==> Proper(g, r.ids) && Extends(g, ids, r.ids, added) && ToSet(r.ids) == ToSet(ids) + added)
  }

  ghost predicate CleanWalk(g: Graph, u: Id, ids: seq<Id>, depth: nat) {
    && Clean(g, g.Keys, Unsubmitted(g), u, ToSet(ids)) && Unique(g, Unsubmitted(g), u)
    && PathsWithin(g, u, depth)
  }

  ghost predicate CleanDependencies(g: Graph, u: Id, i: nat, ids: seq<Id>, depth: nat)
    requires u in g
  {
    && CleanFrom(g, g.Keys, Unsubmitted(g), u, i, ToSet(ids)) && UniqueFrom(g, Unsubmitted(g), u, i)
    && PathsWithinFrom(g, u, i, depth)
  }

  lemma NodeExplored(g: Graph, u: Id, ids: seq<Id>, depth: nat, r: Outcome)
    requires u in g && (!g[u].submitted ==> u !in ids) && depth > 0
    requires
      var ids' := Listing(g, u, ids);
      Explores(g, ids', r, ReachableFrom(g, Unsubmitted(g), u, 0), CleanDependencies(g, u, 0, ids', depth))
    ensures Explores(g, ids, r, Reachable(g, Unsubmitted(g), u), CleanWalk(g, u, ids, depth))
  {
    var marks := Unsubmitted(g);
    CleanAtNode(g, g.Keys, marks, u, ToSet(ids));
    WithinAtNode(g, u, depth);
    ReachableAtNode(g, marks, u);
    assert ToSet(Listing(g, u, ids)) == ToSet(ids) + {u} * marks;
    if u in marks && r.Listed? {
      ExtendsFromNode(g, marks, ids, r.ids, u);
    }
  }

  lemma DependencyExplored(g: Graph, u: Id, i: nat, ids: seq<Id>, depth: nat, r: Outcome, r': Outcome)
    requires u in g && i < |g[u].dependsOn| && g[u].dependsOn[i] in g && r.Listed? && depth > 0
    requires
      var d := g[u].dependsOn[i];
      Explores(g, ids, r, Reachable(g, Unsubmitted(g), d), CleanWalk(g, d, ids, depth - 1))
    requires Explores(g, r.ids, r', ReachableFrom(g, Unsubmitted(g), u, i + 1), CleanDependencies(g, u, i + 1, r.ids, depth))
    ensures Explores(g, ids, r', ReachableFrom(g, Unsubmitted(g), u, i), CleanDependencies(g, u, i, ids, depth))
  {
    var marks := Unsubmitted(g);
    CleanAtDependency(g, g.Keys, marks, u, i, ToSet(ids));
    WithinAtDependency(g, u, i, depth);
    if r'.Listed? {
      ExtendsTwice(g, marks, ids, r.ids, r'.ids, u, i);
      ReachableAtDependency(g, marks, u, i);
    }
  }

  lemma NothingLeft(g: Graph, u: Id, ids: seq<Id>, depth: nat)
    requires u in g && Proper(g, ids)
    ensures
      var n := |g[u].dependsOn|;
      Explores(g, ids, Listed(ids), ReachableFrom(g, Unsubmitted(g), u, n), CleanDependencies(g, u, n, ids, depth))
  {
    assert ReachableFrom(g, Unsubmitted(g), u, |g[u].dependsOn|) == {};
    ExtendsNothing(g, ids);
  }

  lemma SeenBefore(g: Graph, d: Id, ids: seq<Id>, depth: nat)
    requires d in g && d in ids && Proper(g, ids)
    ensures !CleanWalk(g, d, ids, depth)
  {
    assert Follow(g, d, []) == Some(d);
    assert d in Unsubmitted(g) * ToSet(ids);
  }

  lemma DependencyFailed(g: Graph, u: Id, i: nat, ids: seq<Id>, depth: nat)
    requires u in g && i < |g[u].dependsOn| && depth > 0
    requires g[u].dependsOn[i] in g ==> !CleanWalk(g, g[u].dependsOn[i], ids, depth - 1)
    ensures !CleanDependencies(g, u, i, ids, depth)
  {
    if g[u].dependsOn[i] in g {
      CleanAtDependency(g, g.Keys, Unsubmitted(g), u, i, ToSet(ids));
      WithinAtDependency(g, u, i, depth);
    }
  }

  lemma {:induction false} WalkExplores(g: Graph, u: Id, ids: seq<Id>, depth: nat)
    requires u in g && (!g[u].submitted ==> u !in ids) && Proper(g, ids)
    ensures Explores(g, ids, Walk(g, u, ids, depth), Reachable(g, Unsubmitted(g), u), CleanWalk(g, u, ids, depth))
    decreases depth, |g[u].dependsOn| + 1
  {
    if depth == 0 {
      WithinAtNode(g, u, depth);
    } else {
      DependenciesExplore(g, u, 0, Listing(g, u, ids), depth);
      NodeExplored(g, u, ids, depth, Walk(g, u, ids, depth));
    }
  }

  lemma {:induction false} DependenciesExplore(g: Graph, u: Id, i: nat, ids: seq<Id>, depth: nat)
    requires u in g && i <= |g[u].dependsOn| && Proper(g, ids) && depth > 0
    ensures Explores(g, ids, WalkDependencies(g, u, i, ids, depth),
                     ReachableFrom(g, Unsubmitted(g), u, i), CleanDependencies(g, u, i, ids, depth))
    decreases depth, |g[u].dependsOn| - i
  {
    if i == |g[u].dependsOn| {
      NothingLeft(g, u, ids, depth);
    } else if g[u].dependsOn[i] !in g {
      DependencyFailed(g, u, i, ids, depth);
    } else {
      var d := g[u].dependsOn[i];
      if d in ids {
        SeenBefore(g, d, ids, depth - 1);
        DependencyFailed(g, u, i, ids, depth);
      } else {
        WalkExplores(g, d, ids, depth - 1);
        var r := Walk(g, d, ids, depth - 1);
        if r.Listed? {
          DependenciesExplore(g, u, i + 1, r.ids, depth);
          DependencyExplored(g, u, i, ids, depth, r, WalkDependencies(g, u, i + 1, r.ids, depth));
        } else {
          DependencyFailed(g, u, i, ids, depth);
        }
      }
    }
  }

  /**
   The ids returned are distinct, are exactly the unsubmitted reviews reachable from the root,
   and each comes after every unsubmitted review it depends on.
   */
  lemma ListedInApplicableOrder(g: Graph, root: Id, depth: nat)
    requires root in g && Walk(g, root, [], depth).Listed?
    ensures
      var ids := Reversed(Walk(g, root, [], depth).ids);
      && Distinct(ids)
      && ToSet(ids) == Reachable(g, Unsubmitted(g), root)
      && forall i, j | 0 <= i <= j < |ids| :: ids[i] in g && !DependsOn(g, ids[i], ids[j])
  {
    WalkExplores(g, root, [], depth);
    var ids := Walk(g, root, [], depth).ids;
    ReversedToSet(ids);
  }

  lemma ReversedToSet(ids: seq<Id>)
    ensures ToSet(Reversed(ids)) == ToSet(ids)
  {
    forall v | v in ids
      ensures v in Reversed(ids)
    {
      var k :| 0 <= k < |ids| && ids[k] == v;
      assert Reversed(ids)[|ids| - 1 - k] == v;
    }
  }

  /** Every review reachable from `u` names only dependencies that can be fetched. */
  ghost predicate AllFetched(g: Graph, u: Id) {
    forall p: Path | Follow(g, u, p).Some? :: Acceptable(g, g.Keys, Follow(g, u, p).value)
  }

  /**
   The walk succeeds exactly when every dependency it meets can be fetched, no unsubmitted review is reachable
   along two different paths, and no path is longer than the call stack is deep.
   */
  lemma ListedExactlyWhenPathsAreUnique(g: Graph, root: Id, depth: nat)
    requires root in g
    ensures Walk(g, root, [], depth).Listed? <==>
              AllFetched(g, root) && Unique(g, Unsubmitted(g), root) && PathsWithin(g, root, depth)
  {
    WalkExplores(g, root, [], depth);
    assert Clean(g, g.Keys, Unsubmitted(g), root, ToSet([])) <==> AllFetched(g, root);
  }

  // ---------------------------------------------------------------- cycles

  /** No review reachable from `u` depends on itself. */
  ghost predicate Acyclic(g: Graph, u: Id) {
    forall v | v in g && Reaches(g, u, v) :: !DependsOn(g, v, v)
  }

  /** The reviews on a path. */
  ghost function Visited(g: Graph, u: Id, p: Path): set<Id>
    requires u in g && Follow(g, u, p).Some?
    decreases p
  {
    {u} + if p == [] then {} else Visited(g, g[u].dependsOn[p[0]], p[1..])
  }

  lemma {:induction false} VisitedAreReached(g: Graph, u: Id, p: Path, v: Id)
    requires u in g && Follow(g, u, p).Some? && v in Visited(g, u, p)
    ensures v in g && Reaches(g, u, v)
    decreases p
  {
    assert Follow(g, u, []) == Some(u);
    if v != u {
      var d := g[u].dependsOn[p[0]];
      VisitedAreReached(g, d, p[1..], v);
      var q: Path :| Follow(g, d, q) == Some(v);
      FollowFirst(g, u, p[0], q);
    }
  }

  lemma ReachesThrough(g: Graph, u: Id, i: nat, v: Id)
    requires u in g && i < |g[u].dependsOn| && g[u].dependsOn[i] in g && Reaches(g, g[u].dependsOn[i], v)
    ensures Reaches(g, u, v) && DependsOn(g, u, v)
  {
    var q: Path :| Follow(g, g[u].dependsOn[i], q) == Some(v);
    FollowFirst(g, u, i, q);
    assert [i] + q != [];
  }

  /** Without cycles a path meets no review twice. */
  lemma {:induction false} AcyclicPathsAreSimple(g: Graph, u: Id, p: Path)
    requires u in g && Follow(g, u, p).Some? && Acyclic(g, u)
    ensures |Visited(g, u, p)| == |p| + 1 && Visited(g, u, p) <= g.Keys
    decreases p
  {
    if p != [] {
      var d := g[u].dependsOn[p[0]];
      forall v | v in g && Reaches(g, d, v)
        ensures !DependsOn(g, v, v) && v != u
      {
        ReachesThrough(g, u, p[0], v);
      }
      AcyclicPathsAreSimple(g, d, p[1..]);
      if u in Visited(g, d, p[1..]) {
        VisitedAreReached(g, d, p[1..], u);
      }
    }
  }

  lemma {:induction false} LongPath(g: Graph, root: Id, v: Id, n: nat) returns (p: Path)
    requires root in g && v in g && Reaches(g, root, v) && DependsOn(g, v, v)
    ensures Follow(g, root, p) == Some(v) && |p| >= n
  {
    if n == 0 {
      p :| Follow(g, root, p) == Some(v);
    } else {
      var q := LongPath(g, root, v, n - 1);
      var cycle: Path :| cycle != [] && Follow(g, v, cycle) == Some(v);
      FollowAppend(g, root, q, cycle);
      p := q + cycle;
    }
  }

  /** On a call stack with room for every review, the paths fit exactly when there is no cycle. */
  lemma PathsFitExactlyWithoutCycles(g: Graph, root: Id, depth: nat)
    requires root in g
    ensures PathsWithin(g, root, depth) ==> Acyclic(g, root)
    ensures Acyclic(g, root) && depth >= |g| ==> PathsWithin(g, root, depth)
  {
    forall v | v in g && Reaches(g, root, v) && DependsOn(g, v, v)
      ensures !PathsWithin(g, root, depth)
    {
      var p := LongPath(g, root, v, depth);
    }
    if Acyclic(g, root) && depth >= |g| {
      forall p: Path | Follow(g, root, p).Some?
        ensures |p| < depth
      {
        AcyclicPathsAreSimple(g, root, p);
        Cardinality(Visited(g, root, p), g.Keys);
      }
    }
  }

  lemma Cardinality(a: set<Id>, b: set<Id>)
    requires a <= b
    ensures |a| <= |b| && (a != b ==> |a| < |b|)
  {
    assert b == a + (b - a);
  }

  /** So on such a stack the walk succeeds exactly on acyclic graphs in which no unsubmitted review is shared. */
  lemma ListedExactlyWithoutCycles(g: Graph, root: Id, depth: nat)
    requires root in g && depth >= |g|
    ensures Walk(g, root, [], depth).Listed? <==>
              AllFetched(g, root) && Unique(g, Unsubmitted(g), root) && Acyclic(g, root)
  {
    ListedExactlyWhenPathsAreUnique(g, root, depth);
    PathsFitExactlyWithoutCycles(g, root, depth);
  }

  /** A shared dependency without any cycle is reported as a circular one: 0 needs 1 and 2, which both need 3. */
  lemma SharedDependencyIsReported(depth: nat)
    requires depth >= 3
    ensures
      var g := map[0 := Review(false, true, [1, 2]), 1 := Review(false, true, [3]),
                   2 := Review(false, true, [3]), 3 := Review(false, true, [])];
      Walk(g, 0, [], depth) == Circular(2)
  {
    var g := map[0 := Review(false, true, [1, 2]), 1 := Review(false, true, [3]),
                 2 := Review(false, true, [3]), 3 := Review(false, true, [])];
    assert [] + [0] == [0] && [0] + [1] == [0, 1] && [0, 1] + [3] == [0, 1, 3] && [0, 1, 3] + [2] == [0, 1, 3, 2];
    var d := depth - 2;
    assert Walk(g, 3, [0, 1], d) == WalkDependencies(g, 3, 0, [0, 1, 3], d) == Listed([0, 1, 3]);
    assert WalkDependencies(g, 1, 0, [0, 1], d + 1) == WalkDependencies(g, 1, 1, [0, 1, 3], d + 1) == Listed([0, 1, 3]);
    assert Walk(g, 1, [0], d + 1) == Listed([0, 1, 3]);
    assert Walk(g, 2, [0, 1, 3], d + 1) == WalkDependencies(g, 2, 0, [0, 1, 3, 2], d + 1) == Circular(2);
    assert WalkDependencies(g, 0, 0, [0], d + 2) == WalkDependencies(g, 0, 1, [0, 1, 3], d + 2) == Circular(2);
  }
}
