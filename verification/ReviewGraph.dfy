/**
 Review requests and their dependencies, as the review board serves them, and the paths
 a recursive walk can take through them.
 */
module ReviewGraph {
  import opened Wrappers

  type Id = nat

  datatype Review = Review(submitted: bool, hasReviewers: bool, dependsOn: seq<Id>)

  /** The reviews that can be fetched. */
  type Graph = map<Id, Review>

  /** A path names, review by review, which entry of `depends_on` to follow. */
  type Path = seq<nat>

  function Follow(g: Graph, u: Id, p: Path): (r: Option<Id>)
    ensures r.Some? ==> r.value in g
    decreases p
  {
    if u !in g then None
    else if p == [] then Some(u)
    else
      var deps := g[u].dependsOn;
      if p[0] < |deps| && deps[p[0]] in g then Follow(g, deps[p[0]], p[1..]) else None
  }

  ghost predicate Reaches(g: Graph, u: Id, v: Id) {
    exists p: Path :: Follow(g, u, p) == Some(v)
  }

  /** `u` depends on `v`, directly or transitively. */
  ghost predicate DependsOn(g: Graph, u: Id, v: Id) {
    exists p: Path :: p != [] && Follow(g, u, p) == Some(v)
  }

  function Unsubmitted(g: Graph): set<Id> {
    set v | v in g && !g[v].submitted
  }

  lemma FollowFirst(g: Graph, u: Id, i: nat, p: Path)
    requires u in g && i < |g[u].dependsOn| && g[u].dependsOn[i] in g
    ensures Follow(g, u, [i] + p) == Follow(g, g[u].dependsOn[i], p)
  {
    assert ([i] + p)[1..] == p;
  }

  lemma {:induction false} FollowAppend(g: Graph, u: Id, p: Path, q: Path)
    requires u in g && Follow(g, u, p).Some?
    ensures Follow(g, u, p + q) == Follow(g, Follow(g, u, p).value, q)
    decreases p
  {
    if p == [] {
      assert p + q == q;
    } else {
      assert (p + q)[0] == p[0] && (p + q)[1..] == p[1..] + q;
      FollowAppend(g, g[u].dependsOn[p[0]], p[1..], q);
    }
  }

  // ---------------------------------------------------------------- what a walk meets

  /** The marked reviews reachable from `u`. */
  ghost function Reachable(g: Graph, marks: set<Id>, u: Id): set<Id> {
    set v | v in g && v in marks && Reaches(g, u, v)
  }

  predicate From(p: Path, i: nat) {
    p != [] && p[0] >= i
  }

  /** The marked reviews reachable through the dependencies of `u` from the `i`-th on. */
  ghost function ReachableFrom(g: Graph, marks: set<Id>, u: Id, i: nat): set<Id> {
    set v | v in g && v in marks && exists p: Path :: From(p, i) && Follow(g, u, p) == Some(v)
  }

  lemma ReachableAtNode(g: Graph, marks: set<Id>, u: Id)
    requires u in g
    ensures Reachable(g, marks, u) == (if u in marks then {u} else {}) + ReachableFrom(g, marks, u, 0)
  {
    assert Follow(g, u, []) == Some(u);
    forall p: Path, v | Follow(g, u, p) == Some(v)
      ensures v == u || From(p, 0)
    {
    }
  }

  lemma ReachableAtDependency(g: Graph, marks: set<Id>, u: Id, i: nat)
    requires u in g && i < |g[u].dependsOn| && g[u].dependsOn[i] in g
    ensures ReachableFrom(g, marks, u, i)
         == Reachable(g, marks, g[u].dependsOn[i]) + ReachableFrom(g, marks, u, i + 1)
  {
    var d := g[u].dependsOn[i];
    forall v | v in Reachable(g, marks, d)
      ensures v in ReachableFrom(g, marks, u, i)
    {
      var p: Path :| Follow(g, d, p) == Some(v);
      FollowFirst(g, u, i, p);
      assert From([i] + p, i);
    }
    forall v | v in ReachableFrom(g, marks, u, i)
      ensures v in Reachable(g, marks, d) + ReachableFrom(g, marks, u, i + 1)
    {
      var p: Path :| From(p, i) && Follow(g, u, p) == Some(v);
      if p[0] == i {
        assert Follow(g, d, p[1..]) == Some(v);
      } else {
        assert From(p, i + 1);
      }
    }
  }

  // ---------------------------------------------------------------- when a walk can succeed

  ghost predicate Acceptable(g: Graph, ok: set<Id>, v: Id)
  {
    v in g && v in ok && forall j | 0 <= j < |g[v].dependsOn| :: g[v].dependsOn[j] in g
  }

  /** Every review met is acceptable, and no marked one has been seen before. */
  ghost predicate Clean(g: Graph, ok: set<Id>, marks: set<Id>, u: Id, seen: set<Id>) {
    forall p: Path | Follow(g, u, p).Some? ::
      Acceptable(g, ok, Follow(g, u, p).value) && Follow(g, u, p).value !in marks * seen
  }

  /** No marked review is met along two different paths. */
  ghost predicate Unique(g: Graph, marks: set<Id>, u: Id) {
    forall p: Path, q: Path | Follow(g, u, p).Some? && Follow(g, u, p) == Follow(g, u, q) ::
      Follow(g, u, p).value in marks ==> p == q
  }

  ghost predicate CleanFrom(g: Graph, ok: set<Id>, marks: set<Id>, u: Id, i: nat, seen: set<Id>)
    requires u in g
  {
    && (forall j | i <= j < |g[u].dependsOn| :: g[u].dependsOn[j] in g)
    && forall p: Path | From(p, i) && Follow(g, u, p).Some? ::
         Acceptable(g, ok, Follow(g, u, p).value) && Follow(g, u, p).value !in marks * seen
  }

  ghost predicate UniqueFrom(g: Graph, marks: set<Id>, u: Id, i: nat) {
    forall p: Path, q: Path | From(p, i) && From(q, i) && Follow(g, u, p).Some? && Follow(g, u, p) == Follow(g, u, q) ::
      Follow(g, u, p).value in marks ==> p == q
  }

  lemma CleanAtNode(g: Graph, ok: set<Id>, marks: set<Id>, u: Id, seen: set<Id>)
    requires u in g
    ensures Clean(g, ok, marks, u, seen) && Unique(g, marks, u)
       <==> && u in ok && u !in marks * seen
            && CleanFrom(g, ok, marks, u, 0, seen + {u} * marks) && UniqueFrom(g, marks, u, 0)
  {
    assert Follow(g, u, []) == Some(u);
    if Clean(g, ok, marks, u, seen) && Unique(g, marks, u) {
      assert Acceptable(g, ok, u);
      forall p: Path | From(p, 0) && Follow(g, u, p).Some?
        ensures Follow(g, u, p).value !in marks * (seen + {u} * marks)
      {
        assert Follow(g, u, p) == Follow(g, u, []) ==> u in marks ==> p == [];
      }
    }
    if && u in ok && u !in marks * seen
       && CleanFrom(g, ok, marks, u, 0, seen + {u} * marks) && UniqueFrom(g, marks, u, 0)
    {
      forall p: Path | Follow(g, u, p).Some?
        ensures Acceptable(g, ok, Follow(g, u, p).value) && Follow(g, u, p).value !in marks * seen
        ensures p != [] && Follow(g, u, p).value == u ==> u !in marks
      {
        assert p != [] ==> From(p, 0);
      }
      forall p: Path, q: Path | Follow(g, u, p).Some? && Follow(g, u, p) == Follow(g, u, q)
        ensures Follow(g, u, p).value in marks ==> p == q
      {
        assert p != [] && q != [] ==> From(p, 0) && From(q, 0);
      }
    }
  }

  lemma CleanAtDependency(g: Graph, ok: set<Id>, marks: set<Id>, u: Id, i: nat, seen: set<Id>)
    requires u in g && i < |g[u].dependsOn| && g[u].dependsOn[i] in g
    ensures
      var d := g[u].dependsOn[i];
      var seen' := seen + Reachable(g, marks, d);
      (CleanFrom(g, ok, marks, u, i, seen) && UniqueFrom(g, marks, u, i)) <==>
      (&& Clean(g, ok, marks, d, seen) && Unique(g, marks, d)
       && CleanFrom(g, ok, marks, u, i + 1, seen') && UniqueFrom(g, marks, u, i + 1))
  {
    if CleanFrom(g, ok, marks, u, i, seen) && UniqueFrom(g, marks, u, i) {
      SplitAtDependency(g, ok, marks, u, i, seen);
    }
    var d := g[u].dependsOn[i];
    if && Clean(g, ok, marks, d, seen) && Unique(g, marks, d)
       && CleanFrom(g, ok, marks, u, i + 1, seen + Reachable(g, marks, d)) && UniqueFrom(g, marks, u, i + 1)
    {
      JoinAtDependency(g, ok, marks, u, i, seen);
    }
  }

  lemma SplitAtDependency(g: Graph, ok: set<Id>, marks: set<Id>, u: Id, i: nat, seen: set<Id>)
    requires u in g && i < |g[u].dependsOn| && g[u].dependsOn[i] in g
    requires CleanFrom(g, ok, marks, u, i, seen) && UniqueFrom(g, marks, u, i)
    ensures
      var d := g[u].dependsOn[i];
      && Clean(g, ok, marks, d, seen) && Unique(g, marks, d)
      && CleanFrom(g, ok, marks, u, i + 1, seen + Reachable(g, marks, d)) && UniqueFrom(g, marks, u, i + 1)
  {
    var d := g[u].dependsOn[i];
    forall p: Path
      ensures Follow(g, u, [i] + p) == Follow(g, d, p) && From([i] + p, i)
    {
      FollowFirst(g, u, i, p);
    }
    forall p: Path, q: Path | Follow(g, d, p).Some? && Follow(g, d, p) == Follow(g, d, q)
      ensures Follow(g, d, p).value in marks ==> p == q
    {
      assert ([i] + p)[1..] == p && ([i] + q)[1..] == q;
    }
    forall p: Path | From(p, i + 1) && Follow(g, u, p).Some?
      ensures Follow(g, u, p).value !in marks * (seen + Reachable(g, marks, d))
    {
      var v := Follow(g, u, p).value;
      assert From(p, i);
      if v in Reachable(g, marks, d) {
        var q: Path :| Follow(g, d, q) == Some(v);
        assert false;
      }
    }
  }

  lemma JoinAtDependency(g: Graph, ok: set<Id>, marks: set<Id>, u: Id, i: nat, seen: set<Id>)
    requires u in g && i < |g[u].dependsOn| && g[u].dependsOn[i] in g
    requires
      var d := g[u].dependsOn[i];
      && Clean(g, ok, marks, d, seen) && Unique(g, marks, d)
      && CleanFrom(g, ok, marks, u, i + 1, seen + Reachable(g, marks, d)) && UniqueFrom(g, marks, u, i + 1)
    ensures CleanFrom(g, ok, marks, u, i, seen) && UniqueFrom(g, marks, u, i)
  {
    var d := g[u].dependsOn[i];
    forall p: Path | From(p, i) && Follow(g, u, p).Some?
      ensures Acceptable(g, ok, Follow(g, u, p).value) && Follow(g, u, p).value !in marks * seen
      ensures if p[0] == i then Follow(g, u, p) == Follow(g, d, p[1..])
              else From(p, i + 1) && Follow(g, u, p).value !in Reachable(g, marks, d)
    {
      assert p[0] > i ==> From(p, i + 1);
    }
    forall p: Path, q: Path | From(p, i) && From(q, i) && Follow(g, u, p).Some? && Follow(g, u, p) == Follow(g, u, q)
      ensures Follow(g, u, p).value in marks ==> p == q
    {
      if p[0] == i {
        assert p == [i] + p[1..];
        assert Follow(g, d, p[1..]) == Follow(g, u, p);
      }
      if q[0] == i {
        assert q == [i] + q[1..];
        assert Follow(g, d, q[1..]) == Follow(g, u, q);
      }
    }
  }

  // ---------------------------------------------------------------- lists that grow in visiting order

  function ToSet(ids: seq<Id>): set<Id> {
    set v | v in ids
  }

  predicate Distinct(ids: seq<Id>) {
    forall i, j | 0 <= i < j < |ids| :: ids[i] != ids[j]
  }

  /** From position `lo` on, no review depends on itself or on one listed before it. */
  ghost predicate DependenciesLater(g: Graph, ids: seq<Id>, lo: nat)
    requires forall v | v in ids :: v in g
  {
    forall i, j | lo <= i <= j < |ids| :: !DependsOn(g, ids[j], ids[i])
  }

  /** `ids` was extended to `ids'` by exactly the reviews in `added`, none of them listed before. */
  ghost predicate Extends(g: Graph, ids: seq<Id>, ids': seq<Id>, added: set<Id>) {
    && ids <= ids' && Distinct(ids')
    && (forall i | 0 <= i < |ids'| :: ids'[i] in g)
    && (forall i | |ids| <= i < |ids'| :: ids'[i] in added)
    && (forall v | v in added :: v in ids' && v !in ids)
    && DependenciesLater(g, ids', |ids|)
  }

  lemma ExtendsNothing(g: Graph, ids: seq<Id>)
    requires Distinct(ids) && forall i | 0 <= i < |ids| :: ids[i] in g
    ensures Extends(g, ids, ids, {})
  {
  }

  lemma ReachableFromIsClosed(g: Graph, marks: set<Id>, u: Id, i: nat, v: Id, w: Id)
    requires u in g && v in ReachableFrom(g, marks, u, i) && DependsOn(g, v, w) && w in marks
    ensures w in ReachableFrom(g, marks, u, i)
  {
    var p: Path :| From(p, i) && Follow(g, u, p) == Some(v);
    var q: Path :| q != [] && Follow(g, v, q) == Some(w);
    FollowAppend(g, u, p, q);
    assert From(p + q, i);
  }

  lemma ReachableIsClosed(g: Graph, marks: set<Id>, u: Id, v: Id, w: Id)
    requires u in g && v in Reachable(g, marks, u) && DependsOn(g, v, w) && w in marks
    ensures w in ReachableFrom(g, marks, u, 0)
  {
    var p: Path :| Follow(g, u, p) == Some(v);
    var q: Path :| q != [] && Follow(g, v, q) == Some(w);
    FollowAppend(g, u, p, q);
    assert From(p + q, 0);
  }

  /** Visiting one dependency and then the rest. */
  lemma ExtendsTwice(g: Graph, marks: set<Id>, a: seq<Id>, b: seq<Id>, c: seq<Id>, u: Id, i: nat)
    requires u in g && i < |g[u].dependsOn| && g[u].dependsOn[i] in g
    requires Extends(g, a, b, Reachable(g, marks, g[u].dependsOn[i]))
    requires Extends(g, b, c, ReachableFrom(g, marks, u, i + 1))
    requires forall v | v in b :: v in marks
    ensures Extends(g, a, c, ReachableFrom(g, marks, u, i))
  {
    ReachableAtDependency(g, marks, u, i);
    forall x, y | |a| <= x <= y < |c|
      ensures !DependsOn(g, c[y], c[x])
    {
      if x < |b| <= y && DependsOn(g, c[y], c[x]) {
        assert c[x] == b[x];
        ReachableFromIsClosed(g, marks, u, i + 1, c[y], c[x]);
        assert false;
      } else if y < |b| {
        assert c[x] == b[x] && c[y] == b[y];
      }
    }
  }

  /** Listing a review and then visiting what it depends on. */
  lemma ExtendsFromNode(g: Graph, marks: set<Id>, ids: seq<Id>, ids': seq<Id>, u: Id)
    requires u in g && u in marks
    requires Extends(g, ids + [u], ids', ReachableFrom(g, marks, u, 0))
    ensures Extends(g, ids, ids', Reachable(g, marks, u))
  {
    ReachableAtNode(g, marks, u);
    assert u in ids + [u];
    assert ids'[|ids|] == u;
    forall x, y | |ids| <= x <= y < |ids'|
      ensures !DependsOn(g, ids'[y], ids'[x])
    {
      if x == |ids| && DependsOn(g, ids'[y], u) {
        ReachableIsClosed(g, marks, u, ids'[y], u);
        assert false;
      }
    }
  }
}
