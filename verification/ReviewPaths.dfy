/** The order in which a recursive walk over the dependencies visits the ends of paths. */
module ReviewPaths {
  import opened Wrappers
  import opened ReviewGraph

  /** A walk visits the end of path `s` before that of path `r`: a review before its dependencies, those in order. */
  predicate Before(s: Path, r: Path)
    decreases s
  {
    r != [] && (s == [] || s[0] < r[0] || (s[0] == r[0] && Before(s[1..], r[1..])))
  }

  predicate NotAfter(s: Path, r: Path) {
    s == r || Before(s, r)
  }

  lemma {:induction false} EitherWay(s: Path, r: Path)
    ensures s == r || Before(s, r) || Before(r, s)
    decreases s
  {
    if s != [] && r != [] && s[0] == r[0] {
      EitherWay(s[1..], r[1..]);
      assert s == [s[0]] + s[1..] && r == [r[0]] + r[1..];
    }
  }

  lemma {:induction false} BeforeBefore(s: Path, r: Path, t: Path)
    requires Before(s, r) && Before(r, t)
    ensures Before(s, t)
    decreases s
  {
    if s != [] && s[0] == r[0] == t[0] {
      BeforeBefore(s[1..], r[1..], t[1..]);
    }
  }

  lemma {:induction false} AfterCommonPart(a: Path, s: Path, r: Path)
    ensures Before(a + s, a + r) <==> Before(s, r)
    decreases a
  {
    if a == [] {
      assert a + s == s && a + r == r;
    } else {
      assert (a + s)[1..] == a[1..] + s && (a + r)[1..] == a[1..] + r;
      AfterCommonPart(a[1..], s, r);
    }
  }

  lemma BeforeLonger(a: Path, b: Path)
    requires b != []
    ensures Before(a, a + b)
  {
    AfterCommonPart(a, [], b);
    assert a + [] == a;
  }

  lemma NotAfterLonger(r: Path, a: Path, b: Path)
    requires NotAfter(r, a)
    ensures NotAfter(r, a + b)
  {
    if b == [] {
      assert a + b == a;
    } else {
      BeforeLonger(a, b);
      if r != a {
        BeforeBefore(r, a, a + b);
      }
    }
  }

  /** Paths that part at a point are visited in the order of the steps taken there. */
  lemma PartingWays(a: Path, i: nat, s: Path, j: nat, r: Path)
    requires i < j
    ensures Before(a + ([i] + s), a + ([j] + r))
  {
    AfterCommonPart(a, [i] + s, [j] + r);
  }

  /** What is not after a longer path is not after its first part, or goes on from there. */
  lemma {:induction false} NotAfterSum(r: Path, a: Path, b: Path)
    requires NotAfter(r, a + b)
    ensures NotAfter(r, a) || (a <= r && r != a && NotAfter(r[|a|..], b))
    decreases a
  {
    if a == [] {
      assert a + b == b && r[0..] == r;
    } else if r != [] && r[0] == a[0] {
      assert (a + b)[1..] == a[1..] + b;
      NotAfterSum(r[1..], a[1..], b);
      assert r == [r[0]] + r[1..] && a == [a[0]] + a[1..];
      if a[1..] <= r[1..] {
        assert r[1..][|a| - 1..] == r[|a|..];
      }
    }
  }

  lemma {:induction false} FirstDifference(x: Path, y: Path) returns (t: nat)
    requires |x| == |y| && x != y
    ensures t < |x| && x[..t] == y[..t] && x[t] != y[t]
    decreases x
  {
    if x[0] != y[0] {
      t := 0;
    } else {
      assert x == [x[0]] + x[1..] && y == [y[0]] + y[1..];
      var t' := FirstDifference(x[1..], y[1..]);
      t := t' + 1;
      assert x[..t] == [x[0]] + x[1..][..t'] && y[..t] == [y[0]] + y[1..][..t'];
    }
  }

  // ---------------------------------------------------------------- where a path leads

  /** The id a path leads to, whether it can be fetched or not. */
  function Named(g: Graph, u: Id, r: Path): Option<Id>
    decreases r
  {
    if r == [] then Some(u)
    else if u !in g || r[0] >= |g[u].dependsOn| then None
    else Named(g, g[u].dependsOn[r[0]], r[1..])
  }

  lemma {:induction false} NamedAppend(g: Graph, u: Id, a: Path, r: Path)
    requires u in g && Follow(g, u, a).Some? && r != []
    ensures Named(g, u, a + r) == Named(g, Follow(g, u, a).value, r)
    decreases a
  {
    if a == [] {
      assert a + r == r;
    } else {
      assert (a + r)[0] == a[0] && (a + r)[1..] == a[1..] + r;
      NamedAppend(g, g[u].dependsOn[a[0]], a[1..], r);
    }
  }

  lemma {:induction false} NamedIsFollowed(g: Graph, u: Id, r: Path, d: Id)
    requires u in g && d in g && r != [] && Named(g, u, r) == Some(d)
    ensures Follow(g, u, r) == Some(d)
    decreases r
  {
    if |r| > 1 {
      NamedIsFollowed(g, g[u].dependsOn[r[0]], r[1..], d);
    }
  }

  lemma {:induction false} FollowedIsNamed(g: Graph, u: Id, r: Path, d: Id)
    requires u in g && r != [] && Follow(g, u, r) == Some(d)
    ensures Named(g, u, r) == Some(d)
    decreases r
  {
    if |r| > 1 {
      FollowedIsNamed(g, g[u].dependsOn[r[0]], r[1..], d);
    }
  }
}
