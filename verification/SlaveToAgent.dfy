/** Renaming "slave" to "agent" in a string, occurrence by occurrence, in place. */
module SlaveToAgent {
  import opened Wrappers

  predicate OccursAt(s: string, word: string, k: nat) {
    k + |word| <= |s| && forall j | 0 <= j < |word| :: s[k + j] == word[j]
  }

  /** Position `i` lies in the occurrence at `k`. */
  predicate Covers(s: string, word: string, k: nat, i: nat) {
    OccursAt(s, word, k) && k <= i < k + |word|
  }

  /** Laid over `a` from its position `d` on, `b` disagrees with it somewhere. */
  predicate Differs(a: string, b: string, d: nat)
    requires |a| == |b|
  {
    exists j | 0 <= j < |a| - d :: a[d + j] != b[j]
  }

  /** Neither the word nor its replacement can overlap another occurrence of the word. */
  predicate Compatible(word: string, replacement: string) {
    && 0 < |word| == |replacement|
    && (forall d | 0 < d < |word| :: Differs(word, word, d))
    && (forall d | 0 <= d < |word| :: Differs(replacement, word, d))
    && (forall d | 0 <= d < |word| :: Differs(word, replacement, d))
  }

  /** `t` is `s` with exactly its occurrences of the word replaced, and no other character changed. */
  ghost predicate Replaced(s: string, word: string, replacement: string, t: string) {
    && |t| == |s| && |word| == |replacement|
    && (forall k: nat, i: nat | Covers(s, word, k, i) :: t[i] == replacement[i - k])
    && (forall i: nat | i < |s| && !(exists k: nat :: Covers(s, word, k, i)) :: t[i] == s[i])
  }

  /** `std::string::find`: the first occurrence at or after `from`. */
  method Find(s: string, word: string, from: nat) returns (r: Option<nat>)
    ensures r.None? ==> forall k: nat | from <= k :: !OccursAt(s, word, k)
    ensures r.Some? ==> from <= r.value && OccursAt(s, word, r.value)
    ensures r.Some? ==> forall k: nat | from <= k < r.value :: !OccursAt(s, word, k)
  {
    var k := from;
    while k + |word| <= |s|
      invariant from <= k
      invariant forall j: nat | from <= j < k :: !OccursAt(s, word, j)
      decreases |s| - k
    {
      if OccursAt(s, word, k) {
        return Some(k);
      }
      k := k + 1;
    }
    return None;
  }

  /** Two words that occur over each other agree there. */
  lemma OverlapAgrees(s: string, a: string, b: string, k: nat, m: nat)
    requires |a| == |b| && OccursAt(s, a, k) && OccursAt(s, b, m) && k <= m < k + |a|
    ensures !Differs(a, b, m - k)
  {
    forall j | 0 <= j < |a| - (m - k)
      ensures a[m - k + j] == b[j]
    {
      assert s[k + (m - k + j)] == s[m + j];
    }
  }

  /** Everything before `index` has been replaced, nothing after it, and no occurrence lies across it. */
  ghost predicate ReplacedUpTo(s: string, word: string, replacement: string, t: string, index: nat) {
    && |t| == |s| && index <= |s| && |word| == |replacement|
    && (forall i | index <= i < |s| :: t[i] == s[i])
    && (forall k: nat | OccursAt(s, word, k) :: k + |word| <= index || index <= k)
    && (forall k: nat, i: nat | Covers(s, word, k, i) && i < index :: t[i] == replacement[i - k])
    && (forall i: nat | i < index && !(exists k: nat :: Covers(s, word, k, i)) :: t[i] == s[i])
  }

  lemma ReplaceNext(s: string, word: string, replacement: string, t: string, index: nat, k: nat)
    requires Compatible(word, replacement) && ReplacedUpTo(s, word, replacement, t, index)
    requires index <= k && OccursAt(s, word, k) && forall m: nat | index <= m < k :: !OccursAt(s, word, m)
    ensures ReplacedUpTo(s, word, replacement, t[..k] + replacement + t[k + |word|..], k + |word|)
  {
    var n := |word|;
    var t' := t[..k] + replacement + t[k + n..];
    forall m: nat | OccursAt(s, word, m)
      ensures m == k || m + n <= index || k + n <= m
    {
      if k < m < k + n {
        OverlapAgrees(s, word, word, k, m);
        assert false;
      }
    }
    forall m: nat, i: nat | Covers(s, word, m, i) && i < k + n
      ensures t'[i] == replacement[i - m]
    {
      if m != k {
        assert i < index && t'[i] == t[i];
      }
    }
    forall i: nat | i < k + n && !(exists m: nat :: Covers(s, word, m, i))
      ensures t'[i] == s[i]
    {
      assert i >= k ==> Covers(s, word, k, i);
      assert t'[i] == t[i];
    }
  }

  method ReplaceAll(s: string, word: string, replacement: string) returns (t: string)
    requires Compatible(word, replacement)
    ensures Replaced(s, word, replacement, t)
  {
    t := s;
    var index := 0;
    while true
      invariant ReplacedUpTo(s, word, replacement, t, index)
      decreases |s| - index
    {
      var found := Find(t, word, index);
      assert forall k: nat | index <= k :: OccursAt(t, word, k) <==> OccursAt(s, word, k);
      if found.None? {
        break;
      }
      ReplaceNext(s, word, replacement, t, index, found.value);
      index := found.value;
      t := t[..index] + replacement + t[index + |word|..];
      index := index + |word|;
    }
  }

  // ---------------------------------------------------------------- no occurrence is left

  lemma ReplacementOccurs(s: string, word: string, replacement: string, t: string, m: nat)
    requires Replaced(s, word, replacement, t) && OccursAt(s, word, m)
    ensures OccursAt(t, replacement, m)
  {
    forall j | 0 <= j < |word|
      ensures t[m + j] == replacement[j]
    {
      assert Covers(s, word, m, m + j);
    }
  }

  /** An occurrence in the result cannot touch a replaced one. */
  lemma NoOccurrenceAcross(s: string, word: string, replacement: string, t: string, k: nat, m: nat)
    requires Compatible(word, replacement) && Replaced(s, word, replacement, t)
    requires OccursAt(t, word, k) && OccursAt(s, word, m)
    ensures k + |word| <= m || m + |word| <= k
  {
    ReplacementOccurs(s, word, replacement, t, m);
    if m <= k < m + |word| {
      OverlapAgrees(t, replacement, word, m, k);
      assert false;
    } else if k < m < k + |word| {
      OverlapAgrees(t, word, replacement, k, m);
      assert false;
    }
  }

  lemma OccurrenceIsUntouched(s: string, word: string, replacement: string, t: string, k: nat, i: nat)
    requires Compatible(word, replacement) && Replaced(s, word, replacement, t) && Covers(t, word, k, i)
    ensures t[i] == s[i]
  {
    if m: nat :| Covers(s, word, m, i) {
      NoOccurrenceAcross(s, word, replacement, t, k, m);
      assert false;
    }
  }

  lemma NoOccurrenceLeft(s: string, word: string, replacement: string, t: string, k: nat)
    requires Compatible(word, replacement) && Replaced(s, word, replacement, t)
    ensures !OccursAt(t, word, k)
  {
    if OccursAt(t, word, k) {
      forall j | 0 <= j < |word|
        ensures s[k + j] == word[j]
      {
        OccurrenceIsUntouched(s, word, replacement, t, k, k + j);
      }
      NoOccurrenceAcross(s, word, replacement, t, k, k);
      assert false;
    }
  }

  /** Replacing again changes nothing. */
  lemma ReplacingIsIdempotent(s: string, word: string, replacement: string, t: string, t': string)
    requires Compatible(word, replacement)
    requires Replaced(s, word, replacement, t) && Replaced(t, word, replacement, t')
    ensures t' == t
  {
    forall k: nat, i: nat
      ensures !Covers(t, word, k, i)
    {
      NoOccurrenceLeft(s, word, replacement, t, k);
    }
  }

  /** There is only one such result. */
  lemma ReplacedIsUnique(s: string, word: string, replacement: string, t: string, t': string)
    requires Replaced(s, word, replacement, t) && Replaced(s, word, replacement, t')
    ensures t == t'
  {
    forall i: nat | i < |s|
      ensures t[i] == t'[i]
    {
      if k: nat :| Covers(s, word, k, i) {
        assert t[i] == replacement[i - k] == t'[i];
      }
    }
  }

  // ---------------------------------------------------------------- the two renamings

  const LOWER_SLAVE := "slave"
  const LOWER_AGENT := "agent"
  const UPPER_SLAVE := "SLAVE"
  const UPPER_AGENT := "AGENT"

  lemma LowerIsCompatible()
    ensures Compatible(LOWER_SLAVE, LOWER_AGENT)
  {
    forall d | 0 <= d < 5
      ensures d > 0 ==> Differs(LOWER_SLAVE, LOWER_SLAVE, d)
      ensures Differs(LOWER_AGENT, LOWER_SLAVE, d) && Differs(LOWER_SLAVE, LOWER_AGENT, d)
    {
      assert d > 0 ==> LOWER_SLAVE[d + 0] != LOWER_SLAVE[0];
      assert LOWER_AGENT[d + 0] != LOWER_SLAVE[0];
      assert if d == 2 then LOWER_SLAVE[d + 1] != LOWER_AGENT[1] else LOWER_SLAVE[d + 0] != LOWER_AGENT[0];
    }
  }

  lemma UpperIsCompatible()
    ensures Compatible(UPPER_SLAVE, UPPER_AGENT)
  {
    forall d | 0 <= d < 5
      ensures d > 0 ==> Differs(UPPER_SLAVE, UPPER_SLAVE, d)
      ensures Differs(UPPER_AGENT, UPPER_SLAVE, d) && Differs(UPPER_SLAVE, UPPER_AGENT, d)
    {
      assert d > 0 ==> UPPER_SLAVE[d + 0] != UPPER_SLAVE[0];
      assert UPPER_AGENT[d + 0] != UPPER_SLAVE[0];
      assert if d == 2 then UPPER_SLAVE[d + 1] != UPPER_AGENT[1] else UPPER_SLAVE[d + 0] != UPPER_AGENT[0];
    }
  }

  method LowerSlaveToAgent(s: string) returns (t: string)
    ensures Replaced(s, LOWER_SLAVE, LOWER_AGENT, t)
    ensures forall k: nat :: !OccursAt(t, LOWER_SLAVE, k)
  {
    LowerIsCompatible();
    t := ReplaceAll(s, LOWER_SLAVE, LOWER_AGENT);
    forall k: nat
      ensures !OccursAt(t, LOWER_SLAVE, k)
    {
      NoOccurrenceLeft(s, LOWER_SLAVE, LOWER_AGENT, t, k);
    }
  }

  method UpperSlaveToAgent(s: string) returns (t: string)
    ensures Replaced(s, UPPER_SLAVE, UPPER_AGENT, t)
    ensures forall k: nat :: !OccursAt(t, UPPER_SLAVE, k)
  {
    UpperIsCompatible();
    t := ReplaceAll(s, UPPER_SLAVE, UPPER_AGENT);
    forall k: nat
      ensures !OccursAt(t, UPPER_SLAVE, k)
    {
      NoOccurrenceLeft(s, UPPER_SLAVE, UPPER_AGENT, t, k);
    }
  }
}
