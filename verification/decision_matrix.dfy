/** The weighted decision matrix of user_decision_matrix.py: each breed's twelve trait
    ratings are scored against twelve user weights, the scored breeds are kept in a list
    that is re-sorted (stable, descending) after every append, and the first entries of
    that list are the recommendation. */
module DecisionMatrix {

  /** A breed with its twelve trait ratings (`DogBreed`). */
  datatype DogBreed = DogBreed(
    breedName: string,
    affectionateWithFamily: int,
    goodWithYoungChildren: int,
    goodWithOtherDogs: int,
    sheddingLevel: int,
    opennessToStrangers: int,
    playfulness: int,
    protectiveNature: int,
    adaptability: int,
    trainability: int,
    energy: int,
    barking: int,
    stimulationNeeds: int)

  /** One weight per trait, in the order of the trait fields. */
  datatype Weights = Weights(
    affectionateWithFamily: int,
    goodWithYoungChildren: int,
    goodWithOtherDogs: int,
    sheddingLevel: int,
    opennessToStrangers: int,
    playfulness: int,
    protectiveNature: int,
    adaptability: int,
    trainability: int,
    energy: int,
    barking: int,
    stimulationNeeds: int)

  /** (breed name, score) pairs. */
  type Ranking = seq<(string, int)>

  /** The twelve-term weighted sum of the source. */
  function Score(w: Weights, b: DogBreed): int {
    w.affectionateWithFamily * b.affectionateWithFamily +
    w.goodWithYoungChildren * b.goodWithYoungChildren +
    w.goodWithOtherDogs * b.goodWithOtherDogs +
    w.sheddingLevel * b.sheddingLevel +
    w.opennessToStrangers * b.opennessToStrangers +
    w.playfulness * b.playfulness +
    w.protectiveNature * b.protectiveNature +
    w.adaptability * b.adaptability +
    w.trainability * b.trainability +
    w.energy * b.energy +
    w.barking * b.barking +
    w.stimulationNeeds * b.stimulationNeeds
  }

  function Traits(b: DogBreed): (r: seq<int>)
    ensures |r| == 12
  {
    [b.affectionateWithFamily, b.goodWithYoungChildren, b.goodWithOtherDogs, b.sheddingLevel,
     b.opennessToStrangers, b.playfulness, b.protectiveNature, b.adaptability,
     b.trainability, b.energy, b.barking, b.stimulationNeeds]
  }

  function WeightVector(w: Weights): (r: seq<int>)
    ensures |r| == 12
  {
    [w.affectionateWithFamily, w.goodWithYoungChildren, w.goodWithOtherDogs, w.sheddingLevel,
     w.opennessToStrangers, w.playfulness, w.protectiveNature, w.adaptability,
     w.trainability, w.energy, w.barking, w.stimulationNeeds]
  }

  /** The dot product of two vectors of equal length. */
  function Dot(u: seq<int>, v: seq<int>): int
    requires |u| == |v|
  {
    if |u| == 0 then 0 else u[0] * v[0] + Dot(u[1..], v[1..])
  }

  lemma DotStep(u: seq<int>, v: seq<int>, i: int)
    requires |u| == |v| && 0 <= i < |u|
    ensures Dot(u[i..], v[i..]) == u[i] * v[i] + Dot(u[i + 1..], v[i + 1..])
  {
    assert u[i..][1..] == u[i + 1..];
    assert v[i..][1..] == v[i + 1..];
  }

  /** The source's spelled-out sum is the dot product of the weight and trait vectors. */
  lemma ScoreIsDotProduct(w: Weights, b: DogBreed)
    ensures Score(w, b) == Dot(WeightVector(w), Traits(b))
  {
    var u, v := WeightVector(w), Traits(b);
    var i := 12;
    assert Dot(u[12..], v[12..]) == 0;
    while i > 0
      invariant 0 <= i <= 12
      invariant Dot(u[i..], v[i..]) == PartialScore(w, b, i)
      decreases i
    {
      i := i - 1;
      DotStep(u, v, i);
    }
    assert u[0..] == u && v[0..] == v;
  }

  /** The source's sum restricted to the traits from index `i` on. */
  function PartialScore(w: Weights, b: DogBreed, i: nat): int
    requires i <= 12
    decreases 12 - i
  {
    if i == 12 then 0 else WeightVector(w)[i] * Traits(b)[i] + PartialScore(w, b, i + 1)
  }

  /** Every breed paired with its score, in input order. */
  function ScoreAll(breeds: seq<DogBreed>, w: Weights): (r: Ranking)
    ensures |r| == |breeds|
    ensures forall i :: 0 <= i < |breeds| ==> r[i] == (breeds[i].breedName, Score(w, breeds[i]))
  {
    seq(|breeds|, i requires 0 <= i < |breeds| => (breeds[i].breedName, Score(w, breeds[i])))
  }

  predicate NonIncreasing(s: Ranking) {
    forall i, j :: 0 <= i < j < |s| ==> s[j].1 <= s[i].1
  }

  /** The entries of `s` with score `v`, in order.  A sort is stable exactly when it keeps
      each of these subsequences. */
  function WithScore(s: Ranking, v: int): seq<(string, int)> {
    if |s| == 0 then [] else Keep(s[0], v) + WithScore(s[1..], v)
  }

  /** The one-entry list `[e]` when `e` has score `v`, otherwise nothing. */
  function Keep(e: (string, int), v: int): seq<(string, int)> {
    if e.1 == v then [e] else []
  }

  lemma {:induction false} WithScoreConcat(a: Ranking, b: Ranking, v: int)
    ensures WithScore(a + b, v) == WithScore(a, v) + WithScore(b, v)
    decreases |a|
  {
    if |a| == 0 {
      assert a + b == b;
    } else {
      var ab := a + b;
      assert ab[0] == a[0] && ab[1..] == a[1..] + b;
      WithScoreConcat(a[1..], b, v);
      var k, wa, wb := Keep(a[0], v), WithScore(a[1..], v), WithScore(b, v);
      assert WithScore(ab, v) == k + (wa + wb);
      assert k + (wa + wb) == (k + wa) + wb;
    }
  }

  lemma {:induction false} WithScoreNone(s: Ranking, v: int)
    requires forall i :: 0 <= i < |s| ==> s[i].1 != v
    ensures WithScore(s, v) == []
    decreases |s|
  {
    if |s| > 0 {
      WithScoreNone(s[1..], v);
    }
  }

  lemma {:induction false} WithScoreAll(s: Ranking, v: int)
    requires forall i :: 0 <= i < |s| ==> s[i].1 == v
    ensures WithScore(s, v) == s
    decreases |s|
  {
    if |s| > 0 {
      WithScoreAll(s[1..], v);
    }
  }

  /** One step of the source loop: a sorted list with `x` appended, re-sorted stably in
      descending order, i.e. `x` placed before the first entry scoring strictly less. */
  function InsertDesc(s: Ranking, x: (string, int)): (r: Ranking)
    ensures multiset(r) == multiset(s) + multiset{x}
    ensures |r| == |s| + 1
    decreases |s|
  {
    if |s| == 0 then [x]
    else if s[0].1 >= x.1 then
      assert s == [s[0]] + s[1..];
      [s[0]] + InsertDesc(s[1..], x)
    else [x] + s
  }

  /** Inserting into a sorted list keeps it sorted. */
  lemma {:induction false} InsertDescSorted(s: Ranking, x: (string, int))
    requires NonIncreasing(s)
    ensures NonIncreasing(InsertDesc(s, x))
    decreases |s|
  {
    if |s| > 0 && s[0].1 >= x.1 {
      var t := InsertDesc(s[1..], x);
      InsertDescSorted(s[1..], x);
      forall j | 0 <= j < |t|
        ensures t[j].1 <= s[0].1
      {
        assert t[j] in multiset(t);
        if t[j] != x {
          assert t[j] in multiset(s[1..]);
          var m :| 0 <= m < |s[1..]| && s[1..][m] == t[j];
          assert s[m + 1] == t[j];
        }
      }
    }
  }

  lemma WithScoreSingle(e: (string, int), v: int)
    ensures WithScore([e], v) == Keep(e, v)
  {
    assert [e][1..] == [];
  }

  /** Inserting into a sorted list is stable: among the entries with any one score, the
      old entries keep their order and `x` comes last. */
  lemma {:induction false} InsertDescStable(s: Ranking, x: (string, int), v: int)
    requires NonIncreasing(s)
    ensures WithScore(InsertDesc(s, x), v) == WithScore(s, v) + Keep(x, v)
    decreases |s|, 1
  {
    if |s| == 0 {
      WithScoreSingle(x, v);
    } else if s[0].1 >= x.1 {
      InsertDescStableFront(s, x, v);
    } else {
      assert InsertDesc(s, x) == [x] + s;
      WithScoreConcat([x], s, v);
      WithScoreSingle(x, v);
      if x.1 == v {
        WithScoreNone(s, v);
      }
    }
  }

  /** InsertDescStable when `x` goes after the first entry. */
  lemma {:induction false} InsertDescStableFront(s: Ranking, x: (string, int), v: int)
    requires NonIncreasing(s) && |s| > 0 && s[0].1 >= x.1
    ensures WithScore(InsertDesc(s, x), v) == WithScore(s, v) + Keep(x, v)
    decreases |s|, 0
  {
    var ins, tail := InsertDesc(s, x), InsertDesc(s[1..], x);
    assert ins[0] == s[0] && ins[1..] == tail;
    NonIncreasingTail(s);
    InsertDescStable(s[1..], x, v);
    var k, w1, extra := Keep(s[0], v), WithScore(s[1..], v), Keep(x, v);
    assert WithScore(ins, v) == k + (w1 + extra);
    assert WithScore(s, v) == k + w1;
    assert k + (w1 + extra) == (k + w1) + extra;
  }

  lemma NonIncreasingTail(s: Ranking)
    requires NonIncreasing(s) && |s| > 0
    ensures NonIncreasing(s[1..])
  {
    forall i, j | 0 <= i < j < |s| - 1
      ensures s[1..][j].1 <= s[1..][i].1
    {
      assert s[1..][i] == s[i + 1] && s[1..][j] == s[j + 1];
    }
  }

  /** The list the source holds after its loop: every scored breed inserted in input
      order.  It holds exactly the input entries. */
  function SortDesc(xs: Ranking): (r: Ranking)
    ensures multiset(r) == multiset(xs)
    ensures |r| == |xs|
    decreases |xs|
  {
    if |xs| == 0 then []
    else
      assert xs == xs[..|xs| - 1] + [xs[|xs| - 1]];
      InsertDesc(SortDesc(xs[..|xs| - 1]), xs[|xs| - 1])
  }

  /** The sorted list is non-increasing and stable: for every score value, the entries
      with that score appear in input order. */
  lemma {:induction false} SortDescSortedStable(xs: Ranking)
    ensures NonIncreasing(SortDesc(xs))
    ensures forall v :: WithScore(SortDesc(xs), v) == WithScore(xs, v)
  {
    SortDescSorted(xs);
    forall v
      ensures WithScore(SortDesc(xs), v) == WithScore(xs, v)
    {
      SortDescStable(xs, v);
    }
  }

  lemma {:induction false} SortDescSorted(xs: Ranking)
    ensures NonIncreasing(SortDesc(xs))
    decreases |xs|
  {
    if |xs| > 0 {
      var init := xs[..|xs| - 1];
      SortDescSorted(init);
      InsertDescSorted(SortDesc(init), xs[|xs| - 1]);
    }
  }

  lemma {:induction false} SortDescStable(xs: Ranking, v: int)
    ensures WithScore(SortDesc(xs), v) == WithScore(xs, v)
    decreases |xs|
  {
    if |xs| > 0 {
      var init, last := xs[..|xs| - 1], xs[|xs| - 1];
      assert xs == init + [last];
      SortDescSorted(init);
      SortDescStable(init, v);
      InsertDescStable(SortDesc(init), last, v);
      WithScoreConcat(init, [last], v);
      assert [last][1..] == [];
    }
  }

  /** Whether index `k` lies before the stop position `stop`. */
  predicate Below(k: int, stop: int) { k < stop }

  /** The stop position of `s[:limit]` for a list of length `n`: a negative `limit` counts
      from the end. */
  function SliceStop(n: nat, limit: int): int { if limit < 0 then n + limit else limit }

  /** The length of Python's `s[:limit]` for a list of length `n`.  The slice keeps exactly
      the items whose index lies below `limit`, a negative `limit` counting from the end. */
  function SliceLength(n: nat, limit: int): (r: nat)
    ensures r <= n
    ensures forall k :: 0 <= k < n ==> (Below(k, r) <==> Below(k, SliceStop(n, limit)))
  {
    if limit >= 0 then (if limit < n then limit else n)
    else if n + limit > 0 then n + limit else 0
  }

  /** Entries cut off after position `count` of a sorted list score no more than the last
      entry kept. */
  lemma CutEntriesNoHigher(sorted: Ranking, count: nat)
    requires NonIncreasing(sorted) && 0 < count <= |sorted|
    ensures forall e :: e in multiset(sorted) - multiset(sorted[..count]) ==> e.1 <= sorted[count - 1].1
  {
    var kept, rest := sorted[..count], sorted[count..];
    assert sorted == kept + rest;
    assert multiset(sorted) == multiset(kept) + multiset(rest);
    forall e | e in multiset(sorted) - multiset(kept)
      ensures e.1 <= sorted[count - 1].1
    {
      assert e in multiset(rest);
      var j :| 0 <= j < |rest| && rest[j] == e;
      assert sorted[count + j] == e;
    }
  }

  /** The first `count` entries of a stable sort keep, for each score, a prefix of the
      input entries with that score. */
  lemma PrefixKeepsTies(scored: Ranking, sorted: Ranking, count: nat)
    requires count <= |sorted|
    requires forall v :: WithScore(sorted, v) == WithScore(scored, v)
    ensures forall v :: WithScore(sorted[..count], v) <= WithScore(scored, v)
  {
    forall v
      ensures WithScore(sorted[..count], v) <= WithScore(scored, v)
    {
      assert sorted == sorted[..count] + sorted[count..];
      WithScoreConcat(sorted[..count], sorted[count..], v);
    }
  }

  /** A prefix of a non-increasing list is non-increasing and holds entries of the list. */
  lemma PrefixOfSorted(sorted: Ranking, count: nat)
    requires NonIncreasing(sorted) && count <= |sorted|
    ensures NonIncreasing(sorted[..count])
    ensures multiset(sorted[..count]) <= multiset(sorted)
  {
    assert sorted == sorted[..count] + sorted[count..];
    assert multiset(sorted) == multiset(sorted[..count]) + multiset(sorted[count..]);
  }

  /** What the first `count` entries of the stably sorted scores satisfy. */
  lemma TopOfSorted(scored: Ranking, count: nat)
    requires count <= |scored|
    ensures NonIncreasing(SortDesc(scored)[..count])
    ensures multiset(SortDesc(scored)[..count]) <= multiset(scored)
    ensures count > 0 ==> forall e :: e in multiset(scored) - multiset(SortDesc(scored)[..count]) ==>
                            e.1 <= SortDesc(scored)[..count][count - 1].1
    ensures forall v :: WithScore(SortDesc(scored)[..count], v) <= WithScore(scored, v)
  {
    var sorted := SortDesc(scored);
    SortDescSortedStable(scored);
    PrefixOfSorted(sorted, count);
    if count > 0 {
      CutEntriesNoHigher(sorted, count);
      assert sorted[..count][count - 1] == sorted[count - 1];
    }
    PrefixKeepsTies(scored, sorted, count);
  }

  /** The first `count` entries of the stably sorted scores: the entries are scored input
      pairs, in non-increasing order, tied entries in input order, and nothing left out
      scores above the last entry kept. */
  function TopScores(scored: Ranking, count: nat): (r: Ranking)
    requires count <= |scored|
    ensures |r| == count
    ensures NonIncreasing(r)
    ensures multiset(r) <= multiset(scored)
    ensures |r| > 0 ==> forall e :: e in multiset(scored) - multiset(r) ==> e.1 <= r[|r| - 1].1
    ensures forall v :: WithScore(r, v) <= WithScore(scored, v)
  {
    var r := SortDesc(scored)[..count];
    TopOfSorted(scored, count);
    assert |r| == count;
    r
  }

  /** `decision_matrix`: the five best breeds (fewer when there are fewer breeds). */
  function DecisionMatrix(breeds: seq<DogBreed>, w: Weights): (r: Ranking)
    ensures |r| == (if |breeds| < 5 then |breeds| else 5)
    ensures NonIncreasing(r)
    ensures multiset(r) <= multiset(ScoreAll(breeds, w))
    ensures forall e :: e in r ==> exists i :: 0 <= i < |breeds| && e == (breeds[i].breedName, Score(w, breeds[i]))
    ensures |r| > 0 ==> forall e :: e in multiset(ScoreAll(breeds, w)) - multiset(r) ==> e.1 <= r[|r| - 1].1
    ensures forall v :: WithScore(r, v) <= WithScore(ScoreAll(breeds, w), v)
  {
    var scored := ScoreAll(breeds, w);
    var r := TopScores(scored, SliceLength(|scored|, 5));
    assert forall e :: e in r ==> e in multiset(scored);
    r
  }

  /** With every weight zero every breed scores 0, so the decision matrix returns the first
      five breeds in input order. */
  lemma ZeroWeightsKeepInputOrder(breeds: seq<DogBreed>)
    ensures var zero := Weights(0, 0, 0, 0, 0, 0, 0, 0, 0, 0, 0, 0);
            && (forall i :: 0 <= i < |breeds| ==> Score(zero, breeds[i]) == 0)
            && DecisionMatrix(breeds, zero) == ScoreAll(breeds, zero)[..SliceLength(|breeds|, 5)]
  {
    var zero := Weights(0, 0, 0, 0, 0, 0, 0, 0, 0, 0, 0, 0);
    var scored := ScoreAll(breeds, zero);
    var sorted := SortDesc(scored);
    SortDescSortedStable(scored);
    assert forall i :: 0 <= i < |sorted| ==> sorted[i].1 == 0 by {
      forall i | 0 <= i < |sorted| ensures sorted[i].1 == 0 {
        assert sorted[i] in multiset(scored);
      }
    }
    WithScoreAll(scored, 0);
    WithScoreAll(sorted, 0);
    assert sorted == scored;
  }
}
