/** The demographic ranker of user_demographics.py: every breed of the owner/breed graph is
    scored by the smoothed mean similarity of its owners to the input profile, and the
    best `limit` breeds are extracted by repeated maximum search. */
module Demographics {
  import opened Errors
  import opened Sums
  import opened Graphs
  import opened UserData

  /** A vertex of the dog graph: an owner profile or a breed name.  The source tells them
      apart with `isinstance(node, User)`. */
  datatype Item = Owner(user: User) | Breed(name: string)

  /** Breed names with their scores, in dictionary order. */
  type ScoreTable = seq<(string, real)>

  /** The graph links every breed only to owners, as the loader builds it and as the
      source's `set[User]` annotation on a breed's neighbours declares. */
  ghost predicate BreedsLinkOwners(g: Graph<Item>) {
    forall b, x :: Breed(b) in g.adj && x in g.adj[Breed(b)] ==> x.Owner?
  }

  /** `order` lists every breed of `g` exactly once: the iteration order of the breed set. */
  ghost predicate EnumeratesBreeds(g: Graph<Item>, order: seq<string>) {
    && (forall i, j :: 0 <= i < j < |order| ==> order[i] != order[j])
    && (forall i :: 0 <= i < |order| ==> Breed(order[i]) in g.adj)
    && (forall x :: x in g.adj && x.Breed? ==> x.name in order)
  }

  // ---------------------------------------------------------------------------------------
  // Breed scores

  /** The similarity of an owner vertex to the input profile; 0 where `Compare` fails. */
  function Similarity(x: Item, input: User): (r: real)
    ensures 0.0 <= r <= 1.0
    ensures x.Owner? && Compare(x.user, input).Ok? ==> r == Compare(x.user, input).value
  {
    if x.Owner? then
      match Compare(x.user, input)
      case Ok(s) => s
      case Err(_) => 0.0
    else 0.0
  }

  function SimilarityTo(input: User): Item -> real {
    x => Similarity(x, input)
  }

  /** Every owner of the set can be compared with the input profile without an exception. */
  ghost predicate AllComparable(owners: set<Item>, input: User) {
    forall x :: x in owners ==> x.Owner? && Compare(x.user, input).Ok?
  }

  /** The smoothed mean: (sum of similarities + 7) / (number of owners + 10). */
  ghost function SmoothedScore(owners: set<Item>, input: User): real {
    (SetSum(owners, SimilarityTo(input)) + 7.0) / (|owners| as real + 10.0)
  }

  /** The smoothed mean of similarities in [0, 1] is itself in [0, 1]. */
  lemma SmoothedScoreInRange(owners: set<Item>, input: User)
    ensures 0.0 <= SmoothedScore(owners, input) <= 1.0
  {
    var f := SimilarityTo(input);
    assert forall x :: x in owners ==> 0.0 <= f(x) <= 1.0 by {
      forall x | x in owners ensures 0.0 <= f(x) <= 1.0 {
        assert f(x) == Similarity(x, input);
      }
    }
    SetSumUnitBounds(owners, f);
    var num := SetSum(owners, f) + 7.0;
    var den := |owners| as real + 10.0;
    assert 0.0 < num <= den;
    DivisionInUnit(num, den);
  }

  lemma DivisionInUnit(num: real, den: real)
    requires 0.0 <= num <= den && 0.0 < den
    ensures 0.0 <= num / den <= 1.0
  {
    assert num / den * den == num;
  }

  /** The score the ranker gives breed `b`. */
  ghost function BreedScore(g: Graph<Item>, input: User, b: string): real
    requires Breed(b) in g.adj
  {
    SmoothedScore(g.adj[Breed(b)], input)
  }

  /** The sum of the owners' similarities, summed in whatever order the set yields; the
      first `compare` that raises aborts the sum with its exception. */
  method SimilaritySum(owners: set<Item>, input: User) returns (r: Result<real>)
    requires forall x :: x in owners ==> x.Owner?
    ensures r.Ok? <==> AllComparable(owners, input)
    ensures r.Ok? ==> r.value == SetSum(owners, SimilarityTo(input))
    ensures r.Err? ==> exists x :: x in owners && x.Owner? && Compare(x.user, input) == Err(r.error)
  {
    var f := SimilarityTo(input);
    var total := 0.0;
    var rest := owners;
    while rest != {}
      invariant rest <= owners
      invariant forall x :: x in owners - rest ==> Compare(x.user, input).Ok?
      invariant total + SetSum(rest, f) == SetSum(owners, f)
      decreases |rest|
    {
      var x :| x in rest;
      var c := Compare(x.user, input);
      if c.Err? {
        return Err(c.error);
      }
      SetSumRemove(rest, f, x);
      assert f(x) == c.value;
      total := total + c.value;
      rest := rest - {x};
    }
    return Ok(total);
  }

  /** The score dictionary of the source, built in breed order: each breed paired with its
      smoothed score, or the first exception a `compare` raises. */
  method BreedScoreTable(g: Graph<Item>, input: User, order: seq<string>) returns (r: Result<ScoreTable>)
    requires BreedsLinkOwners(g)
    requires forall i :: 0 <= i < |order| ==> Breed(order[i]) in g.adj
    ensures r.Ok? <==> forall i :: 0 <= i < |order| ==> AllComparable(g.adj[Breed(order[i])], input)
    ensures r.Ok? ==> |r.value| == |order|
    ensures r.Ok? ==> forall i :: 0 <= i < |order| ==>
                        r.value[i] == (order[i], BreedScore(g, input, order[i]))
    ensures r.Err? ==> exists i, x :: 0 <= i < |order| && x in g.adj[Breed(order[i])] &&
                                      x.Owner? && Compare(x.user, input) == Err(r.error)
  {
    var table: ScoreTable := [];
    var i := 0;
    while i < |order|
      invariant 0 <= i <= |order|
      invariant |table| == i
      invariant forall j :: 0 <= j < i ==> AllComparable(g.adj[Breed(order[j])], input)
      invariant forall j :: 0 <= j < i ==> table[j] == (order[j], BreedScore(g, input, order[j]))
    {
      var owners := g.adj[Breed(order[i])];
      var sum := SimilaritySum(owners, input);
      if sum.Err? {
        return Err(sum.error);
      }
      table := table + [(order[i], (sum.value + 7.0) / (|owners| as real + 10.0))];
      i := i + 1;
    }
    return Ok(table);
  }

  // ---------------------------------------------------------------------------------------
  // Repeated-maximum extraction

  predicate DistinctNames(t: ScoreTable) {
    forall i, j :: 0 <= i < j < |t| ==> t[i].0 != t[j].0
  }

  predicate NonIncreasing(t: ScoreTable) {
    forall i, j :: 0 <= i < j < |t| ==> t[j].1 <= t[i].1
  }

  /** Every score beats the scan's starting value -1. */
  predicate AboveSentinel(t: ScoreTable) {
    forall i :: 0 <= i < |t| ==> t[i].1 > -1.0
  }

  function Names(t: ScoreTable): (r: seq<string>)
    ensures |r| == |t| && forall i :: 0 <= i < |t| ==> r[i] == t[i].0
  {
    seq(|t|, i requires 0 <= i < |t| => t[i].0)
  }

  /** Dictionary lookup position of `name`: the first index holding it, or -1. */
  function IndexOf(names: seq<string>, name: string): (r: int)
    ensures -1 <= r < |names|
    ensures r == -1 ==> forall j :: 0 <= j < |names| ==> names[j] != name
    ensures 0 <= r ==> names[r] == name && forall j :: 0 <= j < r ==> names[j] != name
  {
    if |names| == 0 then -1
    else if names[0] == name then 0
    else
      var k := IndexOf(names[1..], name);
      if k == -1 then -1 else k + 1
  }

  lemma IndexOfDistinct(names: seq<string>, i: int)
    requires forall a, b :: 0 <= a < b < |names| ==> names[a] != names[b]
    requires 0 <= i < |names|
    ensures IndexOf(names, names[i]) == i
  {
  }

  /** Entry `k` is the maximum, and no earlier entry reaches it. */
  predicate IsFirstMax(t: ScoreTable, k: int) {
    && 0 <= k < |t|
    && (forall j :: 0 <= j < |t| ==> t[j].1 <= t[k].1)
    && (forall j :: 0 <= j < k ==> t[j].1 < t[k].1)
  }

  /** One scan of the source's inner loop: a running maximum from -1 and "" replaced on a
      strictly greater score.  The first maximum wins; with no score above -1 the scan
      yields ("", -1). */
  method FindMax(t: ScoreTable) returns (name: string, score: real)
    ensures (exists j :: 0 <= j < |t| && t[j].1 > -1.0) ==>
              exists k :: IsFirstMax(t, k) && t[k] == (name, score)
    ensures (forall j :: 0 <= j < |t| ==> t[j].1 <= -1.0) ==> name == "" && score == -1.0
  {
    name, score := "", -1.0;
    ghost var k := -1;
    var i := 0;
    while i < |t|
      invariant 0 <= i <= |t|
      invariant k == -1 ==> name == "" && score == -1.0
      invariant k == -1 ==> forall j :: 0 <= j < i ==> t[j].1 <= -1.0
      invariant k != -1 ==> 0 <= k < i && t[k] == (name, score) && score > -1.0
      invariant k != -1 ==> forall j :: 0 <= j < i ==> t[j].1 <= score
      invariant k != -1 ==> forall j :: 0 <= j < k ==> t[j].1 < score
    {
      if t[i].1 > score {
        name, score := t[i].0, t[i].1;
        k := i;
      }
      i := i + 1;
    }
    if k != -1 {
      assert IsFirstMax(t, k);
    }
  }

  /** The dictionary after `pop`: entry `k` removed, the others in their order. */
  function RemoveAt(t: ScoreTable, k: int): (r: ScoreTable)
    requires 0 <= k < |t|
    ensures |r| == |t| - 1
    ensures forall i :: 0 <= i < k ==> r[i] == t[i]
    ensures forall i :: k <= i < |r| ==> r[i] == t[i + 1]
  {
    t[..k] + t[k + 1..]
  }

  /** Every entry of `t` is an entry of the table. */
  predicate InTable(table: ScoreTable, t: ScoreTable) {
    forall i :: 0 <= i < |t| ==> t[i] in table
  }

  /** Every entry of the table is picked or remains. */
  predicate Covers(table: ScoreTable, top: ScoreTable, rest: ScoreTable) {
    forall m :: 0 <= m < |table| ==> table[m] in top || table[m] in rest
  }

  /** No name is both picked and remaining. */
  predicate Disjoint(top: ScoreTable, rest: ScoreTable) {
    forall i, j :: 0 <= i < |top| && 0 <= j < |rest| ==> top[i].0 != rest[j].0
  }

  /** `rest` lists its names in the table's order. */
  predicate InTableOrder(table: ScoreTable, rest: ScoreTable) {
    forall i, j :: 0 <= i < j < |rest| ==>
      IndexOf(Names(table), rest[i].0) < IndexOf(Names(table), rest[j].0)
  }

  /** The picked entries `top` and the remaining dictionary `rest` split the table, and
      `rest` keeps the table's order. */
  ghost predicate Partition(table: ScoreTable, top: ScoreTable, rest: ScoreTable) {
    && DistinctNames(table) && DistinctNames(top) && DistinctNames(rest)
    && |top| + |rest| == |table|
    && InTable(table, top) && InTable(table, rest)
    && Covers(table, top, rest)
    && Disjoint(top, rest)
    && InTableOrder(table, rest)
  }

  /** The picks so far are in non-increasing order, none is beaten by what remains, and
      ties follow the table's order. */
  ghost predicate Ranked(table: ScoreTable, top: ScoreTable, rest: ScoreTable) {
    NonIncreasing(top) && Dominates(top, rest) && TiesAcross(table, top, rest) && TiesWithin(table, top)
  }

  /** No remaining entry scores above a picked one. */
  predicate Dominates(top: ScoreTable, rest: ScoreTable) {
    forall i, j :: 0 <= i < |top| && 0 <= j < |rest| ==> rest[j].1 <= top[i].1
  }

  /** A remaining entry tied with a picked one comes later in the table. */
  predicate TiesAcross(table: ScoreTable, top: ScoreTable, rest: ScoreTable) {
    forall i, j :: 0 <= i < |top| && 0 <= j < |rest| && rest[j].1 == top[i].1 ==>
      IndexOf(Names(table), top[i].0) < IndexOf(Names(table), rest[j].0)
  }

  /** Tied picks are in table order. */
  predicate TiesWithin(table: ScoreTable, top: ScoreTable) {
    forall i, j :: 0 <= i < j < |top| && top[i].1 == top[j].1 ==>
      IndexOf(Names(table), top[i].0) < IndexOf(Names(table), top[j].0)
  }

  lemma PartitionInit(table: ScoreTable)
    requires DistinctNames(table)
    ensures Partition(table, [], table) && Ranked(table, [], table)
  {
    var names := Names(table);
    forall i | 0 <= i < |table|
      ensures IndexOf(names, table[i].0) == i
    {
      IndexOfDistinct(names, i);
    }
  }

  /** Moving entry `k` of `rest` to the end of `top` keeps the partition. */
  lemma PartitionStep(table: ScoreTable, top: ScoreTable, rest: ScoreTable, k: int)
    requires Partition(table, top, rest)
    requires 0 <= k < |rest|
    ensures Partition(table, top + [rest[k]], RemoveAt(rest, k))
  {
    StepDistinct(top, rest, k);
    StepInTable(table, top, rest, k);
    StepCovers(table, top, rest, k);
    StepInTableOrder(table, rest, k);
  }

  /** Entry `j` after removing entry `k` is entry `j` or `j + 1` before, by position. */
  lemma RemoveAtIndex(t: ScoreTable, k: int, j: int)
    requires 0 <= k < |t| && 0 <= j < |t| - 1
    ensures j < k ==> RemoveAt(t, k)[j] == t[j]
    ensures k <= j ==> RemoveAt(t, k)[j] == t[j + 1]
  {
  }

  lemma StepDistinct(top: ScoreTable, rest: ScoreTable, k: int)
    requires DistinctNames(top) && DistinctNames(rest) && Disjoint(top, rest)
    requires 0 <= k < |rest|
    ensures DistinctNames(top + [rest[k]]) && DistinctNames(RemoveAt(rest, k))
    ensures Disjoint(top + [rest[k]], RemoveAt(rest, k))
  {
    var top', rest' := top + [rest[k]], RemoveAt(rest, k);
    forall i, j | 0 <= i < j < |top'|
      ensures top'[i].0 != top'[j].0
    {
      if j == |top| {
        assert top'[j] == rest[k];
      }
    }
    forall i, j | 0 <= i < j < |rest'|
      ensures rest'[i].0 != rest'[j].0
    {
      RemoveAtIndex(rest, k, i);
      RemoveAtIndex(rest, k, j);
    }
    forall i, j | 0 <= i < |top'| && 0 <= j < |rest'|
      ensures top'[i].0 != rest'[j].0
    {
      RemoveAtIndex(rest, k, j);
    }
  }

  lemma StepInTable(table: ScoreTable, top: ScoreTable, rest: ScoreTable, k: int)
    requires InTable(table, top) && InTable(table, rest)
    requires 0 <= k < |rest|
    ensures InTable(table, top + [rest[k]]) && InTable(table, RemoveAt(rest, k))
  {
    forall j | 0 <= j < |rest| - 1
      ensures RemoveAt(rest, k)[j] in table
    {
      RemoveAtIndex(rest, k, j);
    }
  }

  lemma StepCovers(table: ScoreTable, top: ScoreTable, rest: ScoreTable, k: int)
    requires Covers(table, top, rest)
    requires 0 <= k < |rest|
    ensures Covers(table, top + [rest[k]], RemoveAt(rest, k))
  {
    var top', rest' := top + [rest[k]], RemoveAt(rest, k);
    forall m | 0 <= m < |table|
      ensures table[m] in top' || table[m] in rest'
    {
      if table[m] !in top {
        var j :| 0 <= j < |rest| && rest[j] == table[m];
        if j < k {
          assert rest'[j] == table[m];
        } else if j > k {
          assert rest'[j - 1] == table[m];
        }
      }
    }
  }

  lemma StepInTableOrder(table: ScoreTable, rest: ScoreTable, k: int)
    requires InTableOrder(table, rest)
    requires 0 <= k < |rest|
    ensures InTableOrder(table, RemoveAt(rest, k))
  {
    var rest' := RemoveAt(rest, k);
    forall i, j | 0 <= i < j < |rest'|
      ensures IndexOf(Names(table), rest'[i].0) < IndexOf(Names(table), rest'[j].0)
    {
      RemoveAtIndex(rest, k, i);
      RemoveAtIndex(rest, k, j);
    }
  }

  /** Moving the first maximum of `rest` to the end of `top` keeps the ranking. */
  lemma RankedStep(table: ScoreTable, top: ScoreTable, rest: ScoreTable, k: int)
    requires Partition(table, top, rest) && Ranked(table, top, rest)
    requires IsFirstMax(rest, k)
    ensures Ranked(table, top + [rest[k]], RemoveAt(rest, k))
  {
    StepNonIncreasing(top, rest, k);
    StepDominates(top, rest, k);
    StepTiesAcross(table, top, rest, k);
    StepTiesWithin(table, top, rest, k);
  }

  lemma StepNonIncreasing(top: ScoreTable, rest: ScoreTable, k: int)
    requires NonIncreasing(top) && Dominates(top, rest) && 0 <= k < |rest|
    ensures NonIncreasing(top + [rest[k]])
  {
    var top' := top + [rest[k]];
    forall i, j | 0 <= i < j < |top'|
      ensures top'[j].1 <= top'[i].1
    {
      if j == |top| {
        assert top'[j] == rest[k];
      }
    }
  }

  lemma StepDominates(top: ScoreTable, rest: ScoreTable, k: int)
    requires Dominates(top, rest) && IsFirstMax(rest, k)
    ensures Dominates(top + [rest[k]], RemoveAt(rest, k))
  {
    var top', rest' := top + [rest[k]], RemoveAt(rest, k);
    forall i, j | 0 <= i < |top'| && 0 <= j < |rest'|
      ensures rest'[j].1 <= top'[i].1
    {
      RemoveAtIndex(rest, k, j);
    }
  }

  lemma StepTiesAcross(table: ScoreTable, top: ScoreTable, rest: ScoreTable, k: int)
    requires TiesAcross(table, top, rest) && InTableOrder(table, rest) && IsFirstMax(rest, k)
    ensures TiesAcross(table, top + [rest[k]], RemoveAt(rest, k))
  {
    var top', rest' := top + [rest[k]], RemoveAt(rest, k);
    var names := Names(table);
    forall i, j | 0 <= i < |top'| && 0 <= j < |rest'| && rest'[j].1 == top'[i].1
      ensures IndexOf(names, top'[i].0) < IndexOf(names, rest'[j].0)
    {
      var j0 := if j < k then j else j + 1;
      RemoveAtIndex(rest, k, j);
      assert rest'[j] == rest[j0];
      if i == |top| {
        assert j0 > k;
      }
    }
  }

  lemma StepTiesWithin(table: ScoreTable, top: ScoreTable, rest: ScoreTable, k: int)
    requires TiesWithin(table, top) && TiesAcross(table, top, rest) && 0 <= k < |rest|
    ensures TiesWithin(table, top + [rest[k]])
  {
    var top' := top + [rest[k]];
    forall i, j | 0 <= i < j < |top'| && top'[i].1 == top'[j].1
      ensures IndexOf(Names(table), top'[i].0) < IndexOf(Names(table), top'[j].0)
    {
      if j == |top| {
        assert top'[j] == rest[k];
      }
    }
  }

  /** The repeated-maximum loop of the source.  Each round appends the first maximum of
      the remaining scores and pops it.  With every score above -1 (true of similarity
      scores) and `limit` at most the table size, the result has `max(limit, 0)` entries
      of the table, distinct, in non-increasing order, with ties in table order, and no
      entry left out scores above any entry taken.  A `limit` beyond the table size makes
      the last round look up the key "" and raise KeyError. */
  method TopMatches(table: ScoreTable, limit: int) returns (r: Result<ScoreTable>)
    requires DistinctNames(table)
    ensures r.Err? ==> r.error == KeyError
    ensures AboveSentinel(table) ==> (r.Ok? <==> limit <= |table|)
    ensures r.Ok? ==> |r.value| == (if limit < 0 then 0 else limit)
    ensures r.Ok? ==> DistinctNames(r.value)
    ensures r.Ok? ==> forall i :: 0 <= i < |r.value| ==> r.value[i] in table
    ensures r.Ok? && AboveSentinel(table) ==> NonIncreasing(r.value)
    ensures r.Ok? && AboveSentinel(table) ==>
              forall m :: 0 <= m < |table| && table[m] !in r.value ==>
                forall i :: 0 <= i < |r.value| ==> table[m].1 <= r.value[i].1
    ensures r.Ok? && AboveSentinel(table) ==>
              forall i, j :: 0 <= i < j < |r.value| && r.value[i].1 == r.value[j].1 ==>
                IndexOf(Names(table), r.value[i].0) < IndexOf(Names(table), r.value[j].0)
    ensures r.Ok? && AboveSentinel(table) ==>
              forall m, i :: (&& 0 <= m < |table| && table[m] !in r.value && 0 <= i < |r.value|
                              && table[m].1 == r.value[i].1) ==>
                IndexOf(Names(table), r.value[i].0) < m
  {
    var top: ScoreTable := [];
    var rest := table;
    PartitionInit(table);
    while |top| < limit
      invariant Partition(table, top, rest)
      invariant AboveSentinel(table) ==> Ranked(table, top, rest)
      invariant |top| <= (if limit < 0 then 0 else limit)
      decreases limit - |top|
    {
      var name, score := FindMax(rest);
      ghost var k0 := -1;
      if AboveSentinel(table) && |rest| > 0 {
        assert rest[0] in table;
        k0 :| IsFirstMax(rest, k0) && rest[k0] == (name, score);
        assert Names(rest)[k0] == name;
      }
      var k := IndexOf(Names(rest), name);
      if k < 0 {
        return Err(KeyError);
      }
      assert rest[k].0 == name;
      if AboveSentinel(table) {
        assert k0 == k;
        RankedStep(table, top, rest, k);
      }
      PartitionStep(table, top, rest, k);
      top := top + [(name, rest[k].1)];
      rest := RemoveAt(rest, k);
    }
    if AboveSentinel(table) {
      LeftOutDominated(table, top, rest);
      LeftOutTiesLater(table, top, rest);
    }
    return Ok(top);
  }

  /** Once every remaining entry tied with a pick comes after it in the table, so does
      every entry of the table left out of the picks: at the cut, the earlier of two tied
      entries is the one taken. */
  lemma LeftOutTiesLater(table: ScoreTable, top: ScoreTable, rest: ScoreTable)
    requires DistinctNames(table) && Covers(table, top, rest) && TiesAcross(table, top, rest)
    ensures forall m, i :: (&& 0 <= m < |table| && table[m] !in top && 0 <= i < |top|
                            && table[m].1 == top[i].1) ==>
              IndexOf(Names(table), top[i].0) < m
  {
    var names := Names(table);
    forall m, i | 0 <= m < |table| && table[m] !in top && 0 <= i < |top| && table[m].1 == top[i].1
      ensures IndexOf(names, top[i].0) < m
    {
      var j :| 0 <= j < |rest| && rest[j] == table[m];
      IndexOfDistinct(names, m);
    }
  }

  /** Once the picks dominate what remains, no entry of the table left out of the picks
      scores above one of them. */
  lemma LeftOutDominated(table: ScoreTable, top: ScoreTable, rest: ScoreTable)
    requires Covers(table, top, rest) && Dominates(top, rest)
    ensures forall m :: 0 <= m < |table| && table[m] !in top ==>
              forall i :: 0 <= i < |top| ==> table[m].1 <= top[i].1
  {
    forall m | 0 <= m < |table| && table[m] !in top
      ensures forall i :: 0 <= i < |top| ==> table[m].1 <= top[i].1
    {
      var j :| 0 <= j < |rest| && rest[j] == table[m];
    }
  }

  // ---------------------------------------------------------------------------------------
  // The ranker

  /** `get_demographic_recommendations`.  Every breed vertex (never an owner) is scored
      with the smoothed similarity of its owners; an exception of `compare` propagates; a
      `limit` above the number of breeds raises KeyError; otherwise the result holds
      `max(limit, 0)` distinct breeds with their scores, each in [0, 1], non-increasing,
      ties in breed-set order, and no breed left out scores above a returned one. */
  method GetDemographicRecommendations(input: User, limit: int, g: Graph<Item>, order: seq<string>)
    returns (r: Result<ScoreTable>)
    requires EnumeratesBreeds(g, order)
    requires BreedsLinkOwners(g)
    ensures r.Err? && r.error != KeyError ==>
              exists i, x :: 0 <= i < |order| && x in g.adj[Breed(order[i])] &&
                             x.Owner? && Compare(x.user, input) == Err(r.error)
    ensures (exists i :: 0 <= i < |order| && !AllComparable(g.adj[Breed(order[i])], input)) ==>
              r.Err? && r.error != KeyError
    ensures (forall i :: 0 <= i < |order| ==> AllComparable(g.adj[Breed(order[i])], input)) ==>
              (r.Ok? <==> limit <= |order|) && (r.Err? ==> r.error == KeyError)
    ensures r.Ok? ==> |r.value| == (if limit < 0 then 0 else limit)
    ensures r.Ok? ==> DistinctNames(r.value) && NonIncreasing(r.value)
    ensures r.Ok? ==> forall i :: 0 <= i < |r.value| ==>
                        && Breed(r.value[i].0) in g.adj
                        && r.value[i].1 == BreedScore(g, input, r.value[i].0)
                        && 0.0 <= r.value[i].1 <= 1.0
    ensures r.Ok? ==> forall j :: 0 <= j < |order| && order[j] !in Names(r.value) ==>
                        forall i :: 0 <= i < |r.value| ==>
                          BreedScore(g, input, order[j]) <= r.value[i].1
    ensures r.Ok? ==> forall i, j :: 0 <= i < j < |r.value| && r.value[i].1 == r.value[j].1 ==>
                        IndexOf(order, r.value[i].0) < IndexOf(order, r.value[j].0)
    ensures r.Ok? ==> forall j, i :: (&& 0 <= j < |order| && order[j] !in Names(r.value)
                                     && 0 <= i < |r.value| && BreedScore(g, input, order[j]) == r.value[i].1) ==>
                        IndexOf(order, r.value[i].0) < j
  {
    var scores := BreedScoreTable(g, input, order);
    if scores.Err? {
      return Err(scores.error);
    }
    var table := scores.value;
    assert Names(table) == order;
    TableInUnit(g, input, order, table);
    r := TopMatches(table, limit);
    if r.Ok? {
      RankedBreeds(g, input, order, table, r.value);
    }
  }

  /** What the top matches of the score table say about the breeds of `order`. */
  lemma RankedBreeds(g: Graph<Item>, input: User, order: seq<string>, table: ScoreTable, picks: ScoreTable)
    requires ScoresOf(g, input, order, table) && Names(table) == order
    requires forall i :: 0 <= i < |table| ==> 0.0 <= table[i].1 <= 1.0
    requires forall i :: 0 <= i < |picks| ==> picks[i] in table
    requires forall m :: 0 <= m < |table| && table[m] !in picks ==>
               forall i :: 0 <= i < |picks| ==> table[m].1 <= picks[i].1
    requires forall i, j :: 0 <= i < j < |picks| && picks[i].1 == picks[j].1 ==>
               IndexOf(Names(table), picks[i].0) < IndexOf(Names(table), picks[j].0)
    requires forall m, i :: (&& 0 <= m < |table| && table[m] !in picks && 0 <= i < |picks|
                             && table[m].1 == picks[i].1) ==>
               IndexOf(Names(table), picks[i].0) < m
    ensures forall i :: 0 <= i < |picks| ==>
              && Breed(picks[i].0) in g.adj
              && picks[i].1 == BreedScore(g, input, picks[i].0)
              && 0.0 <= picks[i].1 <= 1.0
    ensures forall j :: 0 <= j < |order| && order[j] !in Names(picks) ==>
              forall i :: 0 <= i < |picks| ==> BreedScore(g, input, order[j]) <= picks[i].1
    ensures forall i, j :: 0 <= i < j < |picks| && picks[i].1 == picks[j].1 ==>
              IndexOf(order, picks[i].0) < IndexOf(order, picks[j].0)
    ensures forall j, i :: (&& 0 <= j < |order| && order[j] !in Names(picks)
                            && 0 <= i < |picks| && BreedScore(g, input, order[j]) == picks[i].1) ==>
              IndexOf(order, picks[i].0) < j
  {
    PicksScored(g, input, order, table, picks);
    forall i | 0 <= i < |picks|
      ensures 0.0 <= picks[i].1 <= 1.0
    {
      var m :| 0 <= m < |table| && table[m] == picks[i];
    }
    LeftOutScoresNoHigher(g, input, order, table, picks);
    LeftOutTiedComeLater(g, input, order, table, picks);
  }

  /** `table` pairs each breed of `order` with its score, in that order. */
  ghost predicate ScoresOf(g: Graph<Item>, input: User, order: seq<string>, table: ScoreTable) {
    && (forall i :: 0 <= i < |order| ==> Breed(order[i]) in g.adj)
    && |table| == |order|
    && forall i :: 0 <= i < |order| ==> table[i] == (order[i], BreedScore(g, input, order[i]))
  }

  lemma TableInUnit(g: Graph<Item>, input: User, order: seq<string>, table: ScoreTable)
    requires BreedsLinkOwners(g) && ScoresOf(g, input, order, table)
    ensures forall i :: 0 <= i < |table| ==> 0.0 <= table[i].1 <= 1.0
  {
    forall i | 0 <= i < |table|
      ensures 0.0 <= table[i].1 <= 1.0
    {
      SmoothedScoreInRange(g.adj[Breed(order[i])], input);
    }
  }

  lemma PicksScored(g: Graph<Item>, input: User, order: seq<string>, table: ScoreTable, picks: ScoreTable)
    requires ScoresOf(g, input, order, table)
    requires forall i :: 0 <= i < |picks| ==> picks[i] in table
    ensures forall i :: 0 <= i < |picks| ==>
              Breed(picks[i].0) in g.adj && picks[i].1 == BreedScore(g, input, picks[i].0)
  {
    forall i | 0 <= i < |picks|
      ensures Breed(picks[i].0) in g.adj && picks[i].1 == BreedScore(g, input, picks[i].0)
    {
      var m :| 0 <= m < |table| && table[m] == picks[i];
    }
  }

  lemma LeftOutScoresNoHigher(g: Graph<Item>, input: User, order: seq<string>, table: ScoreTable, picks: ScoreTable)
    requires ScoresOf(g, input, order, table)
    requires forall m :: 0 <= m < |table| && table[m] !in picks ==>
               forall i :: 0 <= i < |picks| ==> table[m].1 <= picks[i].1
    ensures forall j :: 0 <= j < |order| && order[j] !in Names(picks) ==>
              forall i :: 0 <= i < |picks| ==> BreedScore(g, input, order[j]) <= picks[i].1
  {
    forall j | 0 <= j < |order| && order[j] !in Names(picks)
      ensures forall i :: 0 <= i < |picks| ==> BreedScore(g, input, order[j]) <= picks[i].1
    {
      forall i | 0 <= i < |picks|
        ensures picks[i] != table[j]
      {
        assert Names(picks)[i] != order[j];
      }
    }
  }

  lemma LeftOutTiedComeLater(g: Graph<Item>, input: User, order: seq<string>, table: ScoreTable, picks: ScoreTable)
    requires ScoresOf(g, input, order, table) && Names(table) == order
    requires forall m, i :: (&& 0 <= m < |table| && table[m] !in picks && 0 <= i < |picks|
                             && table[m].1 == picks[i].1) ==>
               IndexOf(Names(table), picks[i].0) < m
    ensures forall j, i :: (&& 0 <= j < |order| && order[j] !in Names(picks)
                            && 0 <= i < |picks| && BreedScore(g, input, order[j]) == picks[i].1) ==>
              IndexOf(order, picks[i].0) < j
  {
    forall j, i | 0 <= j < |order| && order[j] !in Names(picks) &&
                  0 <= i < |picks| && BreedScore(g, input, order[j]) == picks[i].1
      ensures IndexOf(order, picks[i].0) < j
    {
      assert Names(picks)[i] != order[j];
      assert table[j] !in picks by {
        forall k | 0 <= k < |picks|
          ensures picks[k] != table[j]
        {
          assert Names(picks)[k] != order[j];
        }
      }
    }
  }
}
