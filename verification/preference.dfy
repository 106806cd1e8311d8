/** The preference ranker of user_preference.py: raw questionnaire answers become trait
    weights, breeds are ranked by the weighted sum exactly as in the decision matrix but
    with a caller-chosen limit, and a ranking's scores can be rescaled into a band. */
module Preference {
  import opened Errors
  import opened DecisionMatrix

  /** `get_preference_recommendations`: the `limit` best breeds under the weights, by the
      same score, stable descending order and slice as the decision matrix. */
  function GetPreferenceRecommendations(breeds: seq<DogBreed>, limit: int, w: Weights): (r: Ranking)
    ensures |r| == SliceLength(|breeds|, limit)
    ensures NonIncreasing(r)
    ensures multiset(r) <= multiset(ScoreAll(breeds, w))
    ensures forall e :: e in r ==> exists i :: 0 <= i < |breeds| && e == (breeds[i].breedName, Score(w, breeds[i]))
    ensures |r| > 0 ==> forall e :: e in multiset(ScoreAll(breeds, w)) - multiset(r) ==> e.1 <= r[|r| - 1].1
    ensures forall v :: WithScore(r, v) <= WithScore(ScoreAll(breeds, w), v)
  {
    var scored := ScoreAll(breeds, w);
    var r := TopScores(scored, SliceLength(|scored|, limit));
    assert forall e :: e in r ==> e in multiset(scored);
    r
  }

  /** The decision matrix is the preference ranker with a limit of five. */
  lemma DecisionMatrixIsLimitFive(breeds: seq<DogBreed>, w: Weights)
    ensures DecisionMatrix.DecisionMatrix(breeds, w) == GetPreferenceRecommendations(breeds, 5, w)
  {
  }

  /** The sign the source gives a trait the user called positive or negative. */
  function Direction(decide: string): (r: int)
    ensures r == 1 || r == -1
    ensures r == 1 <==> decide == "positive"
  {
    if decide == "positive" then 1 else -1
  }

  /** `weight_raw_preference_data`: nine answers are used as weights unchanged, shedding
      counts against a breed by its importance, and barking and stimulation needs count for
      or against a breed by their importance, depending on the answer "positive". */
  function WeightRawPreferenceData(
    affectionateWithFamily: int, goodWithYoungChildren: int, goodWithOtherDogs: int,
    sheddingLevel: int, opennessToStrangers: int, playfulness: int, protectiveNature: int,
    adaptability: int, trainability: int, energy: int,
    barkDecide: string, barkImportant: int,
    stimulationDecide: string, stimulationImportant: int): (r: Weights)
    ensures r.affectionateWithFamily == affectionateWithFamily
    ensures r.goodWithYoungChildren == goodWithYoungChildren
    ensures r.goodWithOtherDogs == goodWithOtherDogs
    ensures r.sheddingLevel == -sheddingLevel
    ensures r.opennessToStrangers == opennessToStrangers
    ensures r.playfulness == playfulness
    ensures r.protectiveNature == protectiveNature
    ensures r.adaptability == adaptability
    ensures r.trainability == trainability
    ensures r.energy == energy
    ensures barkDecide == "positive" ==> r.barking == barkImportant
    ensures barkDecide != "positive" ==> r.barking == -barkImportant
    ensures stimulationDecide == "positive" ==> r.stimulationNeeds == stimulationImportant
    ensures stimulationDecide != "positive" ==> r.stimulationNeeds == -stimulationImportant
  {
    Weights(
      affectionateWithFamily, goodWithYoungChildren, goodWithOtherDogs,
      sheddingLevel * -1,
      opennessToStrangers, playfulness, protectiveNature, adaptability, trainability, energy,
      Direction(barkDecide) * barkImportant,
      Direction(stimulationDecide) * stimulationImportant)
  }

  /** Raising a breed's shedding, barking or stimulation rating by `k` moves its score by
      `k` times that trait's weight. */
  lemma ScoreShift(w: Weights, b: DogBreed, k: int)
    ensures Score(w, b.(sheddingLevel := b.sheddingLevel + k)) == Score(w, b) + w.sheddingLevel * k
    ensures Score(w, b.(barking := b.barking + k)) == Score(w, b) + w.barking * k
    ensures Score(w, b.(stimulationNeeds := b.stimulationNeeds + k)) == Score(w, b) + w.stimulationNeeds * k
  {
    assert w.sheddingLevel * (b.sheddingLevel + k) == w.sheddingLevel * b.sheddingLevel + w.sheddingLevel * k;
    assert w.barking * (b.barking + k) == w.barking * b.barking + w.barking * k;
    assert w.stimulationNeeds * (b.stimulationNeeds + k) == w.stimulationNeeds * b.stimulationNeeds + w.stimulationNeeds * k;
  }

  /** Under the weights built from the answers, of two breeds that differ only in shedding
      the one that sheds more scores lower by the shedding importance per level; a barking
      (or stimulation) difference counts for the breed when the answer was "positive" and
      against it otherwise. */
  lemma {:induction false} AnswersSteerScore(
    affectionateWithFamily: int, goodWithYoungChildren: int, goodWithOtherDogs: int,
    sheddingLevel: int, opennessToStrangers: int, playfulness: int, protectiveNature: int,
    adaptability: int, trainability: int, energy: int,
    barkDecide: string, barkImportant: int,
    stimulationDecide: string, stimulationImportant: int,
    b: DogBreed, k: int)
    ensures var w := WeightRawPreferenceData(
              affectionateWithFamily, goodWithYoungChildren, goodWithOtherDogs,
              sheddingLevel, opennessToStrangers, playfulness, protectiveNature,
              adaptability, trainability, energy,
              barkDecide, barkImportant, stimulationDecide, stimulationImportant);
            && Score(w, b.(sheddingLevel := b.sheddingLevel + k)) == Score(w, b) - sheddingLevel * k
            && Score(w, b.(barking := b.barking + k)) ==
                 Score(w, b) + (if barkDecide == "positive" then barkImportant else -barkImportant) * k
            && Score(w, b.(stimulationNeeds := b.stimulationNeeds + k)) ==
                 Score(w, b) + (if stimulationDecide == "positive" then stimulationImportant
                                else -stimulationImportant) * k
  {
    var w := WeightRawPreferenceData(
      affectionateWithFamily, goodWithYoungChildren, goodWithOtherDogs,
      sheddingLevel, opennessToStrangers, playfulness, protectiveNature,
      adaptability, trainability, energy,
      barkDecide, barkImportant, stimulationDecide, stimulationImportant);
    ScoreShift(w, b, k);
  }

  /** The smallest score of a non-empty ranking. */
  function MinScore(s: Ranking): (r: int)
    requires |s| > 0
    ensures forall i :: 0 <= i < |s| ==> r <= s[i].1
    ensures exists i :: 0 <= i < |s| && s[i].1 == r
  {
    if |s| == 1 then s[0].1
    else
      var m := MinScore(s[1..]);
      assert forall i :: 1 <= i < |s| ==> s[i] == s[1..][i - 1];
      if s[0].1 < m then s[0].1 else m
  }

  /** The largest score of a non-empty ranking. */
  function MaxScore(s: Ranking): (r: int)
    requires |s| > 0
    ensures forall i :: 0 <= i < |s| ==> s[i].1 <= r
    ensures exists i :: 0 <= i < |s| && s[i].1 == r
  {
    if |s| == 1 then s[0].1
    else
      var m := MaxScore(s[1..]);
      assert forall i :: 1 <= i < |s| ==> s[i] == s[1..][i - 1];
      if s[0].1 > m then s[0].1 else m
  }

  /** Every score of the ranking is the same. */
  predicate AllEqual(s: Ranking) {
    forall i, j :: 0 <= i < |s| && 0 <= j < |s| ==> s[i].1 == s[j].1
  }

  /** The rescaled value of score `x` when the smallest score is `lo` and the largest `hi`:
      the source widens the range by its own width above the maximum and then doubles it
      downwards, so the band is [3lo - 2hi, 2hi - lo] and `x` is placed in it linearly. */
  function Rescale(x: int, lo: int, hi: int): (r: real)
    requires lo < hi
  {
    var top := hi + (hi - lo);
    var bottom := top - (top - lo) * 2;
    (x - bottom) as real / (top - bottom) as real
  }

  lemma QuarterBounds(a: real, d: real)
    requires d > 0.0 && 2.0 * d <= a <= 3.0 * d
    ensures 0.5 <= a / (4.0 * d) <= 0.75
  {
    assert a / (4.0 * d) * (4.0 * d) == a;
  }

  lemma DivideStrictlyMonotone(a: real, b: real, d: real)
    requires d > 0.0
    ensures a < b <==> a / d < b / d
  {
    assert a / d * d == a;
    assert b / d * d == b;
    if a < b {
      assert (b - a) / d > 0.0;
      assert b / d - a / d == (b - a) / d;
    }
  }

  /** The affine map of [lo, hi] onto [0.5, 0.75]. */
  function Affine(x: int, lo: int, hi: int): real
    requires lo < hi
  {
    0.5 + 0.25 * ((x - lo) as real / (hi - lo) as real)
  }

  /** The source's padded-range formula is an affine map onto [0.5, 0.75]: the smallest
      score goes to 0.5, the largest to 0.75 and each unit of score adds a quarter of
      one over the spread. */
  lemma {:induction false} RescaleClosedForm(x: int, lo: int, hi: int)
    requires lo < hi
    ensures Rescale(x, lo, hi) == Affine(x, lo, hi)
  {
    var d := (hi - lo) as real;
    var top := hi + (hi - lo);
    var bottom := top - (top - lo) * 2;
    assert bottom == 3 * lo - 2 * hi;
    assert (top - bottom) as real == 4.0 * d;
    assert (x - bottom) as real == (x - lo) as real + 2.0 * d;
    var q := (x - lo) as real / d;
    assert q * d == (x - lo) as real;
    var lhs := ((x - lo) as real + 2.0 * d) / (4.0 * d);
    assert lhs * (4.0 * d) == (x - lo) as real + 2.0 * d;
    assert (0.5 + 0.25 * q) * (4.0 * d) == 2.0 * d + q * d;
    MulCancel(lhs, 0.5 + 0.25 * q, 4.0 * d);
  }

  lemma MulCancel(x: real, y: real, c: real)
    requires c != 0.0 && x * c == y * c
    ensures x == y
  {
    assert (x - y) * c == 0.0;
  }

  /** Rescaled values lie in [0.5, 0.75], with the ends reached exactly at the smallest
      and largest score, and the rescaling keeps the order of scores in both directions. */
  lemma {:induction false} RescaleProperties(x: int, y: int, lo: int, hi: int)
    requires lo < hi && lo <= x <= hi && lo <= y <= hi
    ensures 0.5 <= Rescale(x, lo, hi) <= 0.75
    ensures Rescale(x, lo, hi) == 0.5 <==> x == lo
    ensures Rescale(x, lo, hi) == 0.75 <==> x == hi
    ensures x < y <==> Rescale(x, lo, hi) < Rescale(y, lo, hi)
  {
    var d := (hi - lo) as real;
    var top := hi + (hi - lo);
    var bottom := top - (top - lo) * 2;
    assert (top - bottom) as real == 4.0 * d;
    QuarterBounds((x - bottom) as real, d);
    DivideStrictlyMonotone((x - bottom) as real, (y - bottom) as real, 4.0 * d);
    RescaleClosedForm(x, lo, hi);
    var q := (x - lo) as real / d;
    assert q * d == (x - lo) as real;
    assert q == 0.0 <==> x == lo;
    assert q == 1.0 <==> x == hi;
  }

  /** `normalize_preference_recommendations`: an empty ranking stays empty; a ranking whose
      scores are all equal divides by zero; otherwise every entry keeps its name and place
      and its score is rescaled into [0.5, 0.75], the best score to 0.75 and the worst to
      0.5, without changing which entries score higher than which. */
  function NormalizePreferenceRecommendations(scores: Ranking): (r: Result<seq<(string, real)>>)
    ensures |scores| == 0 ==> r == Ok([])
    ensures r.Err? <==> |scores| > 0 && AllEqual(scores)
    ensures r.Err? ==> r.error == ZeroDivisionError
    ensures r.Ok? ==> |r.value| == |scores|
    ensures r.Ok? ==> forall i :: 0 <= i < |scores| ==> r.value[i].0 == scores[i].0
    ensures r.Ok? ==> forall i :: 0 <= i < |scores| ==>
                        r.value[i].1 == Affine(scores[i].1, MinScore(scores), MaxScore(scores))
    ensures r.Ok? ==> forall i :: 0 <= i < |scores| ==> 0.5 <= r.value[i].1 <= 0.75
    ensures r.Ok? ==> forall i, j :: 0 <= i < |scores| && 0 <= j < |scores| ==>
                        (scores[i].1 < scores[j].1 <==> r.value[i].1 < r.value[j].1)
    ensures r.Ok? ==> forall i :: 0 <= i < |scores| ==>
                        (r.value[i].1 == 0.75 <==> forall j :: 0 <= j < |scores| ==> scores[j].1 <= scores[i].1)
    ensures r.Ok? ==> forall i :: 0 <= i < |scores| ==>
                        (r.value[i].1 == 0.5 <==> forall j :: 0 <= j < |scores| ==> scores[i].1 <= scores[j].1)
  {
    if |scores| == 0 then Ok([])
    else
      var lo, hi := MinScore(scores), MaxScore(scores);
      if lo == hi then
        assert AllEqual(scores);
        Err(ZeroDivisionError)
      else
        assert !AllEqual(scores) by {
          var il :| 0 <= il < |scores| && scores[il].1 == lo;
          var ih :| 0 <= ih < |scores| && scores[ih].1 == hi;
        }
        Ok(Rescaled(scores))
  }

  /** The rescaled ranking of a list whose scores are not all equal: names and order
      kept, each score mapped affinely from [min, max] onto [0.5, 0.75]. */
  function Rescaled(scores: Ranking): (r: seq<(string, real)>)
    requires |scores| > 0 && MinScore(scores) < MaxScore(scores)
    ensures |r| == |scores|
    ensures forall i :: 0 <= i < |scores| ==> r[i].0 == scores[i].0
    ensures forall i :: 0 <= i < |scores| ==> r[i].1 == Affine(scores[i].1, MinScore(scores), MaxScore(scores))
    ensures forall i :: 0 <= i < |scores| ==> 0.5 <= r[i].1 <= 0.75
    ensures forall i, j :: 0 <= i < |scores| && 0 <= j < |scores| ==>
              (scores[i].1 < scores[j].1 <==> r[i].1 < r[j].1)
    ensures forall i :: 0 <= i < |scores| ==>
              (r[i].1 == 0.75 <==> forall j :: 0 <= j < |scores| ==> scores[j].1 <= scores[i].1)
    ensures forall i :: 0 <= i < |scores| ==>
              (r[i].1 == 0.5 <==> forall j :: 0 <= j < |scores| ==> scores[i].1 <= scores[j].1)
  {
    var lo, hi := MinScore(scores), MaxScore(scores);
    var il :| 0 <= il < |scores| && scores[il].1 == lo;
    var ih :| 0 <= ih < |scores| && scores[ih].1 == hi;
    RescaleAllClosedForm(scores, lo, hi);
    RescaleAllRange(scores, lo, hi);
    RescaleAllOrder(scores, lo, hi);
    RescaleAllTop(scores, lo, hi, ih);
    RescaleAllBottom(scores, lo, hi, il);
    RescaleAll(scores, lo, hi)
  }

  /** Every entry with its score rescaled, names and order kept. */
  function RescaleAll(scores: Ranking, lo: int, hi: int): (r: seq<(string, real)>)
    requires lo < hi
    ensures |r| == |scores|
    ensures forall i :: 0 <= i < |scores| ==> r[i] == (scores[i].0, Rescale(scores[i].1, lo, hi))
  {
    seq(|scores|, i requires 0 <= i < |scores| => (scores[i].0, Rescale(scores[i].1, lo, hi)))
  }

  /** Every score of the ranking lies between `lo` and `hi`. */
  predicate Between(scores: Ranking, lo: int, hi: int) {
    forall i :: 0 <= i < |scores| ==> lo <= scores[i].1 <= hi
  }

  lemma RescaleAllClosedForm(scores: Ranking, lo: int, hi: int)
    requires lo < hi
    ensures forall i :: 0 <= i < |scores| ==> RescaleAll(scores, lo, hi)[i].1 == Affine(scores[i].1, lo, hi)
  {
    forall i | 0 <= i < |scores|
      ensures RescaleAll(scores, lo, hi)[i].1 == Affine(scores[i].1, lo, hi)
    {
      RescaleClosedForm(scores[i].1, lo, hi);
    }
  }

  lemma RescaleAllRange(scores: Ranking, lo: int, hi: int)
    requires lo < hi && Between(scores, lo, hi)
    ensures forall i :: 0 <= i < |scores| ==> 0.5 <= RescaleAll(scores, lo, hi)[i].1 <= 0.75
  {
    forall i | 0 <= i < |scores|
      ensures 0.5 <= RescaleAll(scores, lo, hi)[i].1 <= 0.75
    {
      RescaleProperties(scores[i].1, scores[i].1, lo, hi);
    }
  }

  lemma RescaleAllOrder(scores: Ranking, lo: int, hi: int)
    requires lo < hi && Between(scores, lo, hi)
    ensures var out := RescaleAll(scores, lo, hi);
            forall i, j :: 0 <= i < |scores| && 0 <= j < |scores| ==>
              (scores[i].1 < scores[j].1 <==> out[i].1 < out[j].1)
  {
    var out := RescaleAll(scores, lo, hi);
    forall i, j | 0 <= i < |scores| && 0 <= j < |scores|
      ensures scores[i].1 < scores[j].1 <==> out[i].1 < out[j].1
    {
      RescaleProperties(scores[i].1, scores[j].1, lo, hi);
    }
  }

  lemma RescaleAllTop(scores: Ranking, lo: int, hi: int, ih: int)
    requires lo < hi && Between(scores, lo, hi)
    requires 0 <= ih < |scores| && scores[ih].1 == hi
    ensures var out := RescaleAll(scores, lo, hi);
            forall i :: 0 <= i < |scores| ==>
              (out[i].1 == 0.75 <==> forall j :: 0 <= j < |scores| ==> scores[j].1 <= scores[i].1)
  {
    var out := RescaleAll(scores, lo, hi);
    forall i | 0 <= i < |scores|
      ensures out[i].1 == 0.75 <==> forall j :: 0 <= j < |scores| ==> scores[j].1 <= scores[i].1
    {
      RescaleProperties(scores[i].1, scores[i].1, lo, hi);
      if forall j :: 0 <= j < |scores| ==> scores[j].1 <= scores[i].1 {
        assert scores[ih].1 <= scores[i].1;
      }
    }
  }

  lemma RescaleAllBottom(scores: Ranking, lo: int, hi: int, il: int)
    requires lo < hi && Between(scores, lo, hi)
    requires 0 <= il < |scores| && scores[il].1 == lo
    ensures var out := RescaleAll(scores, lo, hi);
            forall i :: 0 <= i < |scores| ==>
              (out[i].1 == 0.5 <==> forall j :: 0 <= j < |scores| ==> scores[i].1 <= scores[j].1)
  {
    var out := RescaleAll(scores, lo, hi);
    forall i | 0 <= i < |scores|
      ensures out[i].1 == 0.5 <==> forall j :: 0 <= j < |scores| ==> scores[i].1 <= scores[j].1
    {
      RescaleProperties(scores[i].1, scores[i].1, lo, hi);
      if forall j :: 0 <= j < |scores| ==> scores[i].1 <= scores[j].1 {
        assert scores[i].1 <= scores[il].1;
      }
    }
  }
}
