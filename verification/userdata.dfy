/** Owner profiles and the owner-to-owner similarity score of userdata.py. */
module UserData {
  import opened Errors
  import opened Districts

  /** A dog owner or prospective owner.  The source documents `gender` as one of
      "F", "M" or "O"; callers upper-case what they read. */
  datatype User = User(id: int, age: int, gender: string, district: District)

  /** The genders the representation invariant allows. */
  predicate ValidGender(g: string) {
    g == "F" || g == "M" || g == "O"
  }

  function AgeDifference(self: User, other: User): nat {
    if other.age >= self.age then other.age - self.age else self.age - other.age
  }

  /** For a natural number, d <= 100 exactly when d^2 <= 10000. */
  lemma SquareBound(d: nat)
    ensures d <= 100 <==> d * d <= 10000
    ensures d * d == 0 <==> d == 0
  {
    if d <= 100 {
      assert d * d <= d * 100;
    } else {
      assert d * d >= d * 101;
    }
  }

  /** The parabolic age score 1 - 0.0001 d^2.  It is at most 1, exactly 1 for equal ages,
      and non-negative (the source's assertion) exactly when the ages differ by at most 100. */
  function AgeScore(self: User, other: User): (r: real)
    ensures r <= 1.0
    ensures r == 1.0 <==> self.age == other.age
    ensures 0.0 <= r <==> AgeDifference(self, other) <= 100
  {
    var d := AgeDifference(self, other);
    SquareBound(d);
    1.0 - 0.0001 * ((d * d) as real)
  }

  /** The gender score exactly as the source writes it: the neutral category is compared as
      lower-case "o", which no valid profile carries. */
  function GenderScoreAsWritten(self: User, other: User): (r: real)
    ensures r == 0.5 || r == 1.0
    ensures r == 1.0 <==> self.gender == other.gender || self.gender == "o"
  {
    if self.gender == other.gender || self.gender == "o" then 1.0 else 0.5
  }

  /** With valid genders the neutral clause of the as-written score never applies: an "O"
      owner compared with an "F" user scores 0.5, not 1.0. */
  lemma NeutralGenderIgnoredAsWritten(self: User, other: User)
    requires ValidGender(self.gender) && ValidGender(other.gender)
    ensures GenderScoreAsWritten(self, other) == 1.0 <==> self.gender == other.gender
    ensures self.gender == "O" && other.gender == "F" ==> GenderScoreAsWritten(self, other) == 0.5
  {
    assert "o" != "O" && "o" != "F" && "o" != "M";
  }

  /** The gender score with the neutral category spelled as the profiles spell it: 1.0 for
      a match or a neutral owner, 0.5 otherwise. */
  function GenderScore(self: User, other: User): (r: real)
    ensures r == 0.5 || r == 1.0
    ensures r == 1.0 <==> self.gender == other.gender || self.gender == "O"
  {
    if self.gender == other.gender || self.gender == "O" then 1.0 else 0.5
  }

  /** A neutral owner is compatible with every gender, and the corrected score agrees with
      the as-written one whenever the owner is not neutral. */
  lemma NeutralGenderCompatible(self: User, other: User)
    requires ValidGender(self.gender)
    ensures self.gender == "O" ==> GenderScore(self, other) == 1.0
    ensures self.gender != "O" ==> GenderScore(self, other) == GenderScoreAsWritten(self, other)
  {
    assert self.gender != "o";
  }

  /** The weighted sum 0.4 age + 0.2 gender + 0.4 district of `compare`, for a given gender
      score.  Each of the source's range assertions is checked where it stands: the age
      assertion fails (AssertionError) when the ages differ by more than 100, the district
      lookup may raise RuntimeError, the district assertion fails only for a cache outside
      [0, 1], and the final assertion always holds. */
  function CompareWith(self: User, other: User, genderScore: real): (r: Result<real>)
    requires genderScore == 0.5 || genderScore == 1.0
    ensures r.Ok? ==> 0.0 <= r.value <= 1.0
    ensures AgeDifference(self, other) > 100 ==> r == Err(AssertionError)
    ensures (AgeDifference(self, other) <= 100 &&
             GetDistance(self.district, other.district).Err?) ==> r == Err(RuntimeError)
    ensures WellFormed(self.district) ==>
              (r.Ok? <==> AgeDifference(self, other) <= 100
                          && GetDistance(self.district, other.district).Ok?)
    ensures r.Ok? ==> r.value == 0.4 * AgeScore(self, other) + 0.2 * genderScore
                                 + 0.4 * GetDistance(self.district, other.district).value
    ensures r.Ok? ==> (r.value == 1.0 <==>
                        && self.age == other.age
                        && genderScore == 1.0
                        && GetDistance(self.district, other.district) == Ok(1.0))
  {
    var ageScore := AgeScore(self, other);
    if !(0.0 <= ageScore <= 1.0) then Err(AssertionError)
    else
      match GetDistance(self.district, other.district)
      case Err(e) => Err(e)
      case Ok(districtScore) =>
        if !(0.0 <= districtScore <= 1.0) then Err(AssertionError)
        else
          var score := 0.4 * ageScore + 0.2 * genderScore + 0.4 * districtScore;
          assert 0.0 <= score <= 1.0;
          Ok(score)
  }

  /** `compare` as the source computes it, with the as-written gender rule.  A successful
      score lies in [0, 1] and reaches 1 exactly when the ages are equal, the as-written
      gender score is 1 and the district closeness is 1. */
  function Compare(self: User, other: User): (r: Result<real>)
    ensures r.Ok? ==> 0.0 <= r.value <= 1.0
    ensures AgeDifference(self, other) > 100 ==> r == Err(AssertionError)
    ensures (AgeDifference(self, other) <= 100 &&
             GetDistance(self.district, other.district).Err?) ==> r == Err(RuntimeError)
    ensures WellFormed(self.district) ==>
              (r.Ok? <==> AgeDifference(self, other) <= 100
                          && GetDistance(self.district, other.district).Ok?)
    ensures r.Ok? ==> (r.value == 1.0 <==>
                        && self.age == other.age
                        && GenderScoreAsWritten(self, other) == 1.0
                        && GetDistance(self.district, other.district) == Ok(1.0))
  {
    CompareWith(self, other, GenderScoreAsWritten(self, other))
  }

  /** `compare` with the corrected gender rule, under which a neutral owner is compatible
      with every gender. */
  function CompareCorrected(self: User, other: User): (r: Result<real>)
    ensures r.Ok? ==> 0.0 <= r.value <= 1.0
    ensures r.Ok? ==> (r.value == 1.0 <==>
                        && self.age == other.age
                        && GenderScore(self, other) == 1.0
                        && GetDistance(self.district, other.district) == Ok(1.0))
  {
    CompareWith(self, other, GenderScore(self, other))
  }

  /** The corrected `compare` differs from the one as written exactly for a neutral owner
      compared with a profile of another gender, where it scores 0.1 higher; both fail in
      the same way. */
  lemma CompareCorrectedDiffers(self: User, other: User)
    requires ValidGender(self.gender)
    ensures CompareCorrected(self, other).Err? <==> Compare(self, other).Err?
    ensures Compare(self, other).Err? ==> CompareCorrected(self, other) == Compare(self, other)
    ensures CompareCorrected(self, other) != Compare(self, other) <==>
              Compare(self, other).Ok? && self.gender == "O" && other.gender != "O"
    ensures Compare(self, other).Ok? && self.gender == "O" && other.gender != "O" ==>
              CompareCorrected(self, other).value == Compare(self, other).value + 0.1
  {
    NeutralGenderCompatible(self, other);
    assert self.gender != "o";
  }

  /** Two profiles of equal age and gender in the same district are maximally similar. */
  lemma CompareSameProfile(self: User, other: User)
    requires self.age == other.age && self.gender == other.gender
    requires self.district.id == other.district.id
    ensures Compare(self, other) == Ok(1.0)
  {
  }
}
