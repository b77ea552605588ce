/** The static catalogues: the mood definitions (type keys only, in display
    order, which is also the order the chart scale is read from) and the
    activity tags (ids only). */
module Constants {
  import opened Types

  /** The mood catalogue's type keys, in catalogue order. */
  const Moods: seq<MoodType> := [Great, Good, Okay, Low, Bad]

  /** The activity catalogue's ids, in catalogue order. */
  const Activities: seq<string> :=
    ["work", "exercise", "social", "gaming", "reading", "movies", "date"]

  /** `findIndex` with a type test: the first position of `m` in `s`, or -1
      when `m` does not occur. */
  function FindIndex(s: seq<MoodType>, m: MoodType): (r: int)
    ensures -1 <= r < |s|
    ensures r == -1 <==> m !in s
    ensures r >= 0 ==> s[r] == m && forall k :: 0 <= k < r ==> s[k] != m
  {
    if |s| == 0 then -1
    else if s[0] == m then 0
    else
      var k := FindIndex(s[1..], m);
      if k == -1 then -1 else k + 1
  }

  /** The catalogue position of a mood. */
  function MoodIndex(m: MoodType): int {
    FindIndex(Moods, m)
  }

  /** The catalogue holds five definitions, Great, Good, Okay, Low, Bad in
      that order, each type exactly once; so the position lookup never fails
      and the definition at position 2 is Okay. */
  lemma MoodCatalogue(m: MoodType)
    ensures |Moods| == 5
    ensures Moods[2] == Okay
    ensures multiset(Moods)[m] == 1
    ensures 0 <= MoodIndex(m) < |Moods| && Moods[MoodIndex(m)] == m
    ensures MoodIndex(m) == match m
                            case Great => 0
                            case Good => 1
                            case Okay => 2
                            case Low => 3
                            case Bad => 4
  {
  }

  /** The activity catalogue holds seven pairwise-distinct ids, among them
      `work` and `exercise`. */
  lemma ActivityCatalogue()
    ensures |Activities| == 7
    ensures NoDup(Activities)
    ensures "work" in Activities && "exercise" in Activities
  {
  }
}
