/** Values the dashboard derives from the entry list: the seven-point mood
    chart, the dominant mood, the timeline's mood lookup and the activity
    tags it renders. The chart's weekday label is a locale rendering of the
    entry's date, so it is a parameter `dayName`. */
module Dashboard {
  import opened Types
  import opened Constants
  import MoodContext

  /** How many of the newest entries the chart shows. */
  const ChartWindow: nat := 7

  datatype ChartPoint = ChartPoint(name: string, value: int)

  function Reverse<T>(s: seq<T>): (r: seq<T>)
    ensures |r| == |s|
    ensures forall k :: 0 <= k < |s| ==> r[k] == s[|s| - 1 - k]
  {
    if |s| == 0 then [] else Reverse(s[1..]) + [s[0]]
  }

  /** The chart height of a mood: its catalogue position times 20, plus 20.
      The scale runs opposite to the score weights: Great is lowest. */
  function ChartValue(m: MoodType): (v: int)
    ensures 20 <= v <= 100
  {
    MoodCatalogue(m);
    MoodIndex(m) * 20 + 20
  }

  /** Great charts at 20, Good 40, Okay 60, Low 80, Bad 100: a multiple of 20
      in [20, 100], and the mirror image of the score weight. */
  lemma ChartScale(m: MoodType)
    ensures ChartValue(m) == 120 - 20 * MoodContext.Weight(m)
    ensures 20 <= ChartValue(m) <= 100 && ChartValue(m) % 20 == 0
  {
    MoodContext.IndexMirrorsWeight(m);
    var w := MoodContext.Weight(m);
    assert ChartValue(m) == 20 * (6 - w);
  }

  /** The entries the chart is drawn from: the newest seven, oldest first. */
  function ChartSources(entries: seq<MoodEntry>): (r: seq<MoodEntry>)
    ensures |r| == Min(ChartWindow, |entries|)
    ensures forall k :: 0 <= k < |r| ==> r[k] == entries[|r| - 1 - k]
  {
    Reverse(entries[..Min(ChartWindow, |entries|)])
  }

  function Point(e: MoodEntry, dayName: MoodEntry -> string): ChartPoint {
    ChartPoint(dayName(e), ChartValue(e.mood))
  }

  function Points(src: seq<MoodEntry>, dayName: MoodEntry -> string): seq<ChartPoint> {
    seq(|src|, k requires 0 <= k < |src| => Point(src[k], dayName))
  }

  /** The chart series: one point per source entry, labelled by `dayName` and
      valued on the chart scale. */
  function ChartData(entries: seq<MoodEntry>, dayName: MoodEntry -> string): (r: seq<ChartPoint>)
    ensures |r| == Min(ChartWindow, |entries|)
    ensures forall k :: 0 <= k < |r| ==>
              var e := entries[|r| - 1 - k];
              r[k] == ChartPoint(dayName(e), ChartValue(e.mood))
  {
    Points(ChartSources(entries), dayName)
  }

  /** For a newest-first list the chart runs oldest to newest. */
  lemma ChartIsChronological(entries: seq<MoodEntry>)
    requires NewestFirst(entries)
    ensures var src := ChartSources(entries);
            forall j, k :: 0 <= j < k < |src| ==> src[j].timestamp <= src[k].timestamp
  {
  }

  /** Prepending an entry makes it the chart's last source, after the
      previous newest six in chronological order. */
  lemma ChartSourcesAfterAdd(prev: seq<MoodEntry>, e: MoodEntry)
    ensures ChartSources([e] + prev)
            == ChartSources(prev[..Min(ChartWindow - 1, |prev|)]) + [e]
  {
    var m := Min(ChartWindow - 1, |prev|);
    var lhs := ChartSources([e] + prev);
    var rhs := ChartSources(prev[..m]) + [e];
    assert |lhs| == m + 1 == |rhs|;
    forall k | 0 <= k < m + 1
      ensures lhs[k] == rhs[k]
    {
      if k < m {
        assert lhs[k] == ([e] + prev)[m - k] == prev[m - 1 - k];
        assert rhs[k] == prev[..m][m - 1 - k];
      }
    }
  }

  lemma PointsAppend(a: seq<MoodEntry>, e: MoodEntry, dayName: MoodEntry -> string)
    ensures Points(a + [e], dayName) == Points(a, dayName) + [Point(e, dayName)]
  {
    var lhs := Points(a + [e], dayName);
    var rhs := Points(a, dayName) + [Point(e, dayName)];
    assert |lhs| == |rhs|;
    forall k | 0 <= k < |lhs|
      ensures lhs[k] == rhs[k]
    {
      if k < |a| {
        assert (a + [e])[k] == a[k];
      }
    }
  }

  /** The chart of the list after a new entry ends with the new entry's
      point, and keeps the previous list's newest six before it. */
  lemma ChartAfterAdd(prev: seq<MoodEntry>, e: MoodEntry, dayName: MoodEntry -> string)
    ensures ChartData([e] + prev, dayName)
            == ChartData(prev[..Min(ChartWindow - 1, |prev|)], dayName)
               + [ChartPoint(dayName(e), ChartValue(e.mood))]
  {
    var m := Min(ChartWindow - 1, |prev|);
    ChartSourcesAfterAdd(prev, e);
    PointsAppend(ChartSources(prev[..m]), e, dayName);
  }

  /** The mood headlined on the dashboard: the newest entry's, or Okay. */
  function DominantMood(entries: seq<MoodEntry>): (d: MoodType)
    ensures |entries| > 0 ==> d == entries[0].mood
    ensures |entries| == 0 ==> d == Moods[2]
  {
    if |entries| > 0 then entries[0].mood else Okay
  }

  /** After a successful save the dashboard headlines the saved mood, and an
      empty journal headlines the mood the logger starts on. */
  lemma DominantMoodFollowsAdd(prev: seq<MoodEntry>, data: EntryData, freshId: string,
                               date: Option<string>, now: int,
                               parse: string -> Option<int>, fmt: int -> string)
    requires MoodContext.AddEntry(prev, data, freshId, date, now, parse, fmt).Ok?
    ensures DominantMood(MoodContext.AddEntry(prev, data, freshId, date, now, parse, fmt).value)
            == data.mood
    ensures DominantMood([]) == Moods[2]
  {
  }

  /** `find` by type over a catalogue, falling back to the catalogue's third
      definition when no type matches. */
  function FindOrThird(catalogue: seq<MoodType>, m: MoodType): (d: MoodType)
    requires |catalogue| > 2
    ensures m in catalogue ==> d == m
    ensures m !in catalogue ==> d == catalogue[2]
  {
    var k := FindIndex(catalogue, m);
    if k >= 0 then catalogue[k] else catalogue[2]
  }

  /** The timeline's lookup of an entry's mood definition. */
  function TimelineMood(m: MoodType): MoodType {
    FindOrThird(Moods, m)
  }

  /** The timeline's fallback is never taken: every entry is shown with its
      own mood's definition. */
  lemma TimelineShowsOwnMood(m: MoodType)
    ensures TimelineMood(m) == m
  {
    MoodCatalogue(m);
  }

  /** The ids of `ids` that occur in `known`, in the order of `ids`. */
  function KeepKnown(ids: seq<string>, known: seq<string>): (r: seq<string>)
    ensures forall x :: multiset(r)[x] == if x in known then multiset(ids)[x] else 0
    ensures forall x :: x in r <==> x in ids && x in known
  {
    if |ids| == 0 then []
    else
      assert ids == [ids[0]] + ids[1..];
      var rest := KeepKnown(ids[1..], known);
      if ids[0] in known then [ids[0]] + rest else rest
  }

  /** The activity tags rendered for an entry: its ids that name a catalogue
      activity, in the entry's order; unknown ids are dropped. */
  function RenderedActivities(ids: seq<string>): (r: seq<string>)
    ensures forall x :: x in r <==> x in ids && x in Activities
  {
    KeepKnown(ids, Activities)
  }

  /** Filtering distributes over concatenation, so tags keep their order. */
  lemma {:induction false} KeepKnownKeepsOrder(a: seq<string>, b: seq<string>, known: seq<string>)
    ensures KeepKnown(a + b, known) == KeepKnown(a, known) + KeepKnown(b, known)
  {
    if |a| > 0 {
      assert (a + b)[0] == a[0];
      assert (a + b)[1..] == a[1..] + b;
      KeepKnownKeepsOrder(a[1..], b, known);
    } else {
      assert a + b == b;
    }
  }

  /** Rendering keeps the entry's order: the tags of a concatenation are the
      tags of each part, one after the other. */
  lemma RenderedKeepsOrder(a: seq<string>, b: seq<string>)
    ensures RenderedActivities(a + b) == RenderedActivities(a) + RenderedActivities(b)
  {
    KeepKnownKeepsOrder(a, b, Activities);
  }

  lemma {:induction false} KeepKnownAllKnown(ids: seq<string>, known: seq<string>)
    requires forall k :: 0 <= k < |ids| ==> ids[k] in known
    ensures KeepKnown(ids, known) == ids
  {
    if |ids| > 0 {
      KeepKnownAllKnown(ids[1..], known);
    }
  }

  /** An entry whose ids are all catalogue activities renders every one of
      them, in order. */
  lemma RenderedAllKnown(ids: seq<string>)
    requires forall k :: 0 <= k < |ids| ==> ids[k] in Activities
    ensures RenderedActivities(ids) == ids
  {
    KeepKnownAllKnown(ids, Activities);
  }
}
