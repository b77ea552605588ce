/** The entry store: start-up load (with demo seeding), the create operation
    that prepends a new entry, and the two statistics the store exposes.

    The wall clock, fresh ids, random draws, the stored blob, and the
    date/string conversions of the platform are parameters:
    - `now` is the current instant in epoch milliseconds;
    - `fmt(t)` is the ISO-8601 rendering of instant `t`;
    - `parse(s)` is the instant a date string denotes, or None for a string
      the platform reads as an invalid date. */
module MoodContext {
  import opened Types
  import opened Constants

  /** Milliseconds in a day, the spacing of the demo entries. */
  const DayMs: int := 86400000

  /** Number of demo entries seeded when nothing is stored. */
  const SeedCount: nat := 7

  datatype AddError =
    /** Rendering an invalid date as ISO text throws a range error. */
    InvalidDate

  // ---------------------------------------------------------------------
  // Create

  /** The instant a new entry is stamped with: the supplied date when it is
      a non-empty string (an empty string counts as absent), otherwise now. */
  function ResolveInstant(date: Option<string>, now: int, parse: string -> Option<int>): (t: Option<int>)
    ensures (date.None? || date == Some("")) ==> t == Some(now)
    ensures date.Some? && date.value != "" ==> t == parse(date.value)
  {
    match date
    case Some(s) => if s != "" then parse(s) else Some(now)
    case None => Some(now)
  }

  /** Creates an entry from `data` and prepends it. The new entry gets the id
      `freshId`, and its `date` and `timestamp` come from one resolved
      instant. When the supplied date cannot be read the platform throws
      before the list is touched; that is the `Err` result. */
  function AddEntry(prev: seq<MoodEntry>, data: EntryData, freshId: string,
                    date: Option<string>, now: int,
                    parse: string -> Option<int>, fmt: int -> string)
    : (r: Result<seq<MoodEntry>, AddError>)
    ensures r.Ok? ==>
              && |r.value| == |prev| + 1
              && r.value[1..] == prev
              && r.value[0].id == freshId
              && r.value[0].date == fmt(r.value[0].timestamp)
              && Carries(r.value[0], data)
    ensures (date.None? || date == Some("")) ==> r.Ok? && r.value[0].timestamp == now
    ensures date.Some? && date.value != "" ==>
              (r.Ok? <==> parse(date.value).Some?)
              && (r.Ok? ==> r.value[0].timestamp == parse(date.value).value)
  {
    match ResolveInstant(date, now, parse)
    case None => Err(InvalidDate)
    case Some(t) =>
      var e := MoodEntry(freshId, fmt(t), t, data.mood, data.energy, data.sleep,
                         data.activities, data.note, data.weather);
      Ok([e] + prev)
  }

  /** Every older entry keeps its position (shifted by one) and contents. */
  lemma AddEntryKeepsOlder(prev: seq<MoodEntry>, data: EntryData, freshId: string,
                           date: Option<string>, now: int,
                           parse: string -> Option<int>, fmt: int -> string)
    requires AddEntry(prev, data, freshId, date, now, parse, fmt).Ok?
    ensures var es := AddEntry(prev, data, freshId, date, now, parse, fmt).value;
            forall k :: 0 <= k < |prev| ==> es[k + 1] == prev[k]
  {
    var es := AddEntry(prev, data, freshId, date, now, parse, fmt).value;
    forall k | 0 <= k < |prev|
      ensures es[k + 1] == prev[k]
    {
      assert es[1..][k] == prev[k];
    }
  }

  /** A fresh id keeps the ids of the collection unique. */
  lemma AddEntryKeepsIdsDistinct(prev: seq<MoodEntry>, data: EntryData, freshId: string,
                                 date: Option<string>, now: int,
                                 parse: string -> Option<int>, fmt: int -> string)
    requires IdsDistinct(prev)
    requires forall e :: e in prev ==> e.id != freshId
    requires AddEntry(prev, data, freshId, date, now, parse, fmt).Ok?
    ensures IdsDistinct(AddEntry(prev, data, freshId, date, now, parse, fmt).value)
  {
    var es := AddEntry(prev, data, freshId, date, now, parse, fmt).value;
    forall i, j | 0 <= i < j < |es|
      ensures es[i].id != es[j].id
    {
      assert es[j] == prev[j - 1];
      if i == 0 {
        assert prev[j - 1] in prev;
      } else {
        assert es[i] == prev[i - 1];
      }
    }
  }

  /** The list stays newest-first by timestamp exactly when the new entry is
      no older than the previous front entry; a backdated save is still put
      at the front. */
  lemma AddEntryKeepsNewestFirst(prev: seq<MoodEntry>, data: EntryData, freshId: string,
                                 date: Option<string>, now: int,
                                 parse: string -> Option<int>, fmt: int -> string)
    requires NewestFirst(prev)
    requires AddEntry(prev, data, freshId, date, now, parse, fmt).Ok?
    ensures var es := AddEntry(prev, data, freshId, date, now, parse, fmt).value;
            NewestFirst(es) <==> (|prev| == 0 || es[0].timestamp >= prev[0].timestamp)
  {
    var es := AddEntry(prev, data, freshId, date, now, parse, fmt).value;
    if |prev| > 0 && es[0].timestamp >= prev[0].timestamp {
      forall i, j | 0 <= i < j < |es|
        ensures es[i].timestamp >= es[j].timestamp
      {
        assert es[j] == prev[j - 1];
        if i > 0 {
          assert es[i] == prev[i - 1];
        }
      }
    }
    if |prev| > 0 && NewestFirst(es) {
      assert es[1] == prev[0];
    }
  }

  // ---------------------------------------------------------------------
  // Statistics

  /** The streak shown on the dashboard. The loop visits every entry and the
      final cap is the collection length, so the result is the number of
      entries; no calendar-day check is made. */
  method RecentStreak(entries: seq<MoodEntry>) returns (streak: int)
    ensures streak == |entries|
    ensures |entries| == 0 ==> streak == 0
  {
    streak := 0;
    var i := 0;
    while i < |entries|
      invariant 0 <= i <= |entries|
      invariant streak == i
    {
      streak := streak + 1;
      i := i + 1;
    }
    streak := Min(streak, if |entries| > 0 then |entries| else 0);
  }

  /** The score weight of a mood. */
  function Weight(m: MoodType): (w: int)
    ensures 1 <= w <= 5
    ensures w == 5 <==> m == Great
    ensures w == 1 <==> m == Bad
  {
    match m
    case Great => 5
    case Good => 4
    case Okay => 3
    case Low => 2
    case Bad => 1
  }

  /** Catalogue position and score weight run in opposite directions. */
  lemma IndexMirrorsWeight(m: MoodType)
    ensures MoodIndex(m) == 5 - Weight(m)
    ensures 1 <= Weight(m) <= 5
  {
    MoodCatalogue(m);
  }

  /** Sum of the weights of all entries' moods. */
  function TotalWeight(es: seq<MoodEntry>): (t: int)
    ensures |es| <= t <= 5 * |es|
  {
    if |es| == 0 then 0 else Weight(es[0].mood) + TotalWeight(es[1..])
  }

  /** The mean mood weight scaled by 20 and rounded half up (Math.round), or
      0 for an empty collection. With n entries of total weight T the score r
      satisfies r - 1/2 <= 20T/n < r + 1/2; the contract states this
      multiplied through by 2n. */
  function AverageMoodScore(es: seq<MoodEntry>): (r: int)
    ensures |es| == 0 ==> r == 0
    ensures |es| > 0 ==>
              2 * |es| * r - |es| <= 40 * TotalWeight(es) < 2 * |es| * r + |es|
    ensures |es| > 0 ==> 20 <= r <= 100
  {
    if |es| == 0 then 0
    else
      var n, t := |es|, TotalWeight(es);
      var r := (40 * t + n) / (2 * n);
      RoundHalfUp(20 * t, n);
      ScoreBounds(t, n);
      r
  }

  /** Multiplying by a non-negative factor keeps order. */
  lemma {:induction false} MulMono(k: nat, x: int, y: int)
    requires x <= y
    ensures k * x <= k * y
  {
    if k > 0 {
      MulMono(k - 1, x, y);
      assert k * x == (k - 1) * x + x;
      assert k * y == (k - 1) * y + y;
    }
  }

  /** A lower bracket bounds integer division from below. */
  lemma DivLower(a: int, b: int, c: int)
    requires b > 0 && b * c <= a
    ensures c <= a / b
  {
    var d, m := a / b, a % b;
    assert a == b * d + m && 0 <= m < b;
    assert b * (d + 1) == b * d + b;
    if d + 1 <= c {
      MulMono(b, d + 1, c);
      assert false;
    }
  }

  /** An upper bracket bounds integer division from above. */
  lemma DivUpper(a: int, b: int, c: int)
    requires b > 0 && a < b * (c + 1)
    ensures a / b <= c
  {
    var d, m := a / b, a % b;
    assert a == b * d + m && 0 <= m < b;
    assert b * (c + 1) == b * c + b;
    if c + 1 <= d {
      MulMono(b, c + 1, d);
      assert false;
    }
  }

  /** q = (2a + b) div 2b is a/b rounded half up: q - 1/2 <= a/b < q + 1/2,
      multiplied through by 2b. */
  lemma RoundHalfUp(a: int, b: int)
    requires b > 0
    ensures var q := (2 * a + b) / (2 * b);
            2 * b * q - b <= 2 * a < 2 * b * q + b
  {
    var q := (2 * a + b) / (2 * b);
    var m := (2 * a + b) % (2 * b);
    assert 2 * a + b == 2 * b * q + m && 0 <= m < 2 * b;
  }

  /** With n entries the weight total lies in [n, 5n], so the score lies in
      [20, 100]. */
  lemma ScoreBounds(t: int, n: int)
    requires n > 0 && n <= t <= 5 * n
    ensures 20 <= (40 * t + n) / (2 * n) <= 100
  {
    DivLower(40 * t + n, 2 * n, 20);
    DivUpper(40 * t + n, 2 * n, 100);
  }

  /** Every entry Great gives the top score. */
  lemma {:induction false} AllGreatScores100(es: seq<MoodEntry>)
    requires |es| > 0
    requires forall k :: 0 <= k < |es| ==> es[k].mood == Great
    ensures AverageMoodScore(es) == 100
  {
    TotalOfUniform(es, Great);
    var n := |es|;
    DivLower(40 * (5 * n) + n, 2 * n, 100);
    DivUpper(40 * (5 * n) + n, 2 * n, 100);
  }

  /** Every entry Bad gives the bottom score. */
  lemma {:induction false} AllBadScores20(es: seq<MoodEntry>)
    requires |es| > 0
    requires forall k :: 0 <= k < |es| ==> es[k].mood == Bad
    ensures AverageMoodScore(es) == 20
  {
    TotalOfUniform(es, Bad);
    var n := |es|;
    DivLower(40 * n + n, 2 * n, 20);
    DivUpper(40 * n + n, 2 * n, 20);
  }

  lemma {:induction false} TotalOfUniform(es: seq<MoodEntry>, m: MoodType)
    requires forall k :: 0 <= k < |es| ==> es[k].mood == m
    ensures TotalWeight(es) == Weight(m) * |es|
  {
    if |es| > 0 {
      TotalOfUniform(es[1..], m);
    }
  }

  lemma {:induction false} TotalAppend(a: seq<MoodEntry>, b: seq<MoodEntry>)
    ensures TotalWeight(a + b) == TotalWeight(a) + TotalWeight(b)
  {
    if |a| > 0 {
      assert (a + b)[1..] == a[1..] + b;
      TotalAppend(a[1..], b);
    } else {
      assert a + b == b;
    }
  }

  /** Taking one entry out of the list takes its weight out of the total. */
  lemma {:induction false} TotalRemoveAt(b: seq<MoodEntry>, j: int)
    requires 0 <= j < |b|
    ensures TotalWeight(b) == Weight(b[j].mood) + TotalWeight(b[..j] + b[j + 1..])
  {
    var left, right := b[..j], b[j + 1..];
    var tail := [b[j]] + right;
    assert b == left + tail;
    assert tail[0] == b[j] && tail[1..] == right;
    assert TotalWeight(tail) == Weight(b[j].mood) + TotalWeight(right);
    TotalAppend(left, tail);
    TotalAppend(left, right);
  }

  /** Matching the head of one list with position j of an equal-multiset
      list leaves equal multisets behind. */
  lemma MultisetRemoveMatch<T>(a: seq<T>, b: seq<T>, j: int)
    requires multiset(a) == multiset(b)
    requires |a| > 0 && 0 <= j < |b| && b[j] == a[0]
    ensures multiset(a[1..]) == multiset(b[..j] + b[j + 1..])
  {
    assert a == [a[0]] + a[1..];
    assert b == b[..j] + [b[j]] + b[j + 1..];
    assert multiset(a[1..]) == multiset(a) - multiset{a[0]};
    assert multiset(b[..j] + b[j + 1..]) == multiset(b) - multiset{b[j]};
  }

  /** The weight total depends only on which entries occur, not their order. */
  lemma {:induction false} TotalIsOrderFree(a: seq<MoodEntry>, b: seq<MoodEntry>)
    requires multiset(a) == multiset(b)
    ensures TotalWeight(a) == TotalWeight(b)
    decreases |a|
  {
    if |a| == 0 {
      assert |b| == |multiset(b)| == 0;
    } else {
      assert a[0] in multiset(b);
      var j :| 0 <= j < |b| && b[j] == a[0];
      MultisetRemoveMatch(a, b, j);
      TotalIsOrderFree(a[1..], b[..j] + b[j + 1..]);
      TotalRemoveAt(b, j);
    }
  }

  /** Reordering the collection does not change the score. */
  lemma ScoreIsOrderFree(a: seq<MoodEntry>, b: seq<MoodEntry>)
    requires multiset(a) == multiset(b)
    ensures AverageMoodScore(a) == AverageMoodScore(b)
  {
    TotalIsOrderFree(a, b);
    assert |a| == |multiset(a)| == |multiset(b)| == |b|;
  }

  // ---------------------------------------------------------------------
  // Start-up load

  /** The mood of demo entry i. */
  function SeedMood(i: nat): MoodType {
    if i % 2 == 0 then Great else if i % 3 == 0 then Good else Okay
  }

  /** The id `seed-i` of demo entry i (a single decimal digit here). */
  function SeedId(i: nat): string
    requires i < 10
  {
    "seed-" + [('0' as int + i) as char]
  }

  /** Demo entry i. `draws` are the random numbers drawn in order: energy
      then sleep for each entry. */
  function SeedEntry(i: nat, now: int, fmt: int -> string, draws: seq<real>): MoodEntry
    requires i < SeedCount && |draws| == 2 * SeedCount
  {
    var t := now - i * DayMs;
    MoodEntry(SeedId(i), fmt(t), t, SeedMood(i),
              60.0 + draws[2 * i] * 30.0, 6.0 + draws[2 * i + 1] * 3.0,
              ["work", "exercise"], "Generated sample entry", None)
  }

  /** The seven demo entries, one per day going back from now. */
  function SeedEntries(now: int, fmt: int -> string, draws: seq<real>): (r: seq<MoodEntry>)
    requires |draws| == 2 * SeedCount
    ensures |r| == SeedCount
    ensures forall i :: 0 <= i < |r| ==> r[i].timestamp == now - i * DayMs
    ensures forall i :: 0 <= i < |r| ==> r[i].date == fmt(r[i].timestamp)
    ensures (forall k :: 0 <= k < |draws| ==> 0.0 <= draws[k] < 1.0) ==>
              forall i :: 0 <= i < |r| ==>
                60.0 <= r[i].energy < 90.0 && 6.0 <= r[i].sleep < 9.0
  {
    seq(SeedCount, i requires 0 <= i < SeedCount => SeedEntry(i, now, fmt, draws))
  }

  lemma SeedIdsDistinct(now: int, fmt: int -> string, draws: seq<real>)
    requires |draws| == 2 * SeedCount
    ensures IdsDistinct(SeedEntries(now, fmt, draws))
  {
    var r := SeedEntries(now, fmt, draws);
    forall i, j | 0 <= i < j < |r|
      ensures r[i].id != r[j].id
    {
      assert r[i].id == SeedId(i) && r[j].id == SeedId(j);
      assert SeedId(i)[5] != SeedId(j)[5];
    }
  }

  lemma SeedTimestampsDecrease(now: int, fmt: int -> string, draws: seq<real>)
    requires |draws| == 2 * SeedCount
    ensures var r := SeedEntries(now, fmt, draws);
            forall i, j :: 0 <= i < j < |r| ==> r[i].timestamp > r[j].timestamp
  {
    var r := SeedEntries(now, fmt, draws);
    forall i, j | 0 <= i < j < |r|
      ensures r[i].timestamp > r[j].timestamp
    {
      assert i * DayMs < j * DayMs;
    }
  }

  /** The demo entries have ids seed-0 .. seed-6, pairwise distinct, strictly
      decreasing timestamps, the moods Great, Okay, Great, Good, Great, Okay,
      Great, and the fixed activities `work` and `exercise`, the fixed note
      and no weather. */
  lemma SeedShape(now: int, fmt: int -> string, draws: seq<real>)
    requires |draws| == 2 * SeedCount
    ensures var r := SeedEntries(now, fmt, draws);
            && (forall i :: 0 <= i < |r| ==> r[i].id == "seed-" + [('0' as int + i) as char])
            && IdsDistinct(r)
            && (forall i, j :: 0 <= i < j < |r| ==> r[i].timestamp > r[j].timestamp)
            && NewestFirst(r)
            && (forall i :: 0 <= i < |r| ==> r[i].mood == [Great, Okay, Great, Good, Great, Okay, Great][i])
            && (forall i, a :: 0 <= i < |r| && a in r[i].activities ==> a in Activities)
            && (forall i :: 0 <= i < |r| ==>
                  && r[i].activities == ["work", "exercise"]
                  && r[i].note == "Generated sample entry"
                  && r[i].weather.None?)
  {
    SeedIdsDistinct(now, fmt, draws);
    SeedTimestampsDecrease(now, fmt, draws);
  }

  /** The outcome of the start-up load: the initial collection, and whether
      a parse failure was logged. */
  datatype Loaded = Loaded(entries: seq<MoodEntry>, loggedParseError: bool)

  /** Start-up load. A missing or empty stored blob seeds the demo entries;
      a blob that parses becomes the collection; a malformed blob is logged
      and the collection keeps its initial empty value. */
  function Load(stored: Option<string>, parseBlob: string -> Option<seq<MoodEntry>>,
                now: int, fmt: int -> string, draws: seq<real>): (r: Loaded)
    requires |draws| == 2 * SeedCount
    ensures (stored.None? || stored == Some("")) ==>
              r.entries == SeedEntries(now, fmt, draws) && !r.loggedParseError
    ensures stored.Some? && stored.value != "" && parseBlob(stored.value).Some? ==>
              r.entries == parseBlob(stored.value).value && !r.loggedParseError
    ensures stored.Some? && stored.value != "" && parseBlob(stored.value).None? ==>
              r.entries == [] && r.loggedParseError
  {
    match stored
    case Some(s) =>
      if s != "" then
        match parseBlob(s)
        case Some(es) => Loaded(es, false)
        case None => Loaded([], true)
      else Loaded(SeedEntries(now, fmt, draws), false)
    case None => Loaded(SeedEntries(now, fmt, draws), false)
  }

  /** A journal that starts with nothing stored shows seven entries, newest
      first, with distinct ids. */
  lemma FirstRunSeeds(now: int, parseBlob: string -> Option<seq<MoodEntry>>,
                      fmt: int -> string, draws: seq<real>)
    requires |draws| == 2 * SeedCount
    ensures var es := Load(None, parseBlob, now, fmt, draws).entries;
            |es| == 7 && NewestFirst(es) && IdsDistinct(es) && es[0].timestamp == now
  {
    SeedShape(now, fmt, draws);
  }
}
