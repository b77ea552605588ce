/** The journal's record types: the five moods, one stored entry, and the
    partial entry a caller hands to the store. */
module Types {

  /** The closed set of moods a user can record. */
  datatype MoodType = Great | Good | Okay | Low | Bad

  datatype Option<+T> = None | Some(value: T)

  datatype Result<+T, +E> = Ok(value: T) | Err(error: E)

  /** Optional weather annotation of an entry. */
  datatype Weather = Weather(temp: real, condition: string)

  /** One journal entry. `date` is the ISO-8601 rendering of the instant whose
      epoch-millisecond value is `timestamp`. `energy` is documented as 0..100
      and `sleep` as hours; neither range is enforced by the store. */
  datatype MoodEntry = MoodEntry(
    id: string,
    date: string,
    timestamp: int,
    mood: MoodType,
    energy: real,
    sleep: real,
    activities: seq<string>,
    note: string,
    weather: Option<Weather>)

  /** An entry without `id`, `date` and `timestamp`: what a caller hands to
      the store's create operation. */
  datatype EntryData = EntryData(
    mood: MoodType,
    energy: real,
    sleep: real,
    activities: seq<string>,
    note: string,
    weather: Option<Weather>)

  /** `e` carries every caller-supplied field of `d` unchanged. */
  predicate Carries(e: MoodEntry, d: EntryData) {
    && e.mood == d.mood
    && e.energy == d.energy
    && e.sleep == d.sleep
    && e.activities == d.activities
    && e.note == d.note
    && e.weather == d.weather
  }

  /** No two entries share an id. */
  predicate IdsDistinct(es: seq<MoodEntry>) {
    forall i, j :: 0 <= i < j < |es| ==> es[i].id != es[j].id
  }

  /** Timestamps never increase from the front of the list to the back. */
  predicate NewestFirst(es: seq<MoodEntry>) {
    forall i, j :: 0 <= i < j < |es| ==> es[i].timestamp >= es[j].timestamp
  }

  /** The smaller of two integers. */
  function Min(a: int, b: int): int {
    if a <= b then a else b
  }

  /** No string occurs twice. */
  predicate NoDup(s: seq<string>) {
    forall i, j :: 0 <= i < j < |s| ==> s[i] != s[j]
  }
}
