/** The logger form: a mood carousel over the catalogue, an energy slider,
    activity toggles, a sleep stepper, a date picker, and the save that hands
    the form's values to the store.

    Sleep is kept in whole half-hours (the stepper's unit), so 14 stands for
    7 hours; the value saved is that count halved. The selected date is an
    instant in epoch milliseconds; turning the picker's `yyyy-mm-dd` text
    into an instant is a parameter `fromInput`. */
module Logger {
  import opened Types
  import opened Constants
  import MoodContext

  /** The carousel starts on the third definition, Okay. */
  const InitialMoodIndex: int := 2
  const InitialEnergy: int := 75
  /** Seven hours. */
  const InitialSleepHalves: int := 14
  /** Twenty-four hours, the stepper's upper stop. */
  const MaxSleepHalves: int := 48

  datatype Form = Form(
    moodIndex: int,
    energy: int,
    sleepHalves: int,
    selected: seq<string>,
    selectedDate: int)

  /** The form as it opens on day `today`. */
  function Initial(today: int): (f: Form)
    ensures Valid(f)
    ensures f.selectedDate == today
  {
    Form(InitialMoodIndex, InitialEnergy, InitialSleepHalves, [], today)
  }

  // ---------------------------------------------------------------------
  // Mood carousel

  /** Step right, wrapping from the last definition to the first. */
  function HandleNext(i: int): (r: int)
    ensures 0 <= i < |Moods| ==> 0 <= r < |Moods| && r == (i + 1) % |Moods|
  {
    if i < |Moods| - 1 then i + 1 else 0
  }

  /** Step left, wrapping from the first definition to the last. */
  function HandlePrev(i: int): (r: int)
    ensures 0 <= i < |Moods| ==> 0 <= r < |Moods| && r == (i + |Moods| - 1) % |Moods|
  {
    if i > 0 then i - 1 else |Moods| - 1
  }

  /** Left undoes right and right undoes left. */
  lemma PrevNextInverse(i: int)
    requires 0 <= i < |Moods|
    ensures HandlePrev(HandleNext(i)) == i
    ensures HandleNext(HandlePrev(i)) == i
  {
  }

  /** `k` steps right from `i`. */
  function NextTimes(i: int, k: nat): int {
    if k == 0 then i else HandleNext(NextTimes(i, k - 1))
  }

  /** `k` steps right is a rotation by `k`. */
  lemma {:induction false} NextTimesRotates(i: int, k: nat)
    requires 0 <= i < |Moods|
    ensures NextTimes(i, k) == (i + k) % |Moods|
  {
    if k > 0 {
      NextTimesRotates(i, k - 1);
    }
  }

  /** Five steps right come back to the start. */
  lemma FiveNextsReturn(i: int)
    requires 0 <= i < |Moods|
    ensures NextTimes(i, |Moods|) == i
  {
    NextTimesRotates(i, |Moods|);
  }

  // ---------------------------------------------------------------------
  // Activities

  /** `s` with every occurrence of `id` removed: every other id keeps its
      count, and `id` is gone. */
  function Without(s: seq<string>, id: string): (r: seq<string>)
    ensures forall x :: multiset(r)[x] == if x == id then 0 else multiset(s)[x]
    ensures forall x :: x in r <==> x in s && x != id
    ensures NoDup(s) ==> NoDup(r)
  {
    if |s| == 0 then []
    else
      assert s == [s[0]] + s[1..];
      var rest := Without(s[1..], id);
      if s[0] == id then rest
      else
        assert NoDup(s) ==> NoDup(s[1..]) && s[0] !in s[1..];
        [s[0]] + rest
  }

  /** Removal distributes over concatenation, so the other ids keep their
      order. */
  lemma {:induction false} WithoutConcat(a: seq<string>, b: seq<string>, id: string)
    ensures Without(a + b, id) == Without(a, id) + Without(b, id)
  {
    if |a| > 0 {
      assert (a + b)[0] == a[0];
      assert (a + b)[1..] == a[1..] + b;
      WithoutConcat(a[1..], b, id);
    } else {
      assert a + b == b;
    }
  }

  /** Removing an id that does not occur changes nothing. */
  lemma {:induction false} WithoutAbsent(s: seq<string>, id: string)
    requires id !in s
    ensures Without(s, id) == s
  {
    if |s| > 0 {
      WithoutAbsent(s[1..], id);
    }
  }

  lemma WithoutAppended(s: seq<string>, id: string)
    requires id !in s
    ensures Without(s + [id], id) == s
  {
    WithoutConcat(s, [id], id);
    WithoutAbsent(s, id);
    assert [id][1..] == [];
  }

  /** Select an unselected activity, at the end, or deselect a selected one;
      either way the other ids keep their order and count. */
  function ToggleActivity(prev: seq<string>, id: string): (r: seq<string>)
    ensures id in r <==> id !in prev
    ensures Without(r, id) == Without(prev, id)
    ensures id !in prev ==> |r| == |prev| + 1 && r[|r| - 1] == id
    ensures NoDup(prev) ==> NoDup(r)
  {
    if id in prev then
      WithoutAbsent(Without(prev, id), id);
      Without(prev, id)
    else
      WithoutAppended(prev, id);
      WithoutAbsent(prev, id);
      prev + [id]
  }

  /** Toggling an unselected activity twice restores the selection; toggling
      a selected one twice moves it to the end. */
  lemma ToggleTwice(prev: seq<string>, id: string)
    ensures id !in prev ==> ToggleActivity(ToggleActivity(prev, id), id) == prev
    ensures id in prev ==> ToggleActivity(ToggleActivity(prev, id), id) == Without(prev, id) + [id]
  {
    if id !in prev {
      WithoutAppended(prev, id);
    }
  }

  // ---------------------------------------------------------------------
  // Sleep stepper

  /** The minus button: half an hour less, stopping at zero. */
  function SleepDown(h: int): (r: int)
    ensures 0 <= h ==> 0 <= r <= h
    ensures 0 < h ==> r < h
  {
    if h - 1 > 0 then h - 1 else 0
  }

  /** The plus button: half an hour more, stopping at 24 hours. */
  function SleepUp(h: int): (r: int)
    ensures h <= MaxSleepHalves ==> h <= r <= MaxSleepHalves
    ensures h < MaxSleepHalves ==> r > h
  {
    if h + 1 < MaxSleepHalves then h + 1 else MaxSleepHalves
  }

  /** `k` presses of minus from `h`. */
  function DownTimes(h: int, k: nat): int {
    if k == 0 then h else SleepDown(DownTimes(h, k - 1))
  }

  /** `k` presses of plus from `h`. */
  function UpTimes(h: int, k: nat): int {
    if k == 0 then h else SleepUp(UpTimes(h, k - 1))
  }

  /** Each press of minus takes off one half-hour until sleep reaches zero. */
  lemma {:induction false} DownTimesSaturates(h: int, k: nat)
    requires 0 <= h
    ensures DownTimes(h, k) == if h - k > 0 then h - k else 0
  {
    if k > 0 {
      DownTimesSaturates(h, k - 1);
    }
  }

  /** Each press of plus adds one half-hour until sleep reaches 24 hours. */
  lemma {:induction false} UpTimesSaturates(h: int, k: nat)
    requires h <= MaxSleepHalves
    ensures UpTimes(h, k) == if h + k < MaxSleepHalves then h + k else MaxSleepHalves
  {
    if k > 0 {
      UpTimesSaturates(h, k - 1);
    }
  }

  /** Inside the range each button undoes the other; at the stops they
      saturate. */
  lemma SleepStepsInverse(h: int)
    ensures 0 < h <= MaxSleepHalves ==> SleepUp(SleepDown(h)) == h
    ensures 0 <= h < MaxSleepHalves ==> SleepDown(SleepUp(h)) == h
    ensures SleepDown(0) == 0 && SleepUp(MaxSleepHalves) == MaxSleepHalves
  {
  }

  // ---------------------------------------------------------------------
  // Energy

  /** The badge beside the energy slider. */
  function EnergyLabel(e: int): (l: string)
    ensures l == "High" <==> e > 80
    ensures l == "Moderate" <==> 40 < e <= 80
    ensures l == "Low" <==> e <= 40
  {
    if e > 80 then "High" else if e > 40 then "Moderate" else "Low"
  }

  function EnergyRank(l: string): int {
    if l == "High" then 2 else if l == "Moderate" then 1 else 0
  }

  /** More energy never gives a lower badge. */
  lemma EnergyLabelMonotone(e1: int, e2: int)
    requires e1 <= e2
    ensures EnergyRank(EnergyLabel(e1)) <= EnergyRank(EnergyLabel(e2))
  {
  }

  // ---------------------------------------------------------------------
  // Form events

  /** The date picker: an empty value (a cleared picker) changes nothing. */
  function HandleDateChange(selected: int, value: string, fromInput: string -> int): (d: int)
    ensures value == "" ==> d == selected
    ensures value != "" ==> d == fromInput(value)
  {
    if value != "" then fromInput(value) else selected
  }

  /** The picker keeps only the last non-empty value: picking it again
      changes nothing, and a later non-empty pick overrides an earlier one. */
  lemma DateChangeSettles(selected: int, v: string, w: string, fromInput: string -> int)
    ensures HandleDateChange(HandleDateChange(selected, v, fromInput), v, fromInput)
            == HandleDateChange(selected, v, fromInput)
    ensures w != "" ==>
              HandleDateChange(HandleDateChange(selected, v, fromInput), w, fromInput)
              == HandleDateChange(selected, w, fromInput)
  {
  }

  datatype Event =
    | Prev
    | Next
    | SetEnergy(level: int)
    | Toggle(id: string)
    | SleepMinus
    | SleepPlus
    | DateChange(value: string)

  /** One user action. Each handler sets only its own piece of form state. */
  function Step(f: Form, ev: Event, fromInput: string -> int): (g: Form)
    ensures !(ev.Prev? || ev.Next?) ==> g.moodIndex == f.moodIndex
    ensures !ev.SetEnergy? ==> g.energy == f.energy
    ensures !ev.Toggle? ==> g.selected == f.selected
    ensures !(ev.SleepMinus? || ev.SleepPlus?) ==> g.sleepHalves == f.sleepHalves
    ensures !ev.DateChange? ==> g.selectedDate == f.selectedDate
  {
    match ev
    case Prev => f.(moodIndex := HandlePrev(f.moodIndex))
    case Next => f.(moodIndex := HandleNext(f.moodIndex))
    case SetEnergy(v) => f.(energy := v)
    case Toggle(id) => f.(selected := ToggleActivity(f.selected, id))
    case SleepMinus => f.(sleepHalves := SleepDown(f.sleepHalves))
    case SleepPlus => f.(sleepHalves := SleepUp(f.sleepHalves))
    case DateChange(v) => f.(selectedDate := HandleDateChange(f.selectedDate, v, fromInput))
  }

  function Run(f: Form, evs: seq<Event>, fromInput: string -> int): Form
    decreases |evs|
  {
    if |evs| == 0 then f else Run(Step(f, evs[0], fromInput), evs[1..], fromInput)
  }

  /** A form state the screen can show: a catalogue position, a slider
      value, a sleep count within the stepper's stops, no activity twice. */
  predicate Valid(f: Form) {
    && 0 <= f.moodIndex < |Moods|
    && 0 <= f.energy <= 100
    && 0 <= f.sleepHalves <= MaxSleepHalves
    && NoDup(f.selected)
  }

  /** The slider only produces values between its min and max. */
  predicate FromSlider(ev: Event) {
    ev.SetEnergy? ==> 0 <= ev.level <= 100
  }

  /** The form opens valid, on Okay, with energy 75, 7 hours of sleep and
      no activities selected. */
  lemma InitialForm(today: int)
    ensures Valid(Initial(today))
    ensures Moods[Initial(today).moodIndex] == Okay
    ensures Initial(today).energy == 75
    ensures Initial(today).sleepHalves * 30 == 7 * 60
    ensures Initial(today).selected == []
  {
  }

  /** Clearing the date picker leaves the whole form unchanged. */
  lemma EmptyDateChangeKeepsForm(f: Form, fromInput: string -> int)
    ensures Step(f, DateChange(""), fromInput) == f
  {
  }

  lemma StepKeepsValid(f: Form, ev: Event, fromInput: string -> int)
    requires Valid(f) && FromSlider(ev)
    ensures Valid(Step(f, ev, fromInput))
  {
  }

  /** Whatever the user does, the form stays valid. */
  lemma {:induction false} RunKeepsValid(f: Form, evs: seq<Event>, fromInput: string -> int)
    requires Valid(f)
    requires forall k :: 0 <= k < |evs| ==> FromSlider(evs[k])
    ensures Valid(Run(f, evs, fromInput))
    decreases |evs|
  {
    if |evs| > 0 {
      StepKeepsValid(f, evs[0], fromInput);
      RunKeepsValid(Step(f, evs[0], fromInput), evs[1..], fromInput);
    }
  }

  // ---------------------------------------------------------------------
  // Save

  /** The values the save hands to the store; the note is always empty. */
  function SaveRecord(f: Form): (d: EntryData)
    requires 0 <= f.moodIndex < |Moods|
    ensures d.mood == Moods[f.moodIndex] && MoodIndex(d.mood) == f.moodIndex
    ensures d.energy == f.energy as real
    ensures d.sleep * 2.0 == f.sleepHalves as real
    ensures d.activities == f.selected && d.note == "" && d.weather.None?
  {
    MoodCatalogue(Moods[f.moodIndex]);
    EntryData(Moods[f.moodIndex], f.energy as real, (f.sleepHalves as real) / 2.0,
              f.selected, "", None)
  }

  /** The save: creates an entry from the form, dated by the selected date's
      ISO rendering. */
  function Save(f: Form, entries: seq<MoodEntry>, freshId: string, now: int,
                parse: string -> Option<int>, fmt: int -> string)
    : (r: Result<seq<MoodEntry>, MoodContext.AddError>)
    requires 0 <= f.moodIndex < |Moods|
    ensures r.Err? <==> fmt(f.selectedDate) != "" && parse(fmt(f.selectedDate)).None?
    ensures r.Ok? ==>
              && |r.value| == |entries| + 1
              && r.value[1..] == entries
              && r.value[0].id == freshId
              && Carries(r.value[0], SaveRecord(f))
  {
    MoodContext.AddEntry(entries, SaveRecord(f), freshId, Some(fmt(f.selectedDate)), now, parse, fmt)
  }

  /** Saving a valid form whose date renders and reads back faithfully puts
      one entry in front of the journal: the shown mood, the slider energy,
      the stepper's sleep in hours, the selected activities (no duplicates),
      an empty note, no weather, stamped with the selected date. */
  lemma SaveRecordsForm(f: Form, entries: seq<MoodEntry>, freshId: string, now: int,
                        parse: string -> Option<int>, fmt: int -> string)
    requires Valid(f)
    requires fmt(f.selectedDate) != "" && parse(fmt(f.selectedDate)) == Some(f.selectedDate)
    ensures var r := Save(f, entries, freshId, now, parse, fmt);
            && r.Ok?
            && r.value[1..] == entries
            && var e := r.value[0];
               && e.id == freshId
               && e.mood == Moods[f.moodIndex]
               && e.timestamp == f.selectedDate
               && e.energy == f.energy as real && 0.0 <= e.energy <= 100.0
               && e.sleep * 2.0 == f.sleepHalves as real && 0.0 <= e.sleep <= 24.0
               && e.activities == f.selected && NoDup(e.activities)
               && e.note == ""
               && e.weather.None?
  {
  }
}
