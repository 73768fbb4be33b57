/** The habit store (src/context/HabitContext.tsx): an ordered collection of
    habits, each with the instants at which it was completed. Every operation
    replaces the collection wholesale with a new one computed from the old;
    those computations are the functions below, and `HabitStore` is the
    mutable holder of the collection. The fresh id and the current instant,
    which the source draws from `crypto.randomUUID()` and the clock, are
    parameters. */
module Habits {
  import opened Dates
  import opened Wrappers

  datatype Habit = Habit(id: string, title: string, completedDates: seq<Instant>, createdAt: Instant)

  /** One bar of the weekly chart: a weekday label and a number of habits. */
  datatype DayProgress = DayProgress(day: string, count: nat)

  // ---------------------------------------------------------------------------
  // Completion dates of one habit

  /** `completedDates.some(d => isSameDay(new Date(d), day))` */
  predicate CompletedOn(dates: seq<Instant>, day: Instant) {
    exists i | 0 <= i < |dates| :: IsSameDay(dates[i], day)
  }

  /** `completedDates.filter(d => !isSameDay(new Date(d), day))`: the entries
      on other days, in their original order. */
  function DropDay(dates: seq<Instant>, day: Instant): (r: seq<Instant>)
    ensures |r| <= |dates|
    ensures !CompletedOn(r, day)
  {
    if dates == [] then []
    else (if IsSameDay(dates[0], day) then [] else [dates[0]]) + DropDay(dates[1..], day)
  }

  /** The filter keeps exactly the entries on other days. */
  lemma {:induction false} DropDayMembers(dates: seq<Instant>, day: Instant)
    ensures forall x :: x in DropDay(dates, day) <==> x in dates && !IsSameDay(x, day)
  {
    if dates != [] {
      DropDayMembers(dates[1..], day);
      assert dates == [dates[0]] + dates[1..];
    }
  }

  lemma {:induction false} DropDayAppend(a: seq<Instant>, b: seq<Instant>, day: Instant)
    ensures DropDay(a + b, day) == DropDay(a, day) + DropDay(b, day)
  {
    if a == [] {
      assert a + b == b;
    } else {
      var head := if IsSameDay(a[0], day) then [] else [a[0]];
      assert (a + b)[0] == a[0];
      assert (a + b)[1..] == a[1..] + b;
      calc {
        DropDay(a + b, day);
        head + DropDay(a[1..] + b, day);
        { DropDayAppend(a[1..], b, day); }
        head + (DropDay(a[1..], day) + DropDay(b, day));
        (head + DropDay(a[1..], day)) + DropDay(b, day);
        DropDay(a, day) + DropDay(b, day);
      }
    }
  }

  /** Filtering out a day that has no entry changes nothing. */
  lemma {:induction false} DropDayAbsent(dates: seq<Instant>, day: Instant)
    requires !CompletedOn(dates, day)
    ensures DropDay(dates, day) == dates
  {
    if dates != [] {
      assert !IsSameDay(dates[0], day);
      assert !CompletedOn(dates[1..], day) by {
        forall i | 0 <= i < |dates[1..]| ensures !IsSameDay(dates[1..][i], day) {
          assert dates[1..][i] == dates[i + 1];
        }
      }
      DropDayAbsent(dates[1..], day);
      assert dates == [dates[0]] + dates[1..];
    }
  }

  /** At most one entry falls on `day`. */
  predicate AtMostOneOn(dates: seq<Instant>, day: Instant) {
    forall i, j | 0 <= i < j < |dates| :: !(IsSameDay(dates[i], day) && IsSameDay(dates[j], day))
  }

  /** No two entries fall on the same calendar day. */
  predicate OnePerDay(dates: seq<Instant>) {
    forall i, j | 0 <= i < j < |dates| :: !IsSameDay(dates[i], dates[j])
  }

  /** The completion history after toggling the habit at instant `now`: if it
      was completed today every same-day entry is removed, otherwise `now` is
      appended. */
  function ToggleDates(dates: seq<Instant>, now: Instant): (r: seq<Instant>)
    // the completion status for today flips
    ensures CompletedOn(r, now) <==> !CompletedOn(dates, now)
    // entries on other days are kept, in order, and none is added
    ensures DropDay(r, now) == DropDay(dates, now)
    // at most one entry on today afterwards
    ensures AtMostOneOn(r, now)
    // completing appends exactly the one instant `now`
    ensures !CompletedOn(dates, now) ==> r == dates + [now]
  {
    if CompletedOn(dates, now) then
      DropDayAbsent(DropDay(dates, now), now);
      DropDay(dates, now)
    else
      DropDayAppend(dates, [now], now);
      DropDayAbsent(dates, now);
      assert IsSameDay((dates + [now])[|dates|], now);
      dates + [now]
  }

  lemma OnePerDayTail(dates: seq<Instant>)
    requires dates != [] && OnePerDay(dates)
    ensures OnePerDay(dates[1..])
  {
    var tail := dates[1..];
    forall i, j | 0 <= i < j < |tail| ensures !IsSameDay(tail[i], tail[j]) {
      assert tail[i] == dates[i + 1] && tail[j] == dates[j + 1];
    }
  }

  /** Putting the first entry back in front of a selection of the others
      keeps the entries on distinct days. */
  lemma OnePerDayCons(dates: seq<Instant>, rest: seq<Instant>)
    requires dates != [] && OnePerDay(dates) && OnePerDay(rest)
    requires forall x | x in rest :: x in dates[1..]
    ensures OnePerDay([dates[0]] + rest)
  {
    var tail := dates[1..];
    var r := [dates[0]] + rest;
    forall i, j | 0 <= i < j < |r| ensures !IsSameDay(r[i], r[j]) {
      if i == 0 {
        assert r[j] in tail;
        var k :| 0 <= k < |tail| && tail[k] == r[j];
        assert dates[k + 1] == r[j];
      } else {
        assert r[i] == rest[i - 1] && r[j] == rest[j - 1];
      }
    }
  }

  lemma {:induction false} DropDayKeepsOnePerDay(dates: seq<Instant>, day: Instant)
    requires OnePerDay(dates)
    ensures OnePerDay(DropDay(dates, day))
  {
    if dates != [] {
      OnePerDayTail(dates);
      DropDayKeepsOnePerDay(dates[1..], day);
      if !IsSameDay(dates[0], day) {
        DropDayMembers(dates[1..], day);
        OnePerDayCons(dates, DropDay(dates[1..], day));
      }
    }
  }

  /** Toggling never creates two completions on the same day. */
  lemma ToggleKeepsOnePerDay(dates: seq<Instant>, now: Instant)
    requires OnePerDay(dates)
    ensures OnePerDay(ToggleDates(dates, now))
  {
    if CompletedOn(dates, now) {
      DropDayKeepsOnePerDay(dates, now);
    } else {
      var r := dates + [now];
      forall i, j | 0 <= i < j < |r| ensures !IsSameDay(r[i], r[j]) {
        if j == |dates| {
          assert !IsSameDay(dates[i], now);
        }
      }
    }
  }

  /** Toggling twice on the same day, starting from a habit not completed
      that day, gives back the original history. */
  lemma ToggleTwiceRestores(dates: seq<Instant>, now: Instant, later: Instant)
    requires !CompletedOn(dates, now)
    requires IsSameDay(later, now)
    ensures ToggleDates(ToggleDates(dates, now), later) == dates
  {
    var once := dates + [now];
    assert CompletedOn(once, later) by {
      assert IsSameDay(once[|dates|], later);
    }
    DropDayAppend(dates, [now], later);
    assert !CompletedOn(dates, later) by {
      forall i | 0 <= i < |dates| ensures !IsSameDay(dates[i], later) {
        assert !IsSameDay(dates[i], now);
      }
    }
    DropDayAbsent(dates, later);
  }

  /** Instants on the same calendar day see the same completion status and
      the same entries on that day. */
  lemma CompletedOnSameDay(dates: seq<Instant>, a: Instant, b: Instant)
    requires IsSameDay(a, b)
    ensures CompletedOn(dates, a) == CompletedOn(dates, b)
    ensures AtMostOneOn(dates, a) == AtMostOneOn(dates, b)
  {
    SameDayIffSameDayNumber(a, b);
    forall i | 0 <= i < |dates| ensures IsSameDay(dates[i], a) == IsSameDay(dates[i], b) {
      SameDayIffSameDayNumber(dates[i], a);
      SameDayIffSameDayNumber(dates[i], b);
    }
  }

  /** One toggle at any instant of `day` flips the status for `day` and
      leaves at most one entry on it. */
  lemma StepFlips(dates: seq<Instant>, t: Instant, day: Instant)
    requires IsSameDay(t, day)
    ensures CompletedOn(ToggleDates(dates, t), day) == !CompletedOn(dates, day)
    ensures AtMostOneOn(ToggleDates(dates, t), day)
  {
    CompletedOnSameDay(dates, t, day);
    CompletedOnSameDay(ToggleDates(dates, t), t, day);
  }

  /** The history after toggling at each instant of `ts`, in order. */
  function ToggleAll(dates: seq<Instant>, ts: seq<Instant>): seq<Instant> {
    if ts == [] then dates else ToggleDates(ToggleAll(dates, ts[..|ts| - 1]), ts[|ts| - 1])
  }

  lemma OddStep(n: nat)
    requires n > 0
    ensures (n % 2 == 1) == !((n - 1) % 2 == 1)
  {
  }

  /** After toggling at `|ts|` instants, all on one calendar day, the habit
      is completed that day exactly when it was before and `|ts|` is even,
      or it was not and `|ts|` is odd; after at least one toggle there is at
      most one entry on that day. */
  lemma {:induction false} ToggleParity(dates: seq<Instant>, ts: seq<Instant>, day: Instant)
    requires forall k | 0 <= k < |ts| :: IsSameDay(ts[k], day)
    ensures CompletedOn(ToggleAll(dates, ts), day) <==> (CompletedOn(dates, day) != (|ts| % 2 == 1))
    ensures |ts| >= 1 ==> AtMostOneOn(ToggleAll(dates, ts), day)
  {
    if ts != [] {
      var n := |ts| - 1;
      var front := ts[..n];
      assert forall k | 0 <= k < |front| :: front[k] == ts[k];
      ToggleParity(dates, front, day);
      StepFlips(ToggleAll(dates, front), ts[n], day);
      OddStep(|ts|);
    }
  }

  // ---------------------------------------------------------------------------
  // The collection

  /** Ids are unique and no habit has two completions on one day. */
  predicate WellFormed(habits: seq<Habit>) {
    && (forall i, j | 0 <= i < j < |habits| :: habits[i].id != habits[j].id)
    && (forall i | 0 <= i < |habits| :: OnePerDay(habits[i].completedDates))
  }

  /** toggleHabit: `habits.map(...)` toggling the habits whose id matches. */
  function ToggleIn(habits: seq<Habit>, id: string, now: Instant): (r: seq<Habit>)
    ensures |r| == |habits|
    ensures forall i | 0 <= i < |r| ::
      && r[i].id == habits[i].id
      && r[i].title == habits[i].title
      && r[i].createdAt == habits[i].createdAt
    ensures forall i | 0 <= i < |r| && habits[i].id != id :: r[i] == habits[i]
    ensures forall i | 0 <= i < |r| && habits[i].id == id ::
      && (CompletedOn(r[i].completedDates, now) <==> !CompletedOn(habits[i].completedDates, now))
      && DropDay(r[i].completedDates, now) == DropDay(habits[i].completedDates, now)
      && AtMostOneOn(r[i].completedDates, now)
    ensures forall i | 0 <= i < |r| && habits[i].id == id && !CompletedOn(habits[i].completedDates, now) ::
      r[i].completedDates == habits[i].completedDates + [now]
    ensures (forall i | 0 <= i < |habits| :: habits[i].id != id) ==> r == habits
  {
    seq(|habits|, i requires 0 <= i < |habits| =>
      if habits[i].id == id
      then habits[i].(completedDates := ToggleDates(habits[i].completedDates, now))
      else habits[i])
  }

  lemma ToggleInKeepsWellFormed(habits: seq<Habit>, id: string, now: Instant)
    requires WellFormed(habits)
    ensures WellFormed(ToggleIn(habits, id, now))
  {
    var r := ToggleIn(habits, id, now);
    forall i | 0 <= i < |r| ensures OnePerDay(r[i].completedDates) {
      if habits[i].id == id {
        ToggleKeepsOnePerDay(habits[i].completedDates, now);
      }
    }
  }

  /** Toggling a habit twice on one day, when it was not completed that day,
      gives back the original collection. */
  lemma ToggleInTwiceRestores(habits: seq<Habit>, id: string, now: Instant, later: Instant)
    requires forall i | 0 <= i < |habits| && habits[i].id == id :: !CompletedOn(habits[i].completedDates, now)
    requires IsSameDay(later, now)
    ensures ToggleIn(ToggleIn(habits, id, now), id, later) == habits
  {
    var once := ToggleIn(habits, id, now);
    var twice := ToggleIn(once, id, later);
    forall i | 0 <= i < |habits| ensures twice[i] == habits[i] {
      if habits[i].id == id {
        ToggleTwiceRestores(habits[i].completedDates, now, later);
      }
    }
  }

  /** deleteHabit: `habits.filter(h => h.id !== id)`. */
  function Without(habits: seq<Habit>, id: string): (r: seq<Habit>)
    ensures |r| <= |habits|
    ensures (forall i | 0 <= i < |habits| :: habits[i].id != id) ==> r == habits
  {
    if habits == [] then []
    else (if habits[0].id == id then [] else [habits[0]]) + Without(habits[1..], id)
  }

  /** The filter keeps exactly the habits with another id. */
  lemma {:induction false} WithoutMembers(habits: seq<Habit>, id: string)
    ensures forall h :: h in Without(habits, id) <==> h in habits && h.id != id
  {
    if habits != [] {
      WithoutMembers(habits[1..], id);
      assert habits == [habits[0]] + habits[1..];
    }
  }

  lemma {:induction false} WithoutAppend(a: seq<Habit>, b: seq<Habit>, id: string)
    ensures Without(a + b, id) == Without(a, id) + Without(b, id)
  {
    if a == [] {
      assert a + b == b;
    } else {
      var head := if a[0].id == id then [] else [a[0]];
      assert (a + b)[0] == a[0];
      assert (a + b)[1..] == a[1..] + b;
      calc {
        Without(a + b, id);
        head + Without(a[1..] + b, id);
        { WithoutAppend(a[1..], b, id); }
        head + (Without(a[1..], id) + Without(b, id));
        (head + Without(a[1..], id)) + Without(b, id);
        Without(a, id) + Without(b, id);
      }
    }
  }

  /** Deleting the id of the first habit, when no other habit has it,
      leaves the rest. */
  lemma WithoutFirst(habits: seq<Habit>, id: string)
    requires habits != [] && habits[0].id == id
    requires forall j | 1 <= j < |habits| :: habits[j].id != id
    ensures Without(habits, id) == habits[1..]
  {
    var tail := habits[1..];
    assert forall j | 0 <= j < |tail| :: tail[j].id != id by {
      forall j | 0 <= j < |tail| ensures tail[j].id != id {
        assert tail[j] == habits[j + 1];
      }
    }
    assert Without(habits, id) == Without(tail, id);
  }

  /** Deleting the one habit with a given id removes exactly that habit and
      keeps the others in order. */
  lemma {:induction false} WithoutUnique(habits: seq<Habit>, id: string, k: nat)
    requires k < |habits| && habits[k].id == id
    requires forall j | 0 <= j < |habits| && j != k :: habits[j].id != id
    ensures Without(habits, id) == habits[..k] + habits[k + 1..]
    ensures |Without(habits, id)| == |habits| - 1
  {
    if k == 0 {
      WithoutFirst(habits, id);
      assert habits[..0] + habits[1..] == habits[1..];
    } else {
      var tail := habits[1..];
      assert forall j | 0 <= j < |tail| && j != k - 1 :: tail[j].id != id by {
        forall j | 0 <= j < |tail| && j != k - 1 ensures tail[j].id != id {
          assert tail[j] == habits[j + 1];
        }
      }
      WithoutUnique(tail, id, k - 1);
      calc {
        Without(habits, id);
        [habits[0]] + Without(tail, id);
        [habits[0]] + (tail[..k - 1] + tail[k..]);
        { assert [habits[0]] + tail[..k - 1] == habits[..k]; }
        habits[..k] + habits[k + 1..];
      }
    }
  }

  lemma WellFormedTail(habits: seq<Habit>)
    requires habits != [] && WellFormed(habits)
    ensures WellFormed(habits[1..])
  {
    var tail := habits[1..];
    forall i, j | 0 <= i < j < |tail| ensures tail[i].id != tail[j].id {
      assert tail[i] == habits[i + 1] && tail[j] == habits[j + 1];
    }
    forall i | 0 <= i < |tail| ensures OnePerDay(tail[i].completedDates) {
      assert tail[i] == habits[i + 1];
    }
  }

  /** A well-formed collection stays well-formed when its first habit is put
      back in front of a well-formed selection of the others. */
  lemma WellFormedCons(habits: seq<Habit>, rest: seq<Habit>)
    requires habits != [] && WellFormed(habits) && WellFormed(rest)
    requires forall h | h in rest :: h in habits[1..]
    ensures WellFormed([habits[0]] + rest)
  {
    var tail := habits[1..];
    var r := [habits[0]] + rest;
    forall i, j | 0 <= i < j < |r| ensures r[i].id != r[j].id {
      if i == 0 {
        assert r[j] in tail;
        var k :| 0 <= k < |tail| && tail[k] == r[j];
        assert habits[k + 1] == r[j];
      } else {
        assert r[i] == rest[i - 1] && r[j] == rest[j - 1];
      }
    }
    forall i | 0 <= i < |r| ensures OnePerDay(r[i].completedDates) {
      if i > 0 {
        assert r[i] == rest[i - 1];
      }
    }
  }

  lemma {:induction false} WithoutKeepsWellFormed(habits: seq<Habit>, id: string)
    requires WellFormed(habits)
    ensures WellFormed(Without(habits, id))
  {
    if habits != [] {
      WellFormedTail(habits);
      WithoutKeepsWellFormed(habits[1..], id);
      if habits[0].id != id {
        WithoutMembers(habits[1..], id);
        WellFormedCons(habits, Without(habits[1..], id));
      }
    }
  }

  // ---------------------------------------------------------------------------
  // Weekly progress

  /** `habits.reduce((acc, h) => acc + (completed on day ? 1 : 0), 0)`, folded
      from the left. */
  function DoneCount(habits: seq<Habit>, day: Instant): (r: nat)
    ensures r <= |habits|
  {
    if habits == [] then 0
    else
      var n := |habits| - 1;
      DoneCount(habits[..n], day) + (if CompletedOn(habits[n].completedDates, day) then 1 else 0)
  }

  /** The positions of the habits with at least one completion on `day`. */
  function DoneOn(habits: seq<Habit>, day: Instant): set<int> {
    set i | 0 <= i < |habits| && CompletedOn(habits[i].completedDates, day)
  }

  lemma DoneOnSnoc(habits: seq<Habit>, day: Instant)
    requires habits != []
    ensures var n := |habits| - 1;
      DoneOn(habits, day)
      == DoneOn(habits[..n], day) + (if CompletedOn(habits[n].completedDates, day) then {n} else {})
  {
    var n := |habits| - 1;
    forall i | 0 <= i < n ensures habits[..n][i] == habits[i] { }
  }

  /** The fold counts exactly the habits completed on that day. */
  lemma {:induction false} DoneCountIsCardinality(habits: seq<Habit>, day: Instant)
    ensures DoneCount(habits, day) == |DoneOn(habits, day)|
  {
    if habits == [] {
      assert DoneOn(habits, day) == {};
    } else {
      var n := |habits| - 1;
      var front := habits[..n];
      DoneCountIsCardinality(front, day);
      DoneOnSnoc(habits, day);
      var extra := if CompletedOn(habits[n].completedDates, day) then {n} else {};
      assert n !in DoneOn(front, day);
      assert |DoneOn(front, day) + extra| == |DoneOn(front, day)| + |extra|;
    }
  }

  // ---------------------------------------------------------------------------
  // The store

  class HabitStore {
    /** The collection, in insertion (display) order. */
    var habits: seq<Habit>

    ghost predicate Valid()
      reads this
    {
      WellFormed(habits)
    }

    /** The collection read back from storage under `habittrack:habits`,
        or the empty collection when nothing is stored. */
    constructor(stored: Option<seq<Habit>>)
      ensures stored.Some? ==> habits == stored.value
      ensures stored.None? ==> habits == []
    {
      habits := stored.GetOr([]);
    }

    /** addHabit: appends a habit with the given title, no completions and
        `createdAt = now`. The id stands for `crypto.randomUUID()`; when it
        is not already in use, as a random UUID in practice never is, the
        invariant is kept. */
    method AddHabit(id: string, title: string, now: Instant)
      modifies this
      ensures habits == old(habits) + [Habit(id, title, [], now)]
      ensures old(Valid()) && (forall i | 0 <= i < |old(habits)| :: old(habits)[i].id != id) ==> Valid()
    {
      habits := habits + [Habit(id, title, [], now)];
    }

    method ToggleHabit(id: string, now: Instant)
      modifies this
      ensures habits == ToggleIn(old(habits), id, now)
      ensures old(Valid()) ==> Valid()
    {
      if Valid() {
        ToggleInKeepsWellFormed(habits, id, now);
      }
      habits := ToggleIn(habits, id, now);
    }

    method DeleteHabit(id: string)
      modifies this
      ensures habits == Without(old(habits), id)
      ensures old(Valid()) ==> Valid()
    {
      if Valid() {
        WithoutKeepsWellFormed(habits, id);
      }
      habits := Without(habits, id);
    }

    /** getWeeklyProgress: for each of the 7 days ending today, oldest first,
        its weekday label and the number of habits completed that day.
        `weekday` stands for the pt-BR short weekday formatter. */
    method GetWeeklyProgress(now: Instant, weekday: Instant -> string) returns (progress: seq<DayProgress>)
      ensures |progress| == 7
      ensures forall k | 0 <= k < 7 ::
        && progress[k].day == weekday(WeekWindow(now)[k])
        && progress[k].count == |DoneOn(habits, WeekWindow(now)[k])|
        && progress[k].count <= |habits|
    {
      var last7Days: seq<Instant> := [];
      var i := 6;
      while i >= 0
        invariant -1 <= i <= 6
        invariant |last7Days| == 6 - i
        invariant forall k | 0 <= k < |last7Days| :: last7Days[k] == ShiftDays(now, k - 6)
      {
        var d := ShiftDays(now, -i);
        last7Days := last7Days + [d];
        i := i - 1;
      }
      var hs := habits;
      progress := seq(7, k requires 0 <= k < 7 => DayProgress(weekday(last7Days[k]), DoneCount(hs, last7Days[k])));
      forall k | 0 <= k < 7 ensures progress[k].count == |DoneOn(habits, WeekWindow(now)[k])| {
        DoneCountIsCardinality(hs, last7Days[k]);
      }
    }
  }
}
