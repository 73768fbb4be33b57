/** The logic of the dashboard page (src/pages/Dashboard.tsx): the guard in
    front of `addHabit`, the enabled state of the submit button, the choice
    of locale and the completion checkmark shown for each habit. */
module DashboardPage {
  import opened Dates
  import opened Habits

  // ---------------------------------------------------------------------------
  // String.prototype.trim

  /** The characters `trim()` removes: ECMAScript white space and line
      terminators. */
  predicate IsWhitespace(c: char) {
    || c == ' ' || c == '\t' || c == '\n' || c == '\r'
    || c == '\U{000B}' || c == '\U{000C}' || c == '\U{00A0}' || c == '\U{1680}'
    || ('\U{2000}' <= c <= '\U{200A}')
    || c == '\U{2028}' || c == '\U{2029}' || c == '\U{202F}' || c == '\U{205F}'
    || c == '\U{3000}' || c == '\U{FEFF}'
  }

  predicate AllWhitespace(s: string) {
    forall i | 0 <= i < |s| :: IsWhitespace(s[i])
  }

  /** The index of the first character at or after `i` that is not white
      space (`|s|` when there is none). */
  function SkipLeading(s: string, i: nat): (a: nat)
    requires i <= |s|
    ensures i <= a <= |s|
    ensures forall k | i <= k < a :: IsWhitespace(s[k])
    ensures a < |s| ==> !IsWhitespace(s[a])
    decreases |s| - i
  {
    if i < |s| && IsWhitespace(s[i]) then SkipLeading(s, i + 1) else i
  }

  /** The end of `s[lo..j]` once its trailing white space is dropped. */
  function SkipTrailing(s: string, lo: nat, j: nat): (b: nat)
    requires lo <= j <= |s|
    ensures lo <= b <= j
    ensures forall k | b <= k < j :: IsWhitespace(s[k])
    ensures lo < b ==> !IsWhitespace(s[b - 1])
  {
    if lo < j && IsWhitespace(s[j - 1]) then SkipTrailing(s, lo, j - 1) else j
  }

  /** `s` is `r` at offset `a` with nothing but white space around it. */
  predicate PaddedAt(s: string, r: string, a: int) {
    && 0 <= a <= |s| - |r|
    && r == s[a..a + |r|]
    && (forall k | 0 <= k < a :: IsWhitespace(s[k]))
    && (forall k | a + |r| <= k < |s| :: IsWhitespace(s[k]))
  }

  /** `s.trim()`: the slice of `s` left after dropping white space at both
      ends. Everything around the slice is white space, the slice neither
      starts nor ends with white space, and it is empty exactly when `s` is
      all white space. */
  function Trim(s: string): (r: string)
    ensures exists a :: PaddedAt(s, r, a)
    ensures r == [] || (!IsWhitespace(r[0]) && !IsWhitespace(r[|r| - 1]))
    ensures r == [] <==> AllWhitespace(s)
  {
    var a := SkipLeading(s, 0);
    var b := SkipTrailing(s, a, |s|);
    var r := s[a..b];
    assert PaddedAt(s, r, a);
    assert r != [] ==> r[0] == s[a] && r[|r| - 1] == s[b - 1];
    r
  }

  /** Trimming twice is the same as trimming once. */
  lemma TrimIdempotent(s: string)
    ensures Trim(Trim(s)) == Trim(s)
  {
    var r := Trim(s);
    if r != [] {
      assert SkipLeading(r, 0) == 0;
      assert SkipTrailing(r, 0, |r|) == |r|;
      assert r[0..|r|] == r;
    }
  }

  // ---------------------------------------------------------------------------
  // Locale

  /** `localeMap` */
  const LocaleMap: map<string, string> := map["pt" := "pt-BR", "en" := "en-US", "es" := "es-ES"]

  /** `localeMap[language] || 'pt-BR'`: a supported language code selects its
      own locale, anything else falls back to Brazilian Portuguese. */
  function CurrentLocale(language: string): (r: string)
    ensures r in {"pt-BR", "en-US", "es-ES"}
    ensures r[..2] == language <==> language in LocaleMap
    ensures language !in LocaleMap ==> r == LocaleMap["pt"]
  {
    assert "pt-BR"[..2] == "pt" && "en-US"[..2] == "en" && "es-ES"[..2] == "es";
    if language in LocaleMap then LocaleMap[language] else "pt-BR"
  }

  // ---------------------------------------------------------------------------
  // Per-habit checkmark

  /** `isCompleted` for each listed habit, in display order. */
  function CompletionStatus(habits: seq<Habit>, today: Instant): (r: seq<bool>)
    ensures |r| == |habits|
    ensures forall i | 0 <= i < |habits| ::
      r[i] <==> exists j | 0 <= j < |habits[i].completedDates| :: IsSameDay(habits[i].completedDates[j], today)
  {
    seq(|habits|, i requires 0 <= i < |habits| => CompletedOn(habits[i].completedDates, today))
  }

  /** Clicking a habit's box flips that habit's checkmark and no other. */
  lemma StatusAfterToggle(habits: seq<Habit>, id: string, now: Instant)
    ensures forall i | 0 <= i < |habits| ::
      CompletionStatus(ToggleIn(habits, id, now), now)[i]
      == (if habits[i].id == id then !CompletionStatus(habits, now)[i] else CompletionStatus(habits, now)[i])
  {
  }

  /** Today's bar of the weekly chart counts exactly the habits shown as
      completed. */
  lemma ChartTodayMatchesCheckmarks(habits: seq<Habit>, now: Instant)
    ensures DoneOn(habits, WeekWindow(now)[6]) == set i | 0 <= i < |habits| && CompletionStatus(habits, now)[i]
  {
    var today := WeekWindow(now)[6];
    SameDayIffSameDayNumber(today, now);
    forall i | 0 <= i < |habits|
      ensures CompletedOn(habits[i].completedDates, today) == CompletedOn(habits[i].completedDates, now)
    {
      var ds := habits[i].completedDates;
      forall j | 0 <= j < |ds| ensures IsSameDay(ds[j], today) == IsSameDay(ds[j], now) { }
    }
  }

  // ---------------------------------------------------------------------------
  // The page's own state

  class Dashboard {
    var newHabitTitle: string
    var isModalOpen: bool
    const store: HabitStore

    constructor(store: HabitStore)
      ensures this.store == store
      ensures newHabitTitle == "" && !isModalOpen
    {
      this.store := store;
      newHabitTitle := "";
      isModalOpen := false;
    }

    /** `disabled={!newHabitTitle.trim()}` on the submit button. */
    function SubmitDisabled(): (r: bool)
      reads this
      ensures r <==> AllWhitespace(newHabitTitle)
    {
      Trim(newHabitTitle) == []
    }

    /** handleAddHabit: a title that is not all white space is trimmed and
        added, then the input is cleared and the modal closed; otherwise
        nothing changes. The id stands for the fresh `crypto.randomUUID()`. */
    method HandleAddHabit(freshId: string, now: Instant)
      modifies this, store
      ensures !AllWhitespace(old(newHabitTitle)) ==>
        && store.habits == old(store.habits) + [Habit(freshId, Trim(old(newHabitTitle)), [], now)]
        && newHabitTitle == ""
        && !isModalOpen
      ensures AllWhitespace(old(newHabitTitle)) ==>
        && store.habits == old(store.habits)
        && newHabitTitle == old(newHabitTitle)
        && isModalOpen == old(isModalOpen)
      ensures old(store.Valid()) && (forall i | 0 <= i < |old(store.habits)| :: old(store.habits)[i].id != freshId)
        ==> store.Valid()
    {
      if Trim(newHabitTitle) != [] {
        store.AddHabit(freshId, Trim(newHabitTitle), now);
        newHabitTitle := "";
        isModalOpen := false;
      }
    }
  }
}
