/** The habit tracker: marking a habit done for today (and undoing it), the streak
    that follows, adding and deleting habits, today's progress, the longest streak
    and the seven-segment streak bar. Calendar dates are day numbers. */
module Habits {
  import opened Collections

  datatype Frequency = Daily | Weekly

  datatype Habit = Habit(
    id: int,
    title: string,
    description: string,
    frequency: Frequency,
    category: string,
    color: string,
    streak: int,
    completedDates: seq<int>)

  /** The add-habit form. */
  datatype HabitForm = HabitForm(
    title: string,
    description: string,
    frequency: Frequency,
    category: string,
    color: string)

  /** The form as it is first shown and after every successful add. */
  const EmptyForm := HabitForm("", "", Daily, "Education", "#4F46E5")

  /** The test `date !== today` handed to `filter`. */
  function NotDay(today: int): int -> bool
  {
    d => d != today
  }

  /** One habit's toggle: if today is among its completed dates, every occurrence of
      today is removed and the streak drops by one (not below 0); otherwise today is
      appended and the streak grows by one. */
  function ToggleHabit(h: Habit, today: int): (r: Habit)
    ensures r == h.(completedDates := r.completedDates, streak := r.streak)
    ensures today in h.completedDates ==> today !in r.completedDates
    ensures today !in h.completedDates ==> today in r.completedDates
  {
    if today in h.completedDates then
      h.(completedDates := Filter(h.completedDates, NotDay(today)),
         streak := if h.streak - 1 > 0 then h.streak - 1 else 0)
    else
      h.(completedDates := h.completedDates + [today], streak := h.streak + 1)
  }

  /** Marking a habit done: today is appended at the end, every earlier date is kept
      in order, and the streak grows by exactly one. */
  lemma ToggleOnEffect(h: Habit, today: int)
    requires today !in h.completedDates
    ensures var r := ToggleHabit(h, today);
      && r.completedDates[..|h.completedDates|] == h.completedDates
      && r.completedDates[|h.completedDates|..] == [today]
      && r.streak == h.streak + 1
  {
  }

  /** Undoing it: exactly the occurrences of today go, the other dates stay in their
      order, and the streak drops by one but never below 0. */
  lemma ToggleOffEffect(h: Habit, today: int)
    requires today in h.completedDates
    ensures var r := ToggleHabit(h, today);
      && (forall d :: d in r.completedDates <==> d in h.completedDates && d != today)
      && IsSubseq(r.completedDates, h.completedDates)
      && (h.streak >= 1 ==> r.streak == h.streak - 1)
      && (h.streak <= 1 ==> r.streak == 0)
  {
    FilterIsSubseq(h.completedDates, NotDay(today));
    FilterMembers(h.completedDates, NotDay(today));
  }

  /** A toggle never makes a streak negative. */
  lemma ToggleKeepsStreakNonNegative(h: Habit, today: int)
    requires h.streak >= 0
    ensures ToggleHabit(h, today).streak >= 0
  {
  }

  /** Toggling twice from "not done today" gives back the habit exactly. */
  lemma ToggleTwiceRestores(h: Habit, today: int)
    requires today !in h.completedDates && h.streak >= 0
    ensures ToggleHabit(ToggleHabit(h, today), today) == h
  {
    var dates := h.completedDates;
    FilterAppend(dates, [today], NotDay(today));
    FilterKeepsAll(dates, NotDay(today));
    FilterKeepsNone([today], NotDay(today));
    assert dates + [] == dates;
  }

  /** Toggling twice from "done today" does not give the habit back: today moves to
      the end of the dates, and a streak of 0 becomes 1. */
  lemma ToggleTwiceFromDone(h: Habit, today: int)
    requires today in h.completedDates
    ensures var r := ToggleHabit(ToggleHabit(h, today), today);
      && r.completedDates == Filter(h.completedDates, NotDay(today)) + [today]
      && (h.streak >= 1 ==> r.streak == h.streak)
      && (h.streak <= 0 ==> r.streak == 1)
  {
  }

  /** `toggleHabitCompletion`: the habits carrying `id` are toggled. */
  function ToggleCompletion(habits: seq<Habit>, id: int, today: int): (r: seq<Habit>)
    ensures |r| == |habits|
  {
    MapSeq(habits, (h: Habit) => if h.id == id then ToggleHabit(h, today) else h)
  }

  /** Only the habits with that id change; the order and every other habit stay. */
  lemma ToggleCompletionOnlyThatHabit(habits: seq<Habit>, id: int, today: int)
    ensures var r := ToggleCompletion(habits, id, today);
      forall i :: 0 <= i < |habits| ==>
        (habits[i].id == id ==> r[i] == ToggleHabit(habits[i], today)) &&
        (habits[i].id != id ==> r[i] == habits[i])
  {
  }

  /** Toggling the same habit twice, when none of the habits with that id was done
      today and no streak is negative, restores the whole list. */
  lemma ToggleCompletionTwiceRestores(habits: seq<Habit>, id: int, today: int)
    requires forall i :: 0 <= i < |habits| && habits[i].id == id ==>
      today !in habits[i].completedDates && habits[i].streak >= 0
    ensures ToggleCompletion(ToggleCompletion(habits, id, today), id, today) == habits
  {
    var once := ToggleCompletion(habits, id, today);
    var twice := ToggleCompletion(once, id, today);
    forall i | 0 <= i < |habits|
      ensures twice[i] == habits[i]
    {
      if habits[i].id == id {
        ToggleTwiceRestores(habits[i], today);
      }
    }
  }

  /** `Math.max(0, ...habits.map(h => h.id)) + 1` */
  function FreshId(habits: seq<Habit>): (id: int)
    ensures id >= 1
    ensures forall i :: 0 <= i < |habits| ==> habits[i].id != id
  {
    var ids := MapSeq(habits, (h: Habit) => h.id);
    assert forall i :: 0 <= i < |habits| ==> ids[i] == habits[i].id;
    NextId(ids)
  }

  /** `addHabit`: nothing happens without a title; otherwise one habit is appended
      with a fresh id, the form's fields, no streak and no completed dates. */
  function AddHabit(habits: seq<Habit>, form: HabitForm): (r: seq<Habit>)
    ensures form.title == "" ==> r == habits
    ensures form.title != "" ==>
      && |r| == |habits| + 1
      && r[..|habits|] == habits
      && var h := r[|habits|];
      && h.title == form.title && h.description == form.description
      && h.frequency == form.frequency && h.category == form.category && h.color == form.color
      && h.streak == 0 && h.completedDates == []
      && h.id >= 1
      && forall i :: 0 <= i < |habits| ==> habits[i].id != h.id
  {
    if form.title == "" then habits
    else
      habits + [Habit(FreshId(habits), form.title, form.description, form.frequency,
                      form.category, form.color, 0, [])]
  }

  /** The test `habit.id !== habitId` handed to `filter`. */
  function OtherId(id: int): Habit -> bool
  {
    (h: Habit) => h.id != id
  }

  /** `deleteHabit` */
  function DeleteHabit(habits: seq<Habit>, id: int): (r: seq<Habit>)
    ensures forall h :: h in r <==> h in habits && h.id != id
    ensures forall h :: multiset(r)[h] == if h.id != id then multiset(habits)[h] else 0
  {
    FilterMembers(habits, OtherId(id));
    FilterMultiplicity(habits, OtherId(id));
    Filter(habits, OtherId(id))
  }

  /** Deleting keeps the other habits in their order, and deleting an id no habit
      carries changes nothing. */
  lemma DeleteHabitKeepsOrder(habits: seq<Habit>, id: int)
    ensures IsSubseq(DeleteHabit(habits, id), habits)
    ensures (forall i :: 0 <= i < |habits| ==> habits[i].id != id) ==> DeleteHabit(habits, id) == habits
  {
    FilterIsSubseq(habits, OtherId(id));
    if forall i :: 0 <= i < |habits| ==> habits[i].id != id {
      FilterKeepsAll(habits, OtherId(id));
    }
  }

  /** A habit added and then deleted by its id leaves the list as it was. */
  lemma AddThenDeleteRestores(habits: seq<Habit>, form: HabitForm)
    requires form.title != ""
    ensures DeleteHabit(AddHabit(habits, form), FreshId(habits)) == habits
  {
    var id := FreshId(habits);
    var added := AddHabit(habits, form);
    assert added == habits + [added[|habits|]];
    FilterAppend(habits, [added[|habits|]], OtherId(id));
    FilterKeepsAll(habits, OtherId(id));
    FilterKeepsNone([added[|habits|]], OtherId(id));
    assert habits + [] == habits;
  }

  /** The test "this date is today" handed to `filter`. */
  function IsDay(today: int): int -> bool
  {
    d => d == today
  }

  /** `calculateProgress` for a daily habit: 100 when some completed date is today. */
  function DailyProgress(h: Habit, today: int): (p: int)
    ensures p == 0 || p == 100
    ensures p == 100 <==> today in h.completedDates
  {
    var todays := Filter(h.completedDates, IsDay(today));
    FilterMembers(h.completedDates, IsDay(today));
    assert today in h.completedDates ==> today in todays;
    if |todays| > 0 then (assert todays[0] in todays; 100) else 0
  }

  /** A toggle flips today's progress between 0 and 100. */
  lemma ToggleFlipsProgress(h: Habit, today: int)
    ensures DailyProgress(ToggleHabit(h, today), today) == 100 - DailyProgress(h, today)
  {
  }

  /** The test "done on `today`" handed to `filter`. */
  function DoneOn(today: int): Habit -> bool
  {
    (h: Habit) => today in h.completedDates
  }

  /** The "completed today" figure: habits with some completed date equal to today. */
  function CompletedTodayCount(habits: seq<Habit>, today: int): (n: nat)
    ensures n <= |habits|
    ensures n == 0 <==> forall i :: 0 <= i < |habits| ==> today !in habits[i].completedDates
  {
    var r := Filter(habits, DoneOn(today));
    FilterMembers(habits, DoneOn(today));
    assert forall i :: 0 <= i < |habits| && today in habits[i].completedDates ==> habits[i] in r;
    assert |r| > 0 ==> r[0] in r;
    |r|
  }

  /** Toggling the one habit carrying `id` moves the "completed today" figure by
      exactly one: down when it was done today, up otherwise. */
  lemma ToggleMovesCompletedToday(habits: seq<Habit>, id: int, today: int, i: nat)
    requires i < |habits| && habits[i].id == id
    requires forall k :: 0 <= k < |habits| && k != i ==> habits[k].id != id
    ensures var after := CompletedTodayCount(ToggleCompletion(habits, id, today), today);
      var before := CompletedTodayCount(habits, today);
      && (today in habits[i].completedDates ==> after == before - 1)
      && (today !in habits[i].completedDates ==> after == before + 1)
  {
    var toggled := ToggleHabit(habits[i], today);
    ToggleCompletionOnlyThatHabit(habits, id, today);
    assert ToggleCompletion(habits, id, today) == habits[i := toggled];
    FilterCountUpdate(habits, i, toggled, DoneOn(today));
  }

  /** The "Longest Streak" figure: `Math.max(0, ...streaks)`. */
  function LongestStreak(habits: seq<Habit>): (m: int)
    ensures m >= 0
    ensures forall i :: 0 <= i < |habits| ==> habits[i].streak <= m
    ensures m == 0 || exists i :: 0 <= i < |habits| && habits[i].streak == m
  {
    var streaks := MapSeq(habits, (h: Habit) => h.streak);
    var m := MaxOr0(streaks);
    assert m in streaks ==> exists i :: 0 <= i < |habits| && habits[i].streak == m;
    m
  }

  /** JavaScript's `a % b` for `b > 0`: the remainder takes the sign of `a`. */
  function JsRem(a: int, b: int): (r: int)
    requires b > 0
    ensures -b < r < b
    ensures a >= 0 ==> r == a % b
  {
    if a >= 0 then a % b else -((-a) % b)
  }

  /** The seven streak segments: segment `i` is lit when `i < streak % 7`. */
  function StreakBar(streak: int): (bar: seq<bool>)
    ensures |bar| == 7
    ensures forall i :: 0 <= i < 7 ==> (bar[i] <==> i < JsRem(streak, 7))
  {
    seq(7, i => i < JsRem(streak, 7))
  }

  /** How many of the segments are lit. */
  function LitCount(bar: seq<bool>): (n: nat)
    ensures n <= |bar|
  {
    |Filter(bar, (b: bool) => b)|
  }

  /** For a non-negative streak the lit segments are a prefix of the bar, as many as
      the days past the last whole week; a streak of a whole number of weeks lights
      none, and a negative streak none either. */
  lemma StreakBarShape(streak: int)
    ensures streak >= 0 ==> LitCount(StreakBar(streak)) == streak % 7
    ensures streak >= 0 ==> forall i :: 0 <= i < 7 ==> (StreakBar(streak)[i] <==> i < streak % 7)
    ensures streak > 0 && streak % 7 == 0 ==> LitCount(StreakBar(streak)) == 0
    ensures streak < 0 ==> LitCount(StreakBar(streak)) == 0
  {
    var bar := StreakBar(streak);
    var k := if JsRem(streak, 7) > 0 then JsRem(streak, 7) else 0;
    assert bar == bar[..k] + bar[k..];
    FilterAppend(bar[..k], bar[k..], (b: bool) => b);
    FilterKeepsAll(bar[..k], (b: bool) => b);
    FilterKeepsNone(bar[k..], (b: bool) => b);
  }

  /** The page's state: the habit list (owned by the app context), the add form and
      whether the add dialog is open. */
  class HabitPage {
    var habits: seq<Habit>
    var newHabit: HabitForm
    var showAddModal: bool

    constructor (initial: seq<Habit>)
      ensures habits == initial && newHabit == EmptyForm && !showAddModal
    {
      habits := initial;
      newHabit := EmptyForm;
      showAddModal := false;
    }

    method ToggleHabitCompletion(habitId: int, today: int)
      modifies this`habits
      ensures habits == ToggleCompletion(old(habits), habitId, today)
      ensures |habits| == |old(habits)|
    {
      habits := ToggleCompletion(habits, habitId, today);
    }

    /** Submitting the add dialog: with a title, the habit is appended, the form
        cleared and the dialog closed; without one nothing changes. */
    method AddHabitFromForm()
      modifies this
      ensures habits == AddHabit(old(habits), old(newHabit))
      ensures old(newHabit).title == "" ==> newHabit == old(newHabit) && showAddModal == old(showAddModal)
      ensures old(newHabit).title != "" ==> newHabit == EmptyForm && !showAddModal
    {
      if newHabit.title == "" {
        return;
      }
      habits := AddHabit(habits, newHabit);
      newHabit := EmptyForm;
      showAddModal := false;
    }

    method DeleteHabitById(habitId: int)
      modifies this`habits
      ensures habits == DeleteHabit(old(habits), habitId)
    {
      habits := DeleteHabit(habits, habitId);
    }
  }
}
