/** The dashboard: the habits still open today, the flashcards due today, the
    courses in progress (furthest along first), the previews of each list and the
    total number of habit check-ins. */
module Dashboard {
  import opened Collections
  import opened Clock
  import opened Sorting
  import Habits
  import Flashcards
  import Courses

  // ---------------------------------------------------------------- habits

  /** A daily habit not yet checked off today. */
  predicate OpenToday(h: Habits.Habit, today: int)
  {
    h.frequency == Habits.Daily && today !in h.completedDates
  }

  function OpenOn(today: int): Habits.Habit -> bool
  {
    (h: Habits.Habit) => OpenToday(h, today)
  }

  /** `todayHabits` */
  function TodayHabits(habits: seq<Habits.Habit>, today: int): (r: seq<Habits.Habit>)
    ensures forall h :: h in r <==> h in habits && h.frequency == Habits.Daily && today !in h.completedDates
  {
    FilterMembers(habits, OpenOn(today));
    Filter(habits, OpenOn(today))
  }

  /** Checking a daily habit off on the habit page takes it off the dashboard's
      list, and un-checking it puts it back. */
  lemma ToggleMovesHabit(h: Habits.Habit, today: int)
    requires h.frequency == Habits.Daily
    ensures OpenToday(Habits.ToggleHabit(h, today), today) <==> !OpenToday(h, today)
  {
  }

  function CheckIns(h: Habits.Habit): int
  {
    |h.completedDates|
  }

  /** The "Habits Completed" figure: every habit's completed dates, counted. */
  function TotalCheckIns(habits: seq<Habits.Habit>): int
  {
    Sum(habits, CheckIns)
  }

  /** Checking a habit off raises the total by exactly one; un-checking lowers it
      by at least one (every entry for today goes). */
  lemma ToggleChangesTotal(habits: seq<Habits.Habit>, i: nat, today: int)
    requires i < |habits|
    ensures var after := habits[i := Habits.ToggleHabit(habits[i], today)];
      && (today !in habits[i].completedDates ==> TotalCheckIns(after) == TotalCheckIns(habits) + 1)
      && (today in habits[i].completedDates ==> TotalCheckIns(after) < TotalCheckIns(habits))
  {
    var h := habits[i];
    SumUpdate(habits, i, Habits.ToggleHabit(h, today), CheckIns);
    if today in h.completedDates {
      FilterDropsSome(h.completedDates, Habits.NotDay(today), today);
    }
  }

  // ---------------------------------------------------------------- flashcards

  /** A card whose review falls on today's calendar day. */
  predicate ReviewToday(card: Flashcards.Flashcard, now: int)
  {
    DayOf(card.nextReview) == DayOf(now)
  }

  function ReviewOn(now: int): Flashcards.Flashcard -> bool
  {
    (c: Flashcards.Flashcard) => ReviewToday(c, now)
  }

  /** `dueTodayFlashcards` */
  function DueTodayCards(cards: seq<Flashcards.Flashcard>, now: int): (r: seq<Flashcards.Flashcard>)
    ensures forall c :: c in r <==> c in cards && Midnight(DayOf(now)) <= c.nextReview < Midnight(DayOf(now) + 1)
  {
    forall c ensures ReviewToday(c, now) <==> Midnight(DayOf(now)) <= c.nextReview < Midnight(DayOf(now) + 1) {
      OnDayIff(c.nextReview, DayOf(now));
    }
    FilterMembers(cards, ReviewOn(now));
    Filter(cards, ReviewOn(now))
  }

  /** The dashboard and the flashcard page disagree on "due": a card left over
      from an earlier day is due on the flashcard page but missing here, and a
      card due later today is listed here but not yet due there. */
  lemma DueTodayDiffersFromDueTab(card: Flashcards.Flashcard, now: int)
    ensures card.nextReview < Midnight(DayOf(now)) ==> Flashcards.IsDue(card, now) && !ReviewToday(card, now)
    ensures now < card.nextReview < Midnight(DayOf(now) + 1) ==> !Flashcards.IsDue(card, now) && ReviewToday(card, now)
  {
    DayBounds(now);
    OnDayIff(card.nextReview, DayOf(now));
  }

  /** A card reviewed now, either way, is off today's list: its next review is on
      a later day. */
  lemma ReviewedCardLeavesList(card: Flashcards.Flashcard, now: int, knew: bool)
    requires Flashcards.WellFormed(card)
    ensures !ReviewToday(Flashcards.Review(card, now, knew), now)
  {
    Flashcards.KnowEffect(card, now);
    Flashcards.DontKnowEffect(card, now);
  }

  // ---------------------------------------------------------------- courses

  predicate InProgress(course: Courses.Course)
  {
    0 < course.progress < 100
  }

  function Started(): Courses.Course -> bool
  {
    (c: Courses.Course) => InProgress(c)
  }

  /** The comparator `(a, b) => b.progress - a.progress`. */
  function FurthestFirst(): (Courses.Course, Courses.Course) -> int
  {
    (a: Courses.Course, b: Courses.Course) => b.progress - a.progress
  }

  lemma FurthestFirstConsistent()
    ensures Consistent(FurthestFirst())
  {
  }

  /** `inProgressCourses` */
  function InProgressCourses(courses: seq<Courses.Course>): (r: seq<Courses.Course>)
    ensures multiset(r) == multiset(Filter(courses, Started()))
  {
    Sort(Filter(courses, Started()), FurthestFirst())
  }

  /** The list holds exactly the started, unfinished courses, furthest along
      first. */
  lemma InProgressOrdered(courses: seq<Courses.Course>)
    ensures var r := InProgressCourses(courses);
      && (forall c :: c in r <==> c in courses && 0 < c.progress < 100)
      && (forall i, j :: 0 <= i < j < |r| ==> r[i].progress >= r[j].progress)
  {
    var r := InProgressCourses(courses);
    assert SortedBy(r, FurthestFirst()) by {
      FurthestFirstConsistent();
      SortIsSorted(Filter(courses, Started()), FurthestFirst());
    }
    assert forall c :: c in r <==> c in courses && 0 < c.progress < 100 by {
      FilterMembers(courses, Started());
      assert forall c :: c in r <==> c in multiset(r);
    }
    forall i, j | 0 <= i < j < |r|
      ensures r[i].progress >= r[j].progress
    {
      assert NoLater(FurthestFirst(), r[i], r[j]);
    }
  }

  // ---------------------------------------------------------------- previews

  /** The dashboard shows the first three habits, the first three cards and the
      first two courses of the lists. The two courses shown are the furthest
      along: none left out has more progress. */
  lemma Previews(habits: seq<Habits.Habit>, cards: seq<Flashcards.Flashcard>, courses: seq<Courses.Course>,
                 today: int, now: int)
    ensures var h := TodayHabits(habits, today); |Take(h, 3)| == (if |h| < 3 then |h| else 3) && Take(h, 3) <= h
    ensures var d := DueTodayCards(cards, now); |Take(d, 3)| == (if |d| < 3 then |d| else 3) && Take(d, 3) <= d
    ensures var r := InProgressCourses(courses); var shown := Take(r, 2);
      forall i, j :: 0 <= i < |shown| <= j < |r| ==> shown[i].progress >= r[j].progress
  {
    InProgressOrdered(courses);
  }
}
