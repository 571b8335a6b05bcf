/** The lesson planner: status and search filters, the statistics, grouping by due
    date, subject or priority and the order of the groups, the edits by id
    (complete, add, update, delete, reschedule by drag), the expanded-group list and
    the reordering of a group. Due dates are day numbers; `now` is an instant. */
module Lessons {
  import opened Collections
  import opened Text
  import opened Clock
  import opened Sorting

  datatype Priority = Low | Medium | High

  datatype Lesson = Lesson(
    id: string,
    title: string,
    description: string,
    dueDate: int,
    completed: bool,
    duration: int,
    subject: string,
    priority: Priority,
    color: string)

  /** The add-lesson form: a lesson without its id. */
  datatype LessonForm = LessonForm(
    title: string,
    description: string,
    dueDate: int,
    completed: bool,
    duration: int,
    subject: string,
    priority: Priority,
    color: string)

  /** The form as first shown and after every add: due today, an hour, medium priority. */
  function EmptyForm(today: int): LessonForm
  {
    LessonForm("", "", today, false, 60, "General", Medium, "#3B82F6")
  }

  datatype StatusFilter = AllLessons | Upcoming | CompletedOnly | Overdue

  datatype GroupBy = ByDate | BySubject | ByPriority

  /** The name of a group: a due date, a subject or a priority. */
  datatype GroupKey = DateKey(day: int) | SubjectKey(subject: string) | PriorityKey(priority: Priority)

  // ---------------------------------------------------------------- filters

  /** `isBefore(parseISO(dueDate), now)`: the start of the due day has passed. */
  predicate StartedBefore(l: Lesson, now: int)
  {
    Midnight(l.dueDate) < now
  }

  /** `isAfter(parseISO(dueDate), now)` */
  predicate StartsAfter(l: Lesson, now: int)
  {
    Midnight(l.dueDate) > now
  }

  /** `isSameDay(parseISO(dueDate), now)` */
  predicate DueToday(l: Lesson, now: int)
  {
    l.dueDate == DayOf(now)
  }

  /** The status tabs, each written as the page writes its rejection test. */
  predicate StatusOk(l: Lesson, filter: StatusFilter, now: int)
  {
    match filter
    case AllLessons => true
    case Upcoming => !(l.completed || (StartedBefore(l, now) && !DueToday(l, now)))
    case CompletedOnly => l.completed
    case Overdue => !(l.completed || !StartedBefore(l, now))
  }

  /** A non-empty search keeps a lesson when its title, description or subject
      contains the query, ignoring case. */
  predicate SearchOk(l: Lesson, query: string)
  {
    query == ""
    || MatchesIgnoringCase(l.title, query)
    || MatchesIgnoringCase(l.description, query)
    || MatchesIgnoringCase(l.subject, query)
  }

  function Shown(filter: StatusFilter, query: string, now: int): Lesson -> bool
  {
    (l: Lesson) => StatusOk(l, filter, now) && SearchOk(l, query)
  }

  /** `filteredLessons` */
  function FilteredLessons(lessons: seq<Lesson>, filter: StatusFilter, query: string, now: int): (r: seq<Lesson>)
    ensures forall l :: l in r <==> l in lessons && StatusOk(l, filter, now) && SearchOk(l, query)
  {
    FilterMembers(lessons, Shown(filter, query, now));
    Filter(lessons, Shown(filter, query, now))
  }

  /** What the status tabs mean in days: "upcoming" is every unfinished lesson due
      today or later; "overdue" is every unfinished lesson due on an earlier day, and
      also one due today once today's midnight has passed. */
  lemma StatusFiltersInDays(l: Lesson, now: int)
    ensures StatusOk(l, Upcoming, now) <==> !l.completed && l.dueDate >= DayOf(now)
    ensures StatusOk(l, Overdue, now) <==>
      !l.completed && (l.dueDate < DayOf(now) || (l.dueDate == DayOf(now) && now > Midnight(DayOf(now))))
  {
    DayBounds(now);
    var d := l.dueDate;
    var t := DayOf(now);
    if d < t {
      assert Midnight(d) <= Midnight(t - 1) < Midnight(t);
    } else if d > t {
      assert Midnight(d) >= Midnight(t + 1);
    }
  }

  /** The quirk of the status tabs: an unfinished lesson due today, looked at after
      midnight, is both upcoming and overdue. */
  lemma DueTodayIsUpcomingAndOverdue(l: Lesson, now: int)
    requires !l.completed && l.dueDate == DayOf(now) && now > Midnight(DayOf(now))
    ensures StatusOk(l, Upcoming, now) && StatusOk(l, Overdue, now)
  {
  }

  // ---------------------------------------------------------------- statistics

  datatype Stats = Stats(total: nat, completed: nat, overdue: nat, upcoming: nat)

  predicate IsCompleted(l: Lesson)
  {
    l.completed
  }

  /** The statistic "overdue": unfinished and the due day has started. */
  predicate CountsOverdue(l: Lesson, now: int)
  {
    !l.completed && StartedBefore(l, now)
  }

  /** The statistic "upcoming": unfinished and due later or today. */
  predicate CountsUpcoming(l: Lesson, now: int)
  {
    !l.completed && (StartsAfter(l, now) || DueToday(l, now))
  }

  function OverdueAt(now: int): Lesson -> bool
  {
    (l: Lesson) => CountsOverdue(l, now)
  }

  function UpcomingAt(now: int): Lesson -> bool
  {
    (l: Lesson) => CountsUpcoming(l, now)
  }

  /** The statistics panel. */
  function LessonStats(lessons: seq<Lesson>, now: int): (s: Stats)
    ensures s.total == |lessons|
    ensures s.completed <= s.total && s.overdue <= s.total && s.upcoming <= s.total
  {
    Stats(|lessons|,
          |Filter(lessons, IsCompleted)|,
          |Filter(lessons, OverdueAt(now))|,
          |Filter(lessons, UpcomingAt(now))|)
  }

  /** With no search, each status tab lists as many lessons as its statistic says. */
  lemma StatsMatchTabs(lessons: seq<Lesson>, now: int)
    ensures |FilteredLessons(lessons, AllLessons, "", now)| == LessonStats(lessons, now).total
    ensures |FilteredLessons(lessons, CompletedOnly, "", now)| == LessonStats(lessons, now).completed
    ensures |FilteredLessons(lessons, Overdue, "", now)| == LessonStats(lessons, now).overdue
    ensures |FilteredLessons(lessons, Upcoming, "", now)| == LessonStats(lessons, now).upcoming
  {
    FilterKeepsAll(lessons, Shown(AllLessons, "", now));
    FilterCongruent(lessons, Shown(CompletedOnly, "", now), IsCompleted);
    FilterCongruent(lessons, Shown(Overdue, "", now), OverdueAt(now));
    forall i | 0 <= i < |lessons|
      ensures Shown(Upcoming, "", now)(lessons[i]) == CountsUpcoming(lessons[i], now)
    {
      StatusFiltersInDays(lessons[i], now);
      DayBounds(now);
    }
    FilterCongruent(lessons, Shown(Upcoming, "", now), UpcomingAt(now));
  }

  /** Unfinished and due today with midnight passed: counted twice. */
  predicate CountedTwice(l: Lesson, now: int)
  {
    !l.completed && DueToday(l, now) && now > Midnight(DayOf(now))
  }

  function CountedTwiceAt(now: int): Lesson -> bool
  {
    (l: Lesson) => CountedTwice(l, now)
  }

  /** The overdue and upcoming statistics together count every unfinished lesson
      once, and the lessons due today (after midnight) a second time. */
  lemma OverdueAndUpcomingOverlap(lessons: seq<Lesson>, now: int)
    ensures var s := LessonStats(lessons, now);
      s.overdue + s.upcoming
        == (s.total - s.completed) + |Filter(lessons, CountedTwiceAt(now))|
  {
    var overdue := OverdueAt(now);
    var upcoming := UpcomingAt(now);
    var open := (l: Lesson) => !l.completed;
    var twice := CountedTwiceAt(now);
    forall l: Lesson
      ensures open(l) == (overdue(l) || upcoming(l))
      ensures twice(l) == (overdue(l) && upcoming(l))
    {
      StatusFiltersInDays(l, now);
      DayBounds(now);
    }
    FilterCountInclusionExclusion(lessons, overdue, upcoming, open, twice);
    var all := (l: Lesson) => true;
    var none := (l: Lesson) => false;
    FilterCountInclusionExclusion(lessons, IsCompleted, open, all, none);
    FilterKeepsAll(lessons, all);
    FilterKeepsNone(lessons, none);
  }

  // ---------------------------------------------------------------- grouping

  /** The group a lesson belongs to under the chosen grouping. */
  function KeyOf(l: Lesson, grouping: GroupBy): GroupKey
  {
    match grouping
    case ByDate => DateKey(l.dueDate)
    case BySubject => SubjectKey(l.subject)
    case ByPriority => PriorityKey(l.priority)
  }

  function KeyFn(grouping: GroupBy): Lesson -> GroupKey
  {
    (l: Lesson) => KeyOf(l, grouping)
  }

  function KeyIs(grouping: GroupBy, k: GroupKey): Lesson -> bool
  {
    (l: Lesson) => KeyOf(l, grouping) == k
  }

  /** `Object.keys(groupedLessons)`: every group name once. The model lists the names
      in order of first appearance; JavaScript lists integer-like names (a subject
      such as "2024") first, in ascending numeric order, and only the others in
      insertion order. The page re-sorts the names, so nothing it shows depends on
      this order. */
  function GroupKeys(lessons: seq<Lesson>, grouping: GroupBy): (r: seq<GroupKey>)
    ensures NoDuplicates(r)
    ensures forall k :: k in r <==> exists l :: l in lessons && KeyOf(l, grouping) == k
  {
    var keys := MapSeq(lessons, KeyFn(grouping));
    assert forall k :: k in keys <==> exists l :: l in lessons && KeyOf(l, grouping) == k by {
      forall k | k in keys ensures exists l :: l in lessons && KeyOf(l, grouping) == k {
        var i :| 0 <= i < |keys| && keys[i] == k;
        assert lessons[i] in lessons;
      }
      forall k | exists l :: l in lessons && KeyOf(l, grouping) == k ensures k in keys {
        var l :| l in lessons && KeyOf(l, grouping) == k;
        var i :| 0 <= i < |lessons| && lessons[i] == l;
        assert keys[i] == k;
      }
    }
    Distinct(keys)
  }

  /** `groupedLessons[k]`: the lessons of group `k`, in list order. */
  function Group(lessons: seq<Lesson>, grouping: GroupBy, k: GroupKey): (r: seq<Lesson>)
    ensures forall l :: l in r <==> l in lessons && KeyOf(l, grouping) == k
  {
    FilterMembers(lessons, KeyIs(grouping, k));
    Filter(lessons, KeyIs(grouping, k))
  }

  function GroupSize(lessons: seq<Lesson>, grouping: GroupBy): GroupKey -> int
  {
    k => |Group(lessons, grouping, k)|
  }

  /** Appending a lesson opens its group when it is new, and keeps the other names. */
  lemma GroupKeysSnoc(init: seq<Lesson>, x: Lesson, grouping: GroupBy)
    ensures var kx := KeyOf(x, grouping);
      GroupKeys(init + [x], grouping)
        == if kx in GroupKeys(init, grouping) then GroupKeys(init, grouping) else GroupKeys(init, grouping) + [kx]
  {
    var s := init + [x];
    assert s[..|s| - 1] == init;
    assert MapSeq(s, KeyFn(grouping))[..|s| - 1] == MapSeq(init, KeyFn(grouping));
  }

  /** Appending a lesson adds it to its own group and to no other. */
  lemma GroupSizeSnoc(init: seq<Lesson>, x: Lesson, grouping: GroupBy, k: GroupKey)
    ensures GroupSize(init + [x], grouping)(k)
      == GroupSize(init, grouping)(k) + (if KeyOf(x, grouping) == k then 1 else 0)
  {
    FilterAppend(init, [x], KeyIs(grouping, k));
  }

  /** A name no lesson carries has an empty group. */
  lemma GroupOfMissingKey(lessons: seq<Lesson>, grouping: GroupBy, k: GroupKey)
    requires k !in GroupKeys(lessons, grouping)
    ensures Group(lessons, grouping, k) == []
  {
    forall i | 0 <= i < |lessons| ensures !KeyIs(grouping, k)(lessons[i]) {
      assert lessons[i] in lessons;
    }
    FilterKeepsNone(lessons, KeyIs(grouping, k));
  }

  /** Every lesson sits in exactly one group: the sizes of the groups add up to the
      number of lessons grouped. */
  lemma {:induction false} GroupSizesSum(lessons: seq<Lesson>, grouping: GroupBy)
    ensures Sum(GroupKeys(lessons, grouping), GroupSize(lessons, grouping)) == |lessons|
  {
    if |lessons| > 0 {
      var init := lessons[..|lessons| - 1];
      assert lessons == init + [lessons[|lessons| - 1]];
      GroupSizesSum(init, grouping);
      GroupSizesSnoc(init, lessons[|lessons| - 1], grouping);
    }
  }

  /** Appending a lesson adds one to the sizes of the groups, summed over the names. */
  lemma GroupSizesSnoc(init: seq<Lesson>, x: Lesson, grouping: GroupBy)
    ensures Sum(GroupKeys(init + [x], grouping), GroupSize(init + [x], grouping))
      == Sum(GroupKeys(init, grouping), GroupSize(init, grouping)) + 1
  {
    var kx := KeyOf(x, grouping);
    var keysInit := GroupKeys(init, grouping);
    var size := GroupSize(init + [x], grouping);
    GroupKeysSnoc(init, x, grouping);
    GroupSizesOverOldKeys(init, x, grouping);
    if kx !in keysInit {
      SumAppend(keysInit, [kx], size);
      GroupOfMissingKey(init, grouping, kx);
      GroupSizeSnoc(init, x, grouping, kx);
    }
  }

  /** Over the names already present, appending a lesson adds one when its own name
      is among them. */
  lemma GroupSizesOverOldKeys(init: seq<Lesson>, x: Lesson, grouping: GroupBy)
    ensures var keysInit := GroupKeys(init, grouping);
      Sum(keysInit, GroupSize(init + [x], grouping))
        == Sum(keysInit, GroupSize(init, grouping)) + (if KeyOf(x, grouping) in keysInit then 1 else 0)
  {
    forall k
      ensures GroupSize(init + [x], grouping)(k)
        == GroupSize(init, grouping)(k) + (if k == KeyOf(x, grouping) then 1 else 0)
    {
      GroupSizeSnoc(init, x, grouping, k);
    }
    SumIndicator(GroupKeys(init, grouping), GroupSize(init, grouping), GroupSize(init + [x], grouping), KeyOf(x, grouping));
  }

  /** The groups are in list order: each is a subsequence of the grouped lessons. */
  lemma GroupKeepsOrder(lessons: seq<Lesson>, grouping: GroupBy, k: GroupKey)
    ensures IsSubseq(Group(lessons, grouping, k), lessons)
  {
    FilterIsSubseq(lessons, KeyIs(grouping, k));
  }

  /** One step of the grouping pass: open the lesson's group if its name is new,
      then append the lesson to it. */
  ghost function GroupInsert(state: (seq<GroupKey>, map<GroupKey, seq<Lesson>>), lesson: Lesson, grouping: GroupBy)
    : (seq<GroupKey>, map<GroupKey, seq<Lesson>>)
  {
    var (keys, groups) := state;
    var k := KeyOf(lesson, grouping);
    (if k in groups then keys else keys + [k],
     groups[k := (if k in groups then groups[k] else []) + [lesson]])
  }

  /** The state the grouping pass reaches after `lessons`: the group names in the
      order first seen and the map from each name to its lessons. */
  ghost function GroupState(lessons: seq<Lesson>, grouping: GroupBy): (seq<GroupKey>, map<GroupKey, seq<Lesson>>)
  {
    if |lessons| == 0 then ([], map[])
    else GroupInsert(GroupState(lessons[..|lessons| - 1], grouping), lessons[|lessons| - 1], grouping)
  }

  /** `keys` are the group names of `lessons` in first-seen order, and `groups` maps
      exactly those names, each to the lessons carrying it, in list order. */
  ghost predicate GroupedAs(lessons: seq<Lesson>, grouping: GroupBy, keys: seq<GroupKey>, groups: map<GroupKey, seq<Lesson>>)
  {
    && keys == GroupKeys(lessons, grouping)
    && (forall k :: k in groups <==> k in keys)
    && (forall k :: k in groups ==> groups[k] == Group(lessons, grouping, k))
  }

  /** The pass yields the group names in first-seen order and, for each name,
      exactly the lessons carrying it, in list order. */
  lemma {:induction false} GroupStateGrouped(lessons: seq<Lesson>, grouping: GroupBy)
    ensures GroupedAs(lessons, grouping, GroupState(lessons, grouping).0, GroupState(lessons, grouping).1)
  {
    if |lessons| > 0 {
      var init := lessons[..|lessons| - 1];
      var lesson := lessons[|lessons| - 1];
      assert lessons == init + [lesson];
      GroupStateGrouped(init, grouping);
      GroupInsertGrouped(init, lesson, grouping, GroupState(init, grouping).0, GroupState(init, grouping).1);
    }
  }

  /** A step of the pass keeps the grouping exact for the list grown by one lesson. */
  lemma GroupInsertGrouped(init: seq<Lesson>, lesson: Lesson, grouping: GroupBy,
                           keys: seq<GroupKey>, groups: map<GroupKey, seq<Lesson>>)
    requires GroupedAs(init, grouping, keys, groups)
    ensures GroupedAs(init + [lesson], grouping, GroupInsert((keys, groups), lesson, grouping).0,
                      GroupInsert((keys, groups), lesson, grouping).1)
  {
    var groupKey := KeyOf(lesson, grouping);
    var after := GroupInsert((keys, groups), lesson, grouping).1;
    GroupKeysSnoc(init, lesson, grouping);
    forall k | k in after
      ensures after[k] == Group(init + [lesson], grouping, k)
    {
      GroupSnoc(init, lesson, grouping, k);
      if k == groupKey && groupKey !in groups {
        GroupOfMissingKey(init, grouping, groupKey);
      }
    }
  }

  /** A lesson appended to the list joins the end of its own group and no other. */
  lemma GroupSnoc(init: seq<Lesson>, lesson: Lesson, grouping: GroupBy, k: GroupKey)
    ensures Group(init + [lesson], grouping, k)
      == Group(init, grouping, k) + (if KeyOf(lesson, grouping) == k then [lesson] else [])
  {
    FilterAppend(init, [lesson], KeyIs(grouping, k));
    assert Filter([lesson], KeyIs(grouping, k)) == (if KeyOf(lesson, grouping) == k then [lesson] else []) + Filter([], KeyIs(grouping, k));
  }

  /** The `reduce` that builds `groupedLessons`: one pass over the lessons, opening a
      group the first time its key is seen and appending the lesson to it. */
  method GroupLessons(lessons: seq<Lesson>, grouping: GroupBy) returns (keys: seq<GroupKey>, groups: map<GroupKey, seq<Lesson>>)
    ensures keys == GroupKeys(lessons, grouping)
    ensures forall k :: k in groups <==> k in keys
    ensures forall k :: k in groups ==> groups[k] == Group(lessons, grouping, k)
  {
    keys := [];
    groups := map[];
    for i := 0 to |lessons|
      invariant (keys, groups) == GroupState(lessons[..i], grouping)
    {
      var lesson := lessons[i];
      var groupKey := KeyOf(lesson, grouping);
      var group := if groupKey in groups then groups[groupKey] else [];
      if groupKey !in groups {
        keys := keys + [groupKey];
      }
      groups := groups[groupKey := group + [lesson]];
      assert lessons[..i + 1][..i] == lessons[..i];
    }
    assert lessons[..|lessons|] == lessons;
    GroupStateGrouped(lessons, grouping);
  }

  // ---------------------------------------------------------------- group order

  /** `{ high: 0, medium: 1, low: 2 }` */
  function PriorityRank(p: Priority): int
  {
    match p
    case High => 0
    case Medium => 1
    case Low => 2
  }

  /** The kind of a key, used only to order keys of different kinds (a grouping
      never produces those). */
  function KindRank(k: GroupKey): int
  {
    match k
    case DateKey(_) => 0
    case SubjectKey(_) => 1
    case PriorityKey(_) => 2
  }

  /** The comparator of `sortedGroupKeys`: dates by their time, priorities high to
      low, subjects by `localeCompare`. */
  function KeyCompare(a: GroupKey, b: GroupKey): int
  {
    if a.DateKey? && b.DateKey? then Midnight(a.day) - Midnight(b.day)
    else if a.PriorityKey? && b.PriorityKey? then PriorityRank(a.priority) - PriorityRank(b.priority)
    else if a.SubjectKey? && b.SubjectKey? then LexCompare(a.subject, b.subject)
    else KindRank(a) - KindRank(b)
  }

  lemma KeyCompareNoLaterKind(a: GroupKey, b: GroupKey)
    requires NoLater(KeyCompare, a, b)
    ensures KindRank(a) <= KindRank(b)
  {
  }

  /** The group comparator is one `sort` can rely on. */
  lemma KeyCompareConsistent()
    ensures Consistent(KeyCompare)
  {
    forall a, b
      ensures Sign(KeyCompare(a, b)) == -Sign(KeyCompare(b, a))
    {
      if a.SubjectKey? && b.SubjectKey? {
        LexCompareAntisymmetric(a.subject, b.subject);
      }
    }
    forall a, b, c | NoLater(KeyCompare, a, b) && NoLater(KeyCompare, b, c)
      ensures NoLater(KeyCompare, a, c)
    {
      KeyCompareNoLaterKind(a, b);
      KeyCompareNoLaterKind(b, c);
      if a.SubjectKey? && b.SubjectKey? && c.SubjectKey? {
        LexCompareTransitive(a.subject, b.subject, c.subject);
      }
    }
  }

  /** `sortedGroupKeys` */
  function SortedGroupKeys(lessons: seq<Lesson>, grouping: GroupBy): (r: seq<GroupKey>)
    ensures multiset(r) == multiset(GroupKeys(lessons, grouping))
  {
    Sort(GroupKeys(lessons, grouping), KeyCompare)
  }

  /** The sorted keys are the groups' names, each once, in the comparator's order. */
  lemma SortedGroupKeysOrdered(lessons: seq<Lesson>, grouping: GroupBy)
    ensures var r := SortedGroupKeys(lessons, grouping);
      && NoDuplicates(r)
      && SortedBy(r, KeyCompare)
      && (forall k :: k in r <==> k in GroupKeys(lessons, grouping))
  {
    var r := SortedGroupKeys(lessons, grouping);
    KeyCompareConsistent();
    SortIsSorted(GroupKeys(lessons, grouping), KeyCompare);
    PermutationKeepsNoDuplicates(GroupKeys(lessons, grouping), r);
    assert forall k :: k in r <==> k in multiset(r);
  }

  /** Grouped by priority, the groups come high, then medium, then low. */
  lemma PriorityGroupsHighToLow(lessons: seq<Lesson>)
    ensures var r := SortedGroupKeys(lessons, ByPriority);
      && (forall i :: 0 <= i < |r| ==> r[i].PriorityKey?)
      && (forall i, j :: 0 <= i < j < |r| ==> PriorityRank(r[i].priority) < PriorityRank(r[j].priority))
  {
    var r := SortedGroupKeys(lessons, ByPriority);
    SortedGroupKeysOrdered(lessons, ByPriority);
    forall i | 0 <= i < |r| ensures r[i].PriorityKey? {
      assert r[i] in r;
    }
    forall i, j | 0 <= i < j < |r|
      ensures PriorityRank(r[i].priority) < PriorityRank(r[j].priority)
    {
      assert r[i] in r && r[j] in r;
      assert NoLater(KeyCompare, r[i], r[j]);
    }
  }

  /** Grouped by date, the groups come from the earliest day to the latest. */
  lemma DateGroupsEarliestFirst(lessons: seq<Lesson>)
    ensures var r := SortedGroupKeys(lessons, ByDate);
      && (forall i :: 0 <= i < |r| ==> r[i].DateKey?)
      && (forall i, j :: 0 <= i < j < |r| ==> r[i].day < r[j].day)
  {
    var r := SortedGroupKeys(lessons, ByDate);
    SortedGroupKeysOrdered(lessons, ByDate);
    forall i | 0 <= i < |r| ensures r[i].DateKey? {
      assert r[i] in r;
    }
    forall i, j | 0 <= i < j < |r|
      ensures r[i].day < r[j].day
    {
      assert r[i] in r && r[j] in r;
      assert NoLater(KeyCompare, r[i], r[j]);
    }
  }

  // ---------------------------------------------------------------- edits by id

  /** `toggleComplete` */
  function ToggleComplete(lessons: seq<Lesson>, id: string): (r: seq<Lesson>)
    ensures |r| == |lessons|
    ensures forall i :: 0 <= i < |lessons| ==>
      (lessons[i].id == id ==> r[i] == lessons[i].(completed := !lessons[i].completed)) &&
      (lessons[i].id != id ==> r[i] == lessons[i])
  {
    MapSeq(lessons, (l: Lesson) => if l.id == id then l.(completed := !l.completed) else l)
  }

  /** Toggling the same lesson twice gives the list back. */
  lemma ToggleCompleteTwice(lessons: seq<Lesson>, id: string)
    ensures ToggleComplete(ToggleComplete(lessons, id), id) == lessons
  {
    var twice := ToggleComplete(ToggleComplete(lessons, id), id);
    assert forall i :: 0 <= i < |lessons| ==> twice[i] == lessons[i];
  }

  /** `Date.now().toString()`: the id a lesson added at instant `nowMs` gets. */
  function LessonId(nowMs: nat): string
  {
    Decimal(nowMs)
  }

  /** Lessons added at different instants get different ids. */
  lemma LessonIdInjective(a: nat, b: nat)
    ensures LessonId(a) == LessonId(b) ==> a == b
  {
    DecimalRoundTrip(a);
    DecimalRoundTrip(b);
  }

  function FromForm(form: LessonForm, id: string): Lesson
  {
    Lesson(id, form.title, form.description, form.dueDate, form.completed, form.duration,
           form.subject, form.priority, form.color)
  }

  /** `addLesson`: nothing without a title; otherwise one lesson carrying the form's
      fields and the id of the current instant is appended. */
  function AddLesson(lessons: seq<Lesson>, form: LessonForm, nowMs: nat): (r: seq<Lesson>)
    ensures form.title == "" ==> r == lessons
    ensures form.title != "" ==>
      && |r| == |lessons| + 1
      && r[..|lessons|] == lessons
      && r[|lessons|].id == LessonId(nowMs)
      && FromForm(form, r[|lessons|].id) == r[|lessons|]
  {
    if form.title == "" then lessons else lessons + [FromForm(form, LessonId(nowMs))]
  }

  /** `updateLesson`: every lesson with the edited lesson's id is replaced by it. */
  function UpdateLesson(lessons: seq<Lesson>, editing: Option<Lesson>): (r: seq<Lesson>)
    ensures |r| == |lessons|
    ensures editing.None? ==> r == lessons
    ensures editing.Some? ==> forall i :: 0 <= i < |lessons| ==>
      (lessons[i].id == editing.value.id ==> r[i] == editing.value) &&
      (lessons[i].id != editing.value.id ==> r[i] == lessons[i])
  {
    match editing
    case None => lessons
    case Some(e) => MapSeq(lessons, (l: Lesson) => if l.id == e.id then e else l)
  }

  /** Saving the same edit twice is the same as saving it once. */
  lemma UpdateLessonIdempotent(lessons: seq<Lesson>, editing: Option<Lesson>)
    ensures UpdateLesson(UpdateLesson(lessons, editing), editing) == UpdateLesson(lessons, editing)
  {
    var once := UpdateLesson(lessons, editing);
    assert forall i :: 0 <= i < |lessons| ==> UpdateLesson(once, editing)[i] == once[i];
  }

  function OtherId(id: string): Lesson -> bool
  {
    (l: Lesson) => l.id != id
  }

  /** `deleteLesson`: the lessons with that id go, the others stay in order. */
  function DeleteLesson(lessons: seq<Lesson>, id: string): (r: seq<Lesson>)
    ensures forall l :: l in r <==> l in lessons && l.id != id
    ensures forall l :: multiset(r)[l] == if l.id != id then multiset(lessons)[l] else 0
  {
    FilterMembers(lessons, OtherId(id));
    FilterMultiplicity(lessons, OtherId(id));
    Filter(lessons, OtherId(id))
  }

  lemma DeleteLessonKeepsOrder(lessons: seq<Lesson>, id: string)
    ensures IsSubseq(DeleteLesson(lessons, id), lessons)
  {
    FilterIsSubseq(lessons, OtherId(id));
  }

  /** `handleDragEnd`: only when grouped by date, the lessons with that id move to
      the day of the group they were dropped on. */
  function DragEnd(lessons: seq<Lesson>, grouping: GroupBy, id: string, destination: int): (r: seq<Lesson>)
    ensures grouping != ByDate ==> r == lessons
    ensures |r| == |lessons|
    ensures grouping == ByDate ==> forall i :: 0 <= i < |lessons| ==>
      (lessons[i].id == id ==> r[i] == lessons[i].(dueDate := destination)) &&
      (lessons[i].id != id ==> r[i] == lessons[i])
  {
    if grouping != ByDate then lessons
    else MapSeq(lessons, (l: Lesson) => if l.id == id then l.(dueDate := destination) else l)
  }

  /** After a drop the moved lessons belong to the destination group. */
  lemma DragEndJoinsDestination(lessons: seq<Lesson>, id: string, destination: int)
    ensures forall l :: l in DragEnd(lessons, ByDate, id, destination) && l.id == id ==>
      l in Group(DragEnd(lessons, ByDate, id, destination), ByDate, DateKey(destination))
  {
    var r := DragEnd(lessons, ByDate, id, destination);
    forall l | l in r && l.id == id
      ensures KeyOf(l, ByDate) == DateKey(destination)
    {
      var i :| 0 <= i < |r| && r[i] == l;
    }
  }

  // ---------------------------------------------------------------- expanded groups

  function NotKey(key: GroupKey): GroupKey -> bool
  {
    (k: GroupKey) => k != key
  }

  /** `toggleGroupExpansion`: a listed key is removed (every copy of it), an
      unlisted one appended. */
  function ToggleExpansion(expanded: seq<GroupKey>, key: GroupKey): (r: seq<GroupKey>)
    ensures key in r <==> key !in expanded
    ensures forall k :: k != key ==> (k in r <==> k in expanded)
  {
    FilterMembers(expanded, NotKey(key));
    if key in expanded then Filter(expanded, NotKey(key)) else expanded + [key]
  }

  /** Collapsing and expanding a group again, or expanding and collapsing it, gives
      back the same membership; from a collapsed group it gives back the very list. */
  lemma ToggleExpansionTwice(expanded: seq<GroupKey>, key: GroupKey)
    ensures forall k :: k in ToggleExpansion(ToggleExpansion(expanded, key), key) <==> k in expanded
    ensures key !in expanded ==> ToggleExpansion(ToggleExpansion(expanded, key), key) == expanded
  {
    if key !in expanded {
      FilterAppend(expanded, [key], NotKey(key));
      FilterKeepsAll(expanded, NotKey(key));
      assert Filter([key], NotKey(key)) == [];
      assert expanded + [] == expanded;
    }
  }

  // ---------------------------------------------------------------- reordering

  function Ids(lessons: seq<Lesson>): (r: seq<string>)
    ensures |r| == |lessons|
    ensures forall i :: 0 <= i < |lessons| ==> r[i] == lessons[i].id
  {
    MapSeq(lessons, (l: Lesson) => l.id)
  }

  /** No two lessons share an id. */
  predicate UniqueIds(lessons: seq<Lesson>)
  {
    NoDuplicates(Ids(lessons))
  }

  function IdIs(id: string): Lesson -> bool
  {
    (l: Lesson) => l.id == id
  }

  /** One step of the reorder loop on the ids: taking out position `from` and putting
      the lesson back at `to` moves its id the same way. */
  lemma MoveIds(s: seq<Lesson>, from: nat, to: nat)
    requires from < |s| && to <= |s| - 1
    ensures Ids(InsertAt(RemoveAt(s, from), to, s[from])) == InsertAt(RemoveAt(Ids(s), from), to, s[from].id)
    ensures multiset(Ids(InsertAt(RemoveAt(s, from), to, s[from]))) == multiset(Ids(s))
  {
    var a := Ids(InsertAt(RemoveAt(s, from), to, s[from]));
    var b := InsertAt(RemoveAt(Ids(s), from), to, s[from].id);
    assert a == b by {
      var removed := RemoveAt(s, from);
      var moved := InsertAt(removed, to, s[from]);
      var removedIds := RemoveAt(Ids(s), from);
      forall k | 0 <= k < |removed| ensures removedIds[k] == removed[k].id {
      }
      forall k | 0 <= k < |a| ensures a[k] == b[k] {
        if k < to {
          assert moved[k] == removed[k] && b[k] == removedIds[k];
        } else if k > to {
          assert moved[k] == removed[k - 1] && b[k] == removedIds[k - 1];
        }
      }
    }
    assert multiset(b) == multiset(Ids(s)) by {
      assert Ids(s)[from] == s[from].id;
    }
  }

  /** When the ids are distinct and the first `index` ids already follow `newOrder`,
      the id `newOrder[index]` sits at `index` or later, and moving it to `index`
      extends the agreement by one. */
  lemma MoveExtendsPrefix(s: seq<Lesson>, newOrder: seq<string>, index: nat, from: nat)
    requires UniqueIds(s) && NoDuplicates(newOrder)
    requires index < |newOrder| && index <= |s| && Ids(s)[..index] == newOrder[..index]
    requires from < |s| && s[from].id == newOrder[index]
    ensures index <= from
    ensures var r := InsertAt(RemoveAt(s, from), index, s[from]);
      index + 1 <= |r| && Ids(r)[..index + 1] == newOrder[..index + 1]
  {
    var ids := Ids(s);
    forall k | 0 <= k < index ensures ids[k] != newOrder[index] {
      assert ids[k] == newOrder[..index][k] == newOrder[k];
    }
    MoveIds(s, from, index);
    var moved := InsertAt(RemoveAt(ids, from), index, ids[from]);
    forall k | 0 <= k < index + 1 ensures moved[k] == newOrder[k] {
      if k < index {
        assert moved[k] == RemoveAt(ids, from)[k] == ids[k];
        assert ids[k] == newOrder[..index][k];
      }
    }
    assert moved[..index + 1] == newOrder[..index + 1];
  }

  /** What a drop guarantees: distinct lesson ids, a new order without repeats, and
      every id of the new order present among the lessons. */
  predicate WellFormedDrop(lessons: seq<Lesson>, newOrder: seq<string>)
  {
    UniqueIds(lessons) && NoDuplicates(newOrder) && forall id :: id in newOrder ==> id in Ids(lessons)
  }

  /** The first `index` lessons carry the first `index` ids of the new order. */
  predicate PrefixFollows(r: seq<Lesson>, newOrder: seq<string>, index: nat)
  {
    UniqueIds(r) && index <= |r| && index <= |newOrder| && Ids(r)[..index] == newOrder[..index]
  }

  /** One step of the reorder loop on a well-formed drop: the lesson with the next
      id is found at or after `index`, and moving it there extends the agreement. */
  lemma ReorderStep(lessons: seq<Lesson>, r: seq<Lesson>, newOrder: seq<string>, index: nat)
    requires WellFormedDrop(lessons, newOrder)
    requires multiset(Ids(r)) == multiset(Ids(lessons))
    requires index < |newOrder| && PrefixFollows(r, newOrder, index)
    ensures var j := FindIndex(r, IdIs(newOrder[index]));
      && index <= j
      && PrefixFollows(InsertAt(RemoveAt(r, j), index, r[j]), newOrder, index + 1)
  {
    var id := newOrder[index];
    assert id in newOrder;
    assert id in multiset(Ids(lessons));
    assert id in Ids(r);
    var k :| 0 <= k < |r| && Ids(r)[k] == id;
    assert IdIs(id)(r[k]);
    var j := FindIndex(r, IdIs(id));
    MoveExtendsPrefix(r, newOrder, index, j);
    MoveIds(r, j, index);
    var moved := InsertAt(RemoveAt(r, j), index, r[j]);
    PermutationKeepsNoDuplicates(Ids(r), Ids(moved));
  }

  /** The lessons whose id is not among `ids`. */
  function OutsideOrder(ids: seq<string>): Lesson -> bool
  {
    (l: Lesson) => l.id !in ids
  }

  /** Taking one more id into the order drops from a tail outside the order exactly
      the one lesson carrying that id. */
  lemma OutsideOrderDropsOne(rest: seq<Lesson>, m: nat, pre: seq<string>, id: string)
    requires m < |rest| && rest[m].id == id && UniqueIds(rest)
    requires forall k :: 0 <= k < |rest| ==> OutsideOrder(pre)(rest[k])
    ensures Filter(rest, OutsideOrder(pre + [id])) == RemoveAt(rest, m)
  {
    forall k | 0 <= k < |rest| && k != m
      ensures OutsideOrder(pre + [id])(rest[k])
    {
      assert OutsideOrder(pre)(rest[k]);
      assert Ids(rest)[k] != Ids(rest)[m];
    }
    FilterDropsOnly(rest, m, OutsideOrder(pre + [id]));
  }

  /** A tail of a list with distinct ids has distinct ids. */
  lemma UniqueIdsTail(r: seq<Lesson>, i: nat)
    requires UniqueIds(r) && i <= |r|
    ensures UniqueIds(r[i..])
  {
    forall a, b | 0 <= a < b < |r| - i
      ensures Ids(r[i..])[a] != Ids(r[i..])[b]
    {
      assert Ids(r)[i + a] != Ids(r)[i + b];
    }
  }

  /** One step of the reorder loop on a well-formed drop also keeps the lessons
      after the matched prefix exactly the lessons outside it, in their original
      order: moving the lesson at `j`, which carries the next id, forward to `index`
      takes it out of that tail alone. */
  lemma ReorderStepKeepsRest(lessons: seq<Lesson>, r: seq<Lesson>, newOrder: seq<string>, index: nat, j: nat)
    requires index < |newOrder| && index <= j < |r| && r[j].id == newOrder[index]
    requires UniqueIds(r)
    requires r[index..] == Filter(lessons, OutsideOrder(newOrder[..index]))
    ensures InsertAt(RemoveAt(r, j), index, r[j])[index + 1..] == Filter(lessons, OutsideOrder(newOrder[..index + 1]))
  {
    var id := newOrder[index];
    var pre := newOrder[..index];
    var rest := r[index..];
    var outside := OutsideOrder(pre + [id]);
    calc {
      Filter(lessons, OutsideOrder(newOrder[..index + 1]));
      { PrefixSnoc(newOrder, index); }
      Filter(lessons, outside);
      { FilterStrengthen(lessons, outside, OutsideOrder(pre)); }
      Filter(rest, outside);
      { UniqueIdsTail(r, index);
        OutsideOrderDropsOne(rest, j - index, pre, id); }
      RemoveAt(rest, j - index);
      { MoveForwardTail(r, j, index); }
      InsertAt(RemoveAt(r, j), index, r[j])[index + 1..];
    }
  }

  /** What the reorder loop keeps after handling the first `index` ids of the new
      order: the list is a rearrangement of the lessons, and on a well-formed drop it
      starts with those ids and continues with the lessons outside them, in their
      original order. */
  ghost predicate ReorderInvariant(lessons: seq<Lesson>, newOrder: seq<string>, r: seq<Lesson>, index: nat)
  {
    && index <= |newOrder| && |r| == |lessons|
    && multiset(r) == multiset(lessons)
    && multiset(Ids(r)) == multiset(Ids(lessons))
    && (WellFormedDrop(lessons, newOrder) ==>
          PrefixFollows(r, newOrder, index) && r[index..] == Filter(lessons, OutsideOrder(newOrder[..index])))
  }

  /** One pass of the reorder loop: take the lesson with the id out and put it back
      at `index` (or last, when the shortened list is shorter), if there is one. */
  function ReorderPass(r: seq<Lesson>, id: string, index: nat): (next: seq<Lesson>)
    ensures |next| == |r|
  {
    var j := FindIndex(r, IdIs(id));
    if j == -1 then r
    else
      var removed := RemoveAt(r, j);
      InsertAt(removed, if index <= |removed| then index else |removed|, r[j])
  }

  /** Each pass keeps the reorder loop's invariant, one id further. */
  lemma ReorderLoopStep(lessons: seq<Lesson>, newOrder: seq<string>, r: seq<Lesson>, index: nat)
    requires ReorderInvariant(lessons, newOrder, r, index) && index < |newOrder|
    ensures ReorderInvariant(lessons, newOrder, ReorderPass(r, newOrder[index], index), index + 1)
  {
    var id := newOrder[index];
    var j := FindIndex(r, IdIs(id));
    var next := ReorderPass(r, id, index);
    if j == -1 {
      if WellFormedDrop(lessons, newOrder) {
        ReorderStep(lessons, r, newOrder, index);
        assert false;
      }
    } else {
      var at := if index <= |r| - 1 then index else |r| - 1;
      assert next == InsertAt(RemoveAt(r, j), at, r[j]);
      MoveIds(r, j, at);
      if WellFormedDrop(lessons, newOrder) {
        ReorderStep(lessons, r, newOrder, index);
        ReorderStepKeepsRest(lessons, r, newOrder, index, j);
      }
    }
  }

  /** The body of the reorder loop: `findIndex`, then `splice(lessonIndex, 1)` and
      `splice(index, 0, lesson)`, which appends when `index` is past the end. */
  method MoveLesson(r: seq<Lesson>, id: string, index: nat) returns (r': seq<Lesson>)
    ensures r' == ReorderPass(r, id, index)
  {
    r' := r;
    var lessonIndex := FindIndex(r', IdIs(id));
    if lessonIndex != -1 {
      var lesson := r'[lessonIndex];
      r' := RemoveAt(r', lessonIndex);
      var at := if index <= |r'| then index else |r'|;
      r' := InsertAt(r', at, lesson);
    }
  }

  /** The passes for the ids from `index` on, applied in turn. */
  ghost function ReorderFrom(r: seq<Lesson>, newOrder: seq<string>, index: nat): seq<Lesson>
    requires index <= |newOrder|
    decreases |newOrder| - index
  {
    if index == |newOrder| then r else ReorderFrom(ReorderPass(r, newOrder[index], index), newOrder, index + 1)
  }

  /** The remaining passes carry the reorder loop's invariant to the end of the new order. */
  lemma {:induction false} ReorderFromKeepsInvariant(lessons: seq<Lesson>, newOrder: seq<string>, r: seq<Lesson>, index: nat)
    requires ReorderInvariant(lessons, newOrder, r, index)
    ensures ReorderInvariant(lessons, newOrder, ReorderFrom(r, newOrder, index), |newOrder|)
    decreases |newOrder| - index
  {
    if index < |newOrder| {
      ReorderLoopStep(lessons, newOrder, r, index);
      ReorderFromKeepsInvariant(lessons, newOrder, ReorderPass(r, newOrder[index], index), index + 1);
    }
  }

  /** The `onReorder` handler: for each id of the new order, in turn, the lesson with
      that id is taken out of the (copied) list and put back at the id's position.
      The result is a rearrangement of the lessons; on a well-formed drop the list
      starts with the new order and continues with every other lesson in its
      original order. */
  method Reorder(lessons: seq<Lesson>, newOrder: seq<string>) returns (r: seq<Lesson>)
    ensures |r| == |lessons|
    ensures multiset(r) == multiset(lessons)
    ensures multiset(Ids(r)) == multiset(Ids(lessons))
    ensures WellFormedDrop(lessons, newOrder) ==> |newOrder| <= |r| && Ids(r)[..|newOrder|] == newOrder
    ensures WellFormedDrop(lessons, newOrder) ==> r[|newOrder|..] == Filter(lessons, OutsideOrder(newOrder))
  {
    r := lessons;
    var index: nat := 0;
    while index < |newOrder|
      invariant index <= |newOrder|
      invariant ReorderFrom(r, newOrder, index) == ReorderFrom(lessons, newOrder, 0)
    {
      r := MoveLesson(r, newOrder[index], index);
      index := index + 1;
    }
    assert ReorderInvariant(lessons, newOrder, lessons, 0) by {
      assert newOrder[..0] == [];
      FilterKeepsAll(lessons, OutsideOrder(newOrder[..0]));
    }
    ReorderFromKeepsInvariant(lessons, newOrder, lessons, 0);
    assert newOrder[..|newOrder|] == newOrder;
  }

  // ---------------------------------------------------------------- the page

  class LessonPage {
    var lessons: seq<Lesson>
    var activeFilter: StatusFilter
    var groupBy: GroupBy
    var searchQuery: string
    var editingLesson: Option<Lesson>
    var expandedGroups: seq<GroupKey>
    var newLesson: LessonForm
    var showAddModal: bool

    /** The page opens on all lessons grouped by date, with today's group expanded. */
    constructor (initial: seq<Lesson>, today: int)
      ensures lessons == initial && activeFilter == AllLessons && groupBy == ByDate
      ensures searchQuery == "" && editingLesson == None
      ensures expandedGroups == [DateKey(today)]
      ensures newLesson == EmptyForm(today) && !showAddModal
    {
      lessons := initial;
      activeFilter := AllLessons;
      groupBy := ByDate;
      searchQuery := "";
      editingLesson := None;
      expandedGroups := [DateKey(today)];
      newLesson := EmptyForm(today);
      showAddModal := false;
    }

    method ToggleCompleteById(id: string)
      modifies this`lessons
      ensures lessons == ToggleComplete(old(lessons), id)
    {
      lessons := ToggleComplete(lessons, id);
    }

    /** Submitting the add dialog at instant `nowMs` (day `today`): the lesson is
        appended, the dialog closed, the form cleared and the new lesson's group
        expanded. */
    method AddLessonFromForm(nowMs: nat, today: int)
      modifies this`lessons, this`showAddModal, this`newLesson, this`expandedGroups
      ensures old(newLesson).title == "" ==> unchanged(this)
      ensures old(newLesson).title != "" ==>
        && lessons == AddLesson(old(lessons), old(newLesson), nowMs)
        && !showAddModal && newLesson == EmptyForm(today)
        && expandedGroups == old(expandedGroups) + [KeyOf(lessons[|lessons| - 1], groupBy)]
    {
      if newLesson.title == "" {
        return;
      }
      var lesson := FromForm(newLesson, LessonId(nowMs));
      lessons := lessons + [lesson];
      showAddModal := false;
      newLesson := EmptyForm(today);
      expandedGroups := expandedGroups + [KeyOf(lesson, groupBy)];
    }

    method UpdateEditedLesson()
      modifies this`lessons, this`editingLesson
      ensures old(editingLesson).None? ==> unchanged(this)
      ensures old(editingLesson).Some? ==>
        lessons == UpdateLesson(old(lessons), old(editingLesson)) && editingLesson == None
    {
      if editingLesson.None? {
        return;
      }
      lessons := UpdateLesson(lessons, editingLesson);
      editingLesson := None;
    }

    /** Deleting a lesson also closes its edit dialog, and only its own. */
    method DeleteLessonById(id: string)
      modifies this`lessons, this`editingLesson
      ensures lessons == DeleteLesson(old(lessons), id)
      ensures editingLesson == if old(editingLesson).Some? && old(editingLesson).value.id == id then None else old(editingLesson)
    {
      lessons := DeleteLesson(lessons, id);
      if editingLesson.Some? && editingLesson.value.id == id {
        editingLesson := None;
      }
    }

    method HandleDragEnd(id: string, destination: int)
      modifies this`lessons
      ensures lessons == DragEnd(old(lessons), groupBy, id, destination)
    {
      if groupBy != ByDate {
        return;
      }
      lessons := DragEnd(lessons, groupBy, id, destination);
    }

    method ToggleGroupExpansion(key: GroupKey)
      modifies this`expandedGroups
      ensures expandedGroups == ToggleExpansion(old(expandedGroups), key)
    {
      expandedGroups := ToggleExpansion(expandedGroups, key);
    }

    /** Choosing another grouping collapses every group. */
    method SetGroupBy(grouping: GroupBy)
      modifies this`groupBy, this`expandedGroups
      ensures groupBy == grouping && expandedGroups == []
    {
      groupBy := grouping;
      expandedGroups := [];
    }

    /** Dropping a group's lessons into a new order. */
    method ReorderGroup(newOrder: seq<string>)
      modifies this`lessons
      ensures |lessons| == |old(lessons)| && multiset(lessons) == multiset(old(lessons))
      ensures WellFormedDrop(old(lessons), newOrder) ==>
        |newOrder| <= |lessons| && Ids(lessons)[..|newOrder|] == newOrder
      ensures WellFormedDrop(old(lessons), newOrder) ==>
        lessons[|newOrder|..] == Filter(old(lessons), OutsideOrder(newOrder))
    {
      lessons := Reorder(lessons, newOrder);
    }
  }
}
