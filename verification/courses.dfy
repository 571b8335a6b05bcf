/** The course catalogue page: the four filters (title search, topic, difficulty,
    duration bucket), the topic choices and the enrolment total. */
module Courses {
  import opened Collections
  import opened Text

  /** A course; `estimatedTime` is in hours and `progress` a percentage. */
  datatype Course = Course(
    id: int,
    title: string,
    description: string,
    topic: string,
    estimatedTime: int,
    difficulty: string,
    instructor: string,
    enrollments: int,
    progress: int)

  /** The duration choice: `None` for "all", otherwise the parsed number of hours. */
  type Duration = Option<int>

  /** The duration bucket: 60 means "60 hours or more", any other bound means
      "at most that many hours". */
  predicate DurationOk(course: Course, duration: Duration)
  {
    duration.None? || (if duration.value == 60 then course.estimatedTime >= 60 else course.estimatedTime <= duration.value)
  }

  /** The filter of `filteredCourses`: every condition in force must hold. */
  predicate Matches(course: Course, searchTerm: string, topic: string, difficulty: string, duration: Duration)
  {
    && (searchTerm == "" || MatchesIgnoringCase(course.title, searchTerm))
    && (topic == "all" || course.topic == topic)
    && (difficulty == "all" || course.difficulty == difficulty)
    && DurationOk(course, duration)
  }

  function Shown(searchTerm: string, topic: string, difficulty: string, duration: Duration): Course -> bool
  {
    (course: Course) => Matches(course, searchTerm, topic, difficulty, duration)
  }

  function FilteredCourses(courses: seq<Course>, searchTerm: string, topic: string, difficulty: string,
                           duration: Duration): (r: seq<Course>)
    ensures forall c :: c in r <==> c in courses && Matches(c, searchTerm, topic, difficulty, duration)
  {
    FilterMembers(courses, Shown(searchTerm, topic, difficulty, duration));
    Filter(courses, Shown(searchTerm, topic, difficulty, duration))
  }

  /** The catalogue order is kept, and with every filter off all courses show. */
  lemma FilteredCoursesKeepOrder(courses: seq<Course>, searchTerm: string, topic: string, difficulty: string,
                                 duration: Duration)
    ensures IsSubseq(FilteredCourses(courses, searchTerm, topic, difficulty, duration), courses)
    ensures FilteredCourses(courses, "", "all", "all", None) == courses
  {
    FilterIsSubseq(courses, Shown(searchTerm, topic, difficulty, duration));
    FilterKeepsAll(courses, Shown("", "all", "all", None));
  }

  /** Choosing a topic, a difficulty or a duration only ever removes courses from
      what the same search shows with that choice at "all". */
  lemma FiltersOnlyNarrow(courses: seq<Course>, searchTerm: string, topic: string, difficulty: string,
                          duration: Duration)
    ensures var r := FilteredCourses(courses, searchTerm, topic, difficulty, duration);
      && IsSubseq(r, FilteredCourses(courses, searchTerm, "all", difficulty, duration))
      && IsSubseq(r, FilteredCourses(courses, searchTerm, topic, "all", duration))
      && IsSubseq(r, FilteredCourses(courses, searchTerm, topic, difficulty, None))
  {
    var p := Shown(searchTerm, topic, difficulty, duration);
    FilterStrongerIsSubseq(courses, p, Shown(searchTerm, "all", difficulty, duration));
    FilterStrongerIsSubseq(courses, p, Shown(searchTerm, topic, "all", duration));
    FilterStrongerIsSubseq(courses, p, Shown(searchTerm, topic, difficulty, None));
  }

  /** The offered buckets: "under 20" shows a part of "under 40", and neither
      shares a course with "60+". */
  lemma DurationBuckets(courses: seq<Course>, searchTerm: string, topic: string, difficulty: string)
    ensures IsSubseq(FilteredCourses(courses, searchTerm, topic, difficulty, Some(20)),
                     FilteredCourses(courses, searchTerm, topic, difficulty, Some(40)))
    ensures forall c :: c in FilteredCourses(courses, searchTerm, topic, difficulty, Some(40)) ==>
                        c !in FilteredCourses(courses, searchTerm, topic, difficulty, Some(60))
  {
    FilterStrongerIsSubseq(courses, Shown(searchTerm, topic, difficulty, Some(20)), Shown(searchTerm, topic, difficulty, Some(40)));
  }

  function TopicOf(course: Course): string
  {
    course.topic
  }

  /** The topic choices: "all", then each course topic once. */
  function Topics(courses: seq<Course>): (r: seq<string>)
    ensures |r| >= 1 && r[0] == "all"
    ensures forall t :: t in r[1..] <==> exists i :: 0 <= i < |courses| && courses[i].topic == t
    ensures NoDuplicates(r[1..])
  {
    var topics := MapSeq(courses, TopicOf);
    assert forall t :: t in topics <==> exists i :: 0 <= i < |courses| && courses[i].topic == t by {
      forall t | t in topics
        ensures exists i :: 0 <= i < |courses| && courses[i].topic == t
      {
        var i :| 0 <= i < |topics| && topics[i] == t;
        assert courses[i].topic == t;
      }
    }
    Choices("all", topics)
  }

  function EnrollmentsOf(course: Course): int
  {
    course.enrollments
  }

  /** The "Active Learners" figure: the enrolments summed over every course. */
  function TotalEnrollments(courses: seq<Course>): int
  {
    Sum(courses, EnrollmentsOf)
  }

  /** The total is not negative, grows by each added course's enrolments, and is
      at least what any filtered part of the catalogue adds up to. */
  lemma TotalEnrollmentsBounds(courses: seq<Course>, more: seq<Course>, keep: Course -> bool)
    requires forall i :: 0 <= i < |courses| ==> courses[i].enrollments >= 0
    ensures TotalEnrollments(courses) >= 0
    ensures TotalEnrollments(courses + more) == TotalEnrollments(courses) + TotalEnrollments(more)
    ensures TotalEnrollments(Filter(courses, keep)) <= TotalEnrollments(courses)
  {
    SumNonNegative(courses, EnrollmentsOf);
    SumAppend(courses, more, EnrollmentsOf);
    SumFilterAtMost(courses, keep, EnrollmentsOf);
  }
}
