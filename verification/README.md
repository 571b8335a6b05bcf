# Learning tracker pages, modelled in Dafny

This project models the page logic of a single-page learning tracker. It covers:

- flashcard review with a simple spaced-repetition rule;
- a quiz engine;
- a habit tracker;
- a lesson planner with grouping and drag-to-reorder;
- a reading log;
- a note editor;
- a course catalogue;
- the dashboard that summarises them.

Each page is a module. Its records are datatypes. Its component state is a class whose fields the handlers update (`modifies`). Every list update the page makes is also a pure function with lemmas, and each handler's `ensures` ties the new state to that function. Shared JavaScript behaviour lives in four small modules:

- `Collections`: `filter`, `map`, `[...new Set(...)]`, `splice`, `slice`, `findIndex`, `Math.max(0, ...ids) + 1`, `reduce` as a sum.
- `Text`: `toLowerCase`, `includes`, `localeCompare`, `toString`, `padStart`.
- `Sorting`: `Array.prototype.sort` with a consistent comparator, as a stable insertion sort.
- `Clock`: millisecond instants and calendar days.

Conventions:

- Dates that the pages store as `yyyy-MM-dd` strings are day numbers.
- Instants are milliseconds.
- `Date.now()` and "today" are parameters of the operations that read them. Where the code reads the clock twice, at render and at a click, the flashcard answer takes both instants.
- The one-second quiz timers are separate steps that the page takes one after another.

Four behaviours of the code are worth stating:

- After an answer, the flashcard page does not move to the card that followed the answered one. `handleNext` steps the old cursor over the list from before the answer (Finding 1). The page methods do exactly this; `Flashcards.Answer` is the corrected step, and `Flashcards.AnswerAsWrittenAgreesWhenCardStays` shows the two agree while the answered card stays listed.
- The quiz's delayed step tests the question index and count captured when the answer was given (Finding 3). `Quizzes.QuizPage.AdvanceAfterAnswer` does exactly this; `Quizzes.Advance` is the corrected step, and `Quizzes.AdvanceAsWrittenAgreesWhenAwaited` shows the two agree while the answer that scheduled the step is on screen.
- The flashcard page's due test compares full timestamps. The dashboard's "due today" compares calendar days. Both are modelled, and `Dashboard.DueTodayDiffersFromDueTab` states how they differ.
- "Review tomorrow" is one calendar day in the local zone. With one zone and no daylight-saving changes, that is exactly `DayMs` milliseconds.

## Model

| member | source | states |
|---|---|---|
| Text.Lower | src/pages/ReadingLog.tsx:53-58 | `toLowerCase` keeps the length; ASCII capitals become lower case and every other character is unchanged |
| Text.IncludesIffOccurs | src/pages/ReadingLog.tsx:55-57 | `hay.includes(needle)` holds exactly when the needle occurs at some position of the haystack |
| Text.LexCompare | src/pages/ReadingLog.tsx:69-72 | `localeCompare` (by code units) returns -1, 0 or 1, and 0 exactly for equal strings |
| Text.LexCompareAntisymmetric | src/pages/ReadingLog.tsx:69-72 | swapping the two strings negates the comparison |
| Text.LexCompareTransitive | src/pages/ReadingLog.tsx:69-72 | "sorts no later than" is transitive |
| Text.Decimal | src/pages/QuizEngine.tsx:110 | `n.toString()` is a non-empty string of digits with no leading zero for n >= 10 |
| Text.DecimalRoundTrip | src/pages/QuizEngine.tsx:110 | reading back the digits of `n.toString()` gives `n` |
| Text.PadStart | src/pages/QuizEngine.tsx:110 | `padStart` result has length max(width, input length), ends with the input and is pad characters before it |
| Clock.DayBounds | src/pages/Dashboard.tsx:21-23 | an instant lies between the midnight of its day and the next midnight |
| Clock.OnDayIff | src/pages/Dashboard.tsx:21-23 | an instant falls on day d exactly when it lies in [midnight of d, midnight of d+1) |
| Clock.DayOfAddDays | src/pages/FlashcardSystem.tsx:61-63 | adding n days to an instant moves its calendar day by n |
| Collections.Filter | src/pages/HabitTracker.tsx:102 | `filter` never grows the list, and every element it keeps passes the test |
| Collections.FilterMembers | src/pages/HabitTracker.tsx:102 | a value is in the result exactly when it is in the input and passes the test |
| Collections.FilterMultiplicity | src/pages/HabitTracker.tsx:102 | a value passing the test occurs in the result as often as in the input; any other value not at all |
| Collections.FilterCountUpdate | src/pages/FlashcardSystem.tsx:109 | replacing one element moves the length of the filtered list by the change in that element's test alone |
| Collections.FilterUpdateSingle | src/pages/FlashcardSystem.tsx:25-33 | filtering a list with one element replaced changes the result only at that element's place |
| Collections.FilterIsSubseq | src/pages/HabitTracker.tsx:102 | `filter` keeps the order of the elements it keeps |
| Collections.Distinct | src/pages/FlashcardSystem.tsx:22 | `[...new Set(s)]` holds exactly the values of `s`, each once |
| Collections.DistinctInFirstOccurrenceOrder | src/pages/FlashcardSystem.tsx:22 | the set lists values in the order they first occur |
| Collections.Choices | src/pages/QuizEngine.tsx:40 | `['all', ...new Set(s)]` starts with "all", then holds exactly the values of `s`, without repeats |
| Collections.ChoicesNoDuplicates | src/pages/QuizEngine.tsx:40 | the whole choice list is free of repeats exactly when no value is itself "all" |
| Collections.MaxOr0 | src/pages/HabitTracker.tsx:205 | `Math.max(0, ...xs)` is at least 0 and every x, and is 0 or one of the xs |
| Collections.NextId | src/pages/HabitTracker.tsx:84 | `Math.max(0, ...ids) + 1` is positive, above every id and so not among them |
| Collections.Take | src/pages/Dashboard.tsx:156 | `slice(0, n)` is a prefix of length min(n, length) |
| Collections.FindIndex | src/pages/LessonTracker.tsx:466 | `findIndex` is the first index passing the test, and -1 exactly when none passes |
| Collections.RemoveAt | src/pages/LessonTracker.tsx:468 | `splice(i, 1)` drops element i, shifts the rest down and keeps the multiset minus that element |
| Collections.InsertAt | src/pages/LessonTracker.tsx:469 | `splice(i, 0, x)` puts x at i, shifts the rest up and adds x to the multiset |
| Collections.SumFilterAtMost | src/pages/CoursesCatalog.tsx:287 | a sum of non-negative terms over a filtered list is at most the sum over the whole list |
| Sorting.Sort | src/pages/LessonTracker.tsx:116-124 | `sort` returns a permutation of its input |
| Sorting.SortIsSorted | src/pages/LessonTracker.tsx:116-124 | with a consistent comparator the result is in comparator order |
| Sorting.NegatedConsistent | src/pages/ReadingLog.tsx:86 | negating a consistent comparator gives a consistent comparator |
| Flashcards.Know | src/pages/FlashcardSystem.tsx:53-66 | the "know" update of one card at the click instant; its effect is stated by `KnowEffect` |
| Flashcards.DontKnow | src/pages/FlashcardSystem.tsx:81-92 | the "don't know" update of one card at the click instant; its effect is stated by `DontKnowEffect` |
| Flashcards.Review | src/pages/FlashcardSystem.tsx:53-92 | the update an answer applies: "know" or "don't know" |
| Flashcards.KnowEffect | src/pages/FlashcardSystem.tsx:47-66 | "know": text and id kept, difficulty down one (floor 1), one more repetition, next review 2*(repetitions+1) days after now, last review now |
| Flashcards.DontKnowEffect | src/pages/FlashcardSystem.tsx:75-94 | "don't know": difficulty up one (cap 5), repetitions reset to 0, next review exactly one day after now |
| Flashcards.ReviewKeepsWellFormed | src/pages/FlashcardSystem.tsx:55-58 | both answers keep difficulty in 1..5 and repetitions non-negative |
| Flashcards.KnowNotIdempotent | src/pages/FlashcardSystem.tsx:58-61 | answering "know" twice differs from once |
| Flashcards.KnowIntervalGrows | src/pages/FlashcardSystem.tsx:61-63 | each further "know" pushes the next review strictly later |
| Flashcards.ScheduleExamples | src/pages/FlashcardSystem.tsx:55-90 | the worked examples: (3,1) know gives (2,2,+4 days); (1,5) know gives (1,6,+12 days); (2,4) don't know gives (3,0,+1 day) |
| Flashcards.FilteredCards | src/pages/FlashcardSystem.tsx:25-33 | the cards listed at a given instant, never more than the collection; membership is stated by `FilteredCardsMembers` |
| Flashcards.FilteredCardsMembers | src/pages/FlashcardSystem.tsx:25-33 | a card is listed iff it is in the selected deck (if any) and, on the due tab, its review instant has passed |
| Flashcards.FilteredCardsKeepOrder | src/pages/FlashcardSystem.tsx:25-33 | the listed cards keep the collection's order |
| Flashcards.DueListGrows | src/pages/FlashcardSystem.tsx:28-30 | as time passes, the due list only gains cards |
| Flashcards.Decks | src/pages/FlashcardSystem.tsx:22 | each deck once, exactly the decks of the cards |
| Flashcards.MasteredCount | src/pages/FlashcardSystem.tsx:109 | the mastered figure (cards with difficulty <= 2 and repetitions >= 3) is at most the number of cards, and 0 exactly when no card is mastered |
| Flashcards.AnswerMovesMasteredCount | src/pages/FlashcardSystem.tsx:47-109 | an answer moves the mastered figure by the change of the answered card alone: "don't know" on a mastered card lowers it by one; "know" on a mastered card, or "don't know" on an unmastered one, keeps it |
| Flashcards.DueCount | src/pages/FlashcardSystem.tsx:110 | the due figure counts cards whose review instant has passed |
| Flashcards.DueCountMatchesDueTab | src/pages/FlashcardSystem.tsx:110 | the "Due Today (n)" badge equals the length of the due tab with no deck chosen |
| Flashcards.ReviewAndMastery | src/pages/FlashcardSystem.tsx:55-86 | "know" keeps a mastered card mastered; "don't know" always un-masters it |
| Flashcards.IndexOfId | src/pages/FlashcardSystem.tsx:49 | the position of the first card with the shown card's id, or -1 when none |
| Flashcards.Answered | src/pages/FlashcardSystem.tsx:48-70 | the collection after answering: the card whose id the render showed is reviewed at the click instant, length kept |
| Flashcards.AnsweredReplacesOnlyThatCard | src/pages/FlashcardSystem.tsx:48-70 | answering changes exactly the first card carrying the shown id and no other |
| Flashcards.StepsKeepCursorInRange | src/pages/FlashcardSystem.tsx:35-45 | next and previous never move the cursor off a non-empty list |
| Flashcards.AnswerAsWritten | src/pages/FlashcardSystem.tsx:47-73 | the answer as written: the card update, then `handleNext` over the list rendered before the answer |
| Flashcards.AnswerAsWrittenAgreesWhenCardStays | src/pages/FlashcardSystem.tsx:35-100 | while the answered card stays listed, the answer as written and the corrected answer give the same cards and cursor |
| Flashcards.AnswerAsWrittenLeavesList | src/pages/FlashcardSystem.tsx:72 | on the due tab the cursor can end up past the end of the new list |
| Flashcards.AnswerAsWrittenSkipsCard | src/pages/FlashcardSystem.tsx:99 | on the due tab a "don't know" on the first of three cards skips the second card |
| Flashcards.AnswerUsesRenderedList | src/pages/FlashcardSystem.tsx:25-73 | a card falling due between render and click is not answered: the rendered card is reviewed and the cursor steps over the rendered list |
| Flashcards.CursorAfterAnswer | src/pages/FlashcardSystem.tsx:35-39 | the corrected cursor after an answer always lies in the new list |
| Flashcards.Answer | src/pages/FlashcardSystem.tsx:47-100 | the corrected answer: the same card update, with the cursor in range of the new list as of the render and of any later instant |
| Flashcards.ShownCardPosition | src/pages/FlashcardSystem.tsx:49 | with distinct ids, the shown card is found at the position `findIndex` returns |
| Flashcards.AnsweredListShape | src/pages/FlashcardSystem.tsx:48-70 | with distinct ids, answering changes the listed cards only at the answered card |
| Flashcards.AnswerDoesNotSkip | src/pages/FlashcardSystem.tsx:47-100 | corrected: the list loses at most the answered card, and then the cursor lands on the card that followed it |
| Flashcards.FlashcardPage.constructor | src/pages/FlashcardSystem.tsx:16-18 | the page opens on the due tab, all decks, cursor 0 |
| Flashcards.FlashcardPage.HandleNext | src/pages/FlashcardSystem.tsx:35-39 | steps forward unless on the last listed card, keeping the cursor in range |
| Flashcards.FlashcardPage.HandlePrevious | src/pages/FlashcardSystem.tsx:41-45 | steps back unless on the first card, keeping the cursor in range |
| Flashcards.FlashcardPage.HandleKnow | src/pages/FlashcardSystem.tsx:47-73 | as written: the card the render showed is updated field by field at the click instant, then the cursor steps over the rendered list; while the card stays listed this is the corrected answer, with the cursor in range at the click |
| Flashcards.FlashcardPage.HandleDontKnow | src/pages/FlashcardSystem.tsx:75-100 | as written, the same for "don't know": the rendered card, the click instant, the rendered-list step, and the corrected answer while the card stays listed |
| Flashcards.FlashcardPage.SelectTab | src/pages/FlashcardSystem.tsx:102-105 | a tab change resets the cursor to the first card |
| Flashcards.FlashcardPage.SelectDeck | src/pages/FlashcardSystem.tsx:102-105 | a deck change resets the cursor to the first card |
| Flashcards.SelectTabAsWrittenRendersOldCursor | src/pages/FlashcardSystem.tsx:102-105 | as written, the render after a tab change reads the old cursor, which can lie outside the new list |
| Habits.ToggleHabit | src/pages/HabitTracker.tsx:60-74 | a toggle changes only the dates and the streak: today is added when absent and removed when present |
| Habits.ToggleOnEffect | src/pages/HabitTracker.tsx:62-72 | marking done appends today and adds one to the streak |
| Habits.ToggleOffEffect | src/pages/HabitTracker.tsx:62-72 | undoing removes every occurrence of today, keeps the other dates in order and lowers the streak by one, not below 0 |
| Habits.ToggleKeepsStreakNonNegative | src/pages/HabitTracker.tsx:69-71 | a toggle never makes a non-negative streak negative |
| Habits.ToggleTwiceRestores | src/pages/HabitTracker.tsx:60-74 | from "not done today", toggling twice restores the habit exactly |
| Habits.ToggleTwiceFromDone | src/pages/HabitTracker.tsx:60-74 | from "done today", toggling twice moves today to the end and can raise a zero streak to 1 |
| Habits.ToggleCompletion | src/pages/HabitTracker.tsx:57-78 | `toggleHabitCompletion` keeps the number of habits |
| Habits.ToggleCompletionOnlyThatHabit | src/pages/HabitTracker.tsx:59-75 | only the habits with that id change, in place |
| Habits.ToggleCompletionTwiceRestores | src/pages/HabitTracker.tsx:57-78 | toggling the same habit twice from "not done today" restores the list |
| Habits.FreshId | src/pages/HabitTracker.tsx:84 | a new habit's id is positive and above every existing id |
| Habits.AddHabit | src/pages/HabitTracker.tsx:80-99 | nothing without a title; otherwise one habit from the form, streak 0, no dates, appended |
| Habits.DeleteHabit | src/pages/HabitTracker.tsx:101-104 | exactly the habits with another id remain, each as often as before |
| Habits.DeleteHabitKeepsOrder | src/pages/HabitTracker.tsx:101-104 | deletion keeps the order, and an unknown id changes nothing |
| Habits.AddThenDeleteRestores | src/pages/HabitTracker.tsx:80-104 | deleting the habit just added gives the list back |
| Habits.DailyProgress | src/pages/HabitTracker.tsx:106-113 | a daily habit's progress is 100 iff today is among its dates, else 0 |
| Habits.ToggleFlipsProgress | src/pages/HabitTracker.tsx:106-113 | a toggle flips today's progress between 0 and 100 |
| Habits.CompletedTodayCount | src/pages/HabitTracker.tsx:183-188 | the "completed today" figure (habits with today among their dates) is at most the number of habits, and 0 exactly when none is done today |
| Habits.ToggleMovesCompletedToday | src/pages/HabitTracker.tsx:183-188 | toggling the one habit with a given id lowers the figure by one when it was done today and raises it by one otherwise |
| Habits.LongestStreak | src/pages/HabitTracker.tsx:205 | the longest streak is at least 0, at least every streak, and one of them unless 0 |
| Habits.JsRem | src/pages/HabitTracker.tsx:314 | JavaScript `%` keeps the sign of the dividend and agrees with the modulus for non-negative input |
| Habits.StreakBar | src/pages/HabitTracker.tsx:314 | seven segments, segment i lit iff i < streak % 7 |
| Habits.LitCount | src/pages/HabitTracker.tsx:314 | at most as many lit segments as segments |
| Habits.StreakBarShape | src/pages/HabitTracker.tsx:314 | lit segments are the first streak mod 7; a whole number of weeks, or a negative streak, lights none |
| Habits.HabitPage.constructor | src/pages/HabitTracker.tsx:37-45 | the page opens with the default form and the dialog closed |
| Habits.HabitPage.ToggleHabitCompletion | src/pages/HabitTracker.tsx:57-78 | the list becomes `ToggleCompletion` of the old list |
| Habits.HabitPage.AddHabitFromForm | src/pages/HabitTracker.tsx:80-99 | with a title, the habit is appended, the form reset and the dialog closed; otherwise nothing changes |
| Habits.HabitPage.DeleteHabitById | src/pages/HabitTracker.tsx:101-104 | the list becomes `DeleteHabit` of the old list |
| Lessons.StatusOk | src/pages/LessonTracker.tsx:72-80 | the status tab test; restated in days by `StatusFiltersInDays` |
| Lessons.FilteredLessons | src/pages/LessonTracker.tsx:70-93 | a lesson is listed iff its status tab test and the search (title, description or subject, ignoring case) pass |
| Lessons.StatusFiltersInDays | src/pages/LessonTracker.tsx:72-80 | "upcoming" is unfinished and due today or later; "overdue" is unfinished and due before today, or today once midnight has passed |
| Lessons.DueTodayIsUpcomingAndOverdue | src/pages/LessonTracker.tsx:72-80 | an unfinished lesson due today, after midnight, appears on both the upcoming and the overdue tab |
| Lessons.LessonStats | src/pages/LessonTracker.tsx:232-239 | total, completed, overdue and upcoming counts, none above the total |
| Lessons.StatsMatchTabs | src/pages/LessonTracker.tsx:233-239 | with no search, each status tab lists as many lessons as its statistic shows |
| Lessons.OverdueAndUpcomingOverlap | src/pages/LessonTracker.tsx:234-239 | overdue + upcoming = unfinished lessons + the lessons due today counted on both |
| Lessons.GroupKeys | src/pages/LessonTracker.tsx:96-116 | every group name once, exactly the names the lessons carry |
| Lessons.Group | src/pages/LessonTracker.tsx:96-113 | a group holds exactly the lessons with that name |
| Lessons.GroupKeysSnoc | src/pages/LessonTracker.tsx:107-111 | a lesson opens its group only when the name is new |
| Lessons.GroupSizeSnoc | src/pages/LessonTracker.tsx:111 | a lesson joins its own group and no other |
| Lessons.GroupOfMissingKey | src/pages/LessonTracker.tsx:107-109 | a name no lesson carries has an empty group |
| Lessons.GroupSizesSum | src/pages/LessonTracker.tsx:96-113 | the group sizes add up to the number of lessons |
| Lessons.GroupKeepsOrder | src/pages/LessonTracker.tsx:111 | each group keeps the list order |
| Lessons.GroupSnoc | src/pages/LessonTracker.tsx:111 | an appended lesson joins the end of its own group and no other |
| Lessons.GroupInsertGrouped | src/pages/LessonTracker.tsx:107-112 | one step of the `reduce` keeps the names and groups exact for the list grown by one lesson |
| Lessons.GroupStateGrouped | src/pages/LessonTracker.tsx:96-113 | the `reduce` yields the group names in first-seen order and, for each, exactly its lessons in order |
| Lessons.GroupLessons | src/pages/LessonTracker.tsx:96-113 | the `reduce` loop yields exactly the group names in first-seen order and each group's lessons in order |
| Lessons.KeyCompare | src/pages/LessonTracker.tsx:116-124 | the group-key comparator: day order, high-medium-low, or code-unit order; its consistency is `KeyCompareConsistent` |
| Lessons.KeyCompareNoLaterKind | src/pages/LessonTracker.tsx:116-124 | the key comparator never places a key before one of an earlier kind |
| Lessons.KeyCompareConsistent | src/pages/LessonTracker.tsx:116-124 | the group-key comparator is consistent |
| Lessons.SortedGroupKeys | src/pages/LessonTracker.tsx:116-124 | the sorted names are a permutation of the group names |
| Lessons.SortedGroupKeysOrdered | src/pages/LessonTracker.tsx:116-124 | the sorted names are each group once, in comparator order |
| Lessons.PriorityGroupsHighToLow | src/pages/LessonTracker.tsx:119-121 | grouped by priority: high, then medium, then low |
| Lessons.DateGroupsEarliestFirst | src/pages/LessonTracker.tsx:117-118 | grouped by date: strictly from the earliest day to the latest |
| Lessons.ToggleComplete | src/pages/LessonTracker.tsx:127-132 | the lessons with that id flip completion; the others stay |
| Lessons.ToggleCompleteTwice | src/pages/LessonTracker.tsx:127-132 | toggling twice restores the list |
| Lessons.LessonIdInjective | src/pages/LessonTracker.tsx:140 | lessons added at different instants get different ids |
| Lessons.AddLesson | src/pages/LessonTracker.tsx:135-143 | nothing without a title; otherwise the form's lesson with the instant's id is appended |
| Lessons.UpdateLesson | src/pages/LessonTracker.tsx:167-175 | every lesson with the edited id is replaced by the edited lesson; nothing without an edit |
| Lessons.UpdateLessonIdempotent | src/pages/LessonTracker.tsx:167-175 | saving the same edit twice equals saving it once |
| Lessons.DeleteLesson | src/pages/LessonTracker.tsx:178-185 | exactly the lessons with another id remain, each as often as before |
| Lessons.DeleteLessonKeepsOrder | src/pages/LessonTracker.tsx:178-185 | deletion keeps the order |
| Lessons.DragEnd | src/pages/LessonTracker.tsx:188-195 | only when grouped by date, the lessons with that id move to the destination day |
| Lessons.DragEndJoinsDestination | src/pages/LessonTracker.tsx:188-195 | after the drop the moved lessons belong to the destination group |
| Lessons.ToggleExpansion | src/pages/LessonTracker.tsx:198-204 | a listed key is removed (every copy); an absent one is appended |
| Lessons.ToggleExpansionTwice | src/pages/LessonTracker.tsx:198-204 | expanding then collapsing restores the list; collapsing then expanding moves the key last |
| Lessons.MoveIds | src/pages/LessonTracker.tsx:466-469 | one reorder step moves the id at the found position to the target position |
| Lessons.MoveExtendsPrefix | src/pages/LessonTracker.tsx:465-470 | one reorder step extends the prefix that follows the new order by one |
| Lessons.ReorderStep | src/pages/LessonTracker.tsx:465-470 | a loop step keeps the permutation and the prefix invariant |
| Lessons.ReorderStepKeepsRest | src/pages/LessonTracker.tsx:465-470 | a loop step keeps the lessons after the matched prefix exactly the lessons outside it, in their original order |
| Lessons.ReorderPass | src/pages/LessonTracker.tsx:465-470 | one pass of the loop: the lesson with the id taken out and put back at the position, or last; the length is kept |
| Lessons.MoveLesson | src/pages/LessonTracker.tsx:466-469 | the `findIndex` and the two `splice` calls compute exactly one pass |
| Lessons.ReorderLoopStep | src/pages/LessonTracker.tsx:465-470 | each pass keeps the permutation, the matched prefix and the order of the other lessons, one id further |
| Lessons.ReorderFromKeepsInvariant | src/pages/LessonTracker.tsx:465-470 | the remaining passes carry that invariant to the end of the new order |
| Lessons.Reorder | src/pages/LessonTracker.tsx:463-472 | the reorder is a permutation of the lessons; for a drop with distinct, present ids the list starts with the new order and continues with every other lesson in its original order |
| Lessons.LessonPage.constructor | src/pages/LessonTracker.tsx:40-46 | the page opens on all lessons, grouped by date, with today's group expanded |
| Lessons.LessonPage.ToggleCompleteById | src/pages/LessonTracker.tsx:127-132 | the list becomes `ToggleComplete` of the old list |
| Lessons.LessonPage.AddLessonFromForm | src/pages/LessonTracker.tsx:135-164 | with a title, the lesson is appended, the dialog closed, the form reset and its group expanded |
| Lessons.LessonPage.UpdateEditedLesson | src/pages/LessonTracker.tsx:167-175 | with an edit open, it is saved and the edit closed; otherwise nothing changes |
| Lessons.LessonPage.DeleteLessonById | src/pages/LessonTracker.tsx:178-185 | the lesson goes, and the edit closes exactly when it was that lesson's |
| Lessons.LessonPage.HandleDragEnd | src/pages/LessonTracker.tsx:188-195 | the list becomes `DragEnd` of the old list |
| Lessons.LessonPage.ToggleGroupExpansion | src/pages/LessonTracker.tsx:198-204 | the expanded keys become `ToggleExpansion` of the old ones |
| Lessons.LessonPage.SetGroupBy | src/pages/LessonTracker.tsx:378-383 | another grouping collapses every group |
| Lessons.LessonPage.ReorderGroup | src/pages/LessonTracker.tsx:462-473 | the list is permuted and, for a well-formed drop, starts with the new order followed by the other lessons in their old order |
| Quizzes.CorrectCount | src/pages/QuizEngine.tsx:71-75 | the correct answers in the log: at most the log length, and equal to it iff every answer was right |
| Quizzes.Answer | src/pages/QuizEngine.tsx:65-77 | a second answer is ignored; otherwise the answer is selected, the score rises by one iff it is correct, and the correctness is logged |
| Quizzes.Advance | src/pages/QuizEngine.tsx:79-93 | corrected step: with no answer awaiting it, or on a completed attempt, nothing changes; otherwise the next question with no selection, or completion on the last one; score, log and time are kept |
| Quizzes.AdvanceAsWritten | src/pages/QuizEngine.tsx:79-93 | the delayed step as written leaves score and log alone |
| Quizzes.AdvanceAsWrittenAgreesWhenAwaited | src/pages/QuizEngine.tsx:79-93 | with the captured index of the answer still on screen, the step as written equals the corrected step |
| Quizzes.AdvanceAsWrittenKeepsConsistent | src/pages/QuizEngine.tsx:79-93 | on that path the step as written keeps the attempt consistent |
| Quizzes.Tick | src/pages/QuizEngine.tsx:49-63 | the interval adds a second until the attempt completes, then stops |
| Quizzes.InitialConsistent | src/pages/QuizEngine.tsx:27-34 | the initial state is consistent for any non-empty quiz |
| Quizzes.AnswerKeepsConsistent | src/pages/QuizEngine.tsx:65-77 | answering keeps score = correct answers and one log entry per answered question |
| Quizzes.AnswerOnce | src/pages/QuizEngine.tsx:66 | a question is answered at most once |
| Quizzes.AdvanceKeepsConsistent | src/pages/QuizEngine.tsx:79-93 | corrected: the step keeps the cursor on a question and completes only on the last one |
| Quizzes.TickKeepsConsistent | src/pages/QuizEngine.tsx:49-63 | ticking keeps the attempt consistent |
| Quizzes.AnswerThenAdvance | src/pages/QuizEngine.tsx:65-93 | answer and step: the next question with no selection, or a completed attempt on the last question; the step as written agrees here |
| Quizzes.CompletedAnsweredAll | src/pages/QuizEngine.tsx:80-92 | a completed attempt has one answer per question and a score of at most the question count |
| Quizzes.AdvanceLeavesFreshAttempt | src/pages/QuizEngine.tsx:79-93 | corrected: a step that finds a fresh attempt leaves it unchanged |
| Quizzes.AdvanceAsWrittenCorruptsFreshAttempt | src/pages/QuizEngine.tsx:80 | as written, a step pending from the previous quiz moves a fresh attempt past question 1, or completes it with score 0 |
| Quizzes.FormatTime | src/pages/QuizEngine.tsx:107-111 | the text is minutes, a colon, two seconds digits |
| Quizzes.FormatTimeRoundTrip | src/pages/QuizEngine.tsx:107-111 | the minutes part is the decimal of s div 60, the seconds part reads below 60, and minutes*60 + seconds = s |
| Quizzes.FilteredQuizzes | src/pages/QuizEngine.tsx:43-47 | a quiz is listed iff (topic "all" or its topic) and its difficulty is the chosen one |
| Quizzes.FilteredQuizzesNarrow | src/pages/QuizEngine.tsx:43-47 | the list keeps the catalogue order, and one topic lists part of what "all" lists |
| Quizzes.Topics | src/pages/QuizEngine.tsx:40 | "all", then exactly the quiz topics, each once |
| Quizzes.QuizPage.constructor | src/pages/QuizEngine.tsx:26-38 | the first quiz (if any), initial attempt, beginner, all topics |
| Quizzes.QuizPage.HandleAnswerSelect | src/pages/QuizEngine.tsx:65-77 | on any attempt showing a question, the attempt becomes `Answer` of the old one; a consistent attempt stays consistent |
| Quizzes.QuizPage.AdvanceAfterAnswer | src/pages/QuizEngine.tsx:79-93 | as written: the attempt becomes `AdvanceAsWritten` with the captured index and count; when they are those of the answer on screen, it is `Advance` and stays consistent |
| Quizzes.QuizPage.TickSecond | src/pages/QuizEngine.tsx:49-63 | on any attempt, the attempt becomes `Tick` of the old one; a consistent attempt stays consistent |
| Quizzes.QuizPage.ResetQuiz | src/pages/QuizEngine.tsx:96-105 | the attempt is exactly the initial state |
| Quizzes.QuizPage.SelectQuiz | src/pages/QuizEngine.tsx:348-351 | picking a quiz shows it with a fresh attempt |
| Quizzes.QuizPage.NextQuiz | src/pages/QuizEngine.tsx:292-297 | "Next Quiz" shows the picked quiz and keeps the attempt; a completed attempt kept for a shorter quiz is no longer consistent |
| Quizzes.KeptAttemptInconsistent | src/pages/QuizEngine.tsx:247-295 | a completed attempt sits on its quiz's last question, so for a shorter quiz it points past the questions |
| Reading.NextSort | src/pages/ReadingLog.tsx:42-49 | the same field flips the direction; another field is selected ascending |
| Reading.NextSortTwice | src/pages/ReadingLog.tsx:42-49 | clicking one header twice restores the direction (or gives descending for a new field) |
| Reading.CompareBy | src/pages/ReadingLog.tsx:66-85 | the ascending comparison of one field: code-unit order for text, instants with a missing date as 0, numbers by difference |
| Reading.LogOrder | src/pages/ReadingLog.tsx:86 | the chosen field's comparison, negated for descending |
| Reading.LogOrderConsistent | src/pages/ReadingLog.tsx:66-87 | every field's comparator, ascending or descending, is consistent |
| Reading.SortedLogs | src/pages/ReadingLog.tsx:51-87 | the list is a permutation of the matching books |
| Reading.SortedLogsOrdered | src/pages/ReadingLog.tsx:51-87 | exactly the matching books, ascending or descending by the chosen field |
| Reading.DefaultOrderNewestFirst | src/pages/ReadingLog.tsx:74-78 | the default order is start date, newest first, with a missing date counted as time 0 |
| Reading.SearchIgnoresGenre | src/pages/ReadingLog.tsx:52-62 | while a search is typed the genre choice has no effect |
| Reading.NoFilterKeepsAll | src/pages/ReadingLog.tsx:51-65 | no search and "all" genres lists every book in log order |
| Reading.Genres | src/pages/ReadingLog.tsx:40 | "all", then exactly the genres, each once |
| Reading.CountsDisjoint | src/pages/ReadingLog.tsx:141 | currently reading (unfinished, progress > 0) and completed never overlap, so together they count at most all books |
| Reading.AddBook | src/pages/ReadingLog.tsx:89-104 | missing title or author: nothing; invalid start date: alert; otherwise the form's book, unfinished, with a fresh positive id, appended |
| Reading.AddBookKeepsLog | src/pages/ReadingLog.tsx:98-104 | adding keeps ids distinct and leaves the completed count unchanged |
| Reading.ReadingPage.constructor | src/pages/ReadingLog.tsx:22-37 | the page opens sorted by start date descending, no search, all genres |
| Reading.ReadingPage.HandleSort | src/pages/ReadingLog.tsx:42-49 | the sort state becomes `NextSort` of the old one |
| Reading.ReadingPage.HandleAddBook | src/pages/ReadingLog.tsx:89-116 | on success the log is extended and the form reset and closed; on either rejection nothing changes |
| Notes.FilteredNotes | src/pages/NoteEditor.tsx:36-49 | a note is listed iff the search matches title, content or a tag (ignoring case), or, with no search, its category is chosen |
| Notes.FilteredNotesProperties | src/pages/NoteEditor.tsx:36-49 | the order is kept; a search ignores the category; no filter lists every note |
| Notes.Categories | src/pages/NoteEditor.tsx:34 | "all", then exactly the categories, each once |
| Notes.ContentChange | src/pages/NoteEditor.tsx:55-65 | with a selection, it and every note with its id get the new content; the update time is untouched |
| Notes.ContentChangeLastWins | src/pages/NoteEditor.tsx:55-65 | editing keeps the selection in the list, and only the last content typed remains |
| Notes.AddNote | src/pages/NoteEditor.tsx:67-87 | nothing without a title; otherwise a note with an id above all others, stamped now, is appended and selected |
| Notes.DeleteNote | src/pages/NoteEditor.tsx:89-95 | exactly the notes with another id remain, each as often as before and in their order; the selection clears iff it had that id |
| Notes.AddAndDeleteKeepSelection | src/pages/NoteEditor.tsx:67-95 | adding and deleting keep the selection among the notes |
| Notes.AddThenDeleteRestores | src/pages/NoteEditor.tsx:67-95 | deleting the note just added restores the notes and clears the selection |
| Notes.AddTag | src/pages/NoteEditor.tsx:347-355 | Enter with text appends it as a tag; an empty box changes nothing |
| Notes.RemoveTag | src/pages/NoteEditor.tsx:332-335 | removing tag i keeps all other tags in order |
| Notes.AddThenRemoveTag | src/pages/NoteEditor.tsx:332-355 | removing the tag just added restores the tags |
| Notes.NotePage.constructor | src/pages/NoteEditor.tsx:20-31 | no selection, no search, all categories, default form |
| Notes.NotePage.HandleNoteSelect | src/pages/NoteEditor.tsx:51-53 | a listed note becomes the selection |
| Notes.NotePage.HandleContentChange | src/pages/NoteEditor.tsx:55-65 | the state becomes `ContentChange` of the old one, selection still in the list |
| Notes.NotePage.HandleAddNote | src/pages/NoteEditor.tsx:67-87 | the state becomes `AddNote` of the old one; on success the form resets and the dialog closes |
| Notes.NotePage.HandleDeleteNote | src/pages/NoteEditor.tsx:89-95 | the state becomes `DeleteNote` of the old one |
| Notes.NotePage.HandleTagKey | src/pages/NoteEditor.tsx:347-355 | the form's tags become `AddTag` of the old ones |
| Notes.NotePage.HandleTagRemove | src/pages/NoteEditor.tsx:332-335 | the form's tags become `RemoveTag` of the old ones |
| Courses.FilteredCourses | src/pages/CoursesCatalog.tsx:28-46 | a course is listed iff the title search, topic, difficulty and duration bucket all pass |
| Courses.FilteredCoursesKeepOrder | src/pages/CoursesCatalog.tsx:28-46 | the catalogue order is kept, and with every filter off all courses show |
| Courses.FiltersOnlyNarrow | src/pages/CoursesCatalog.tsx:32-44 | choosing a topic, difficulty or duration only removes courses |
| Courses.DurationBuckets | src/pages/CoursesCatalog.tsx:38-44 | "under 20" shows part of "under 40", and neither shares a course with "60+" |
| Courses.Topics | src/pages/CoursesCatalog.tsx:25 | "all", then exactly the course topics, each once |
| Courses.TotalEnrollments | src/pages/CoursesCatalog.tsx:287 | the learner total: the `reduce` sum of enrollments; its bounds are `TotalEnrollmentsBounds` |
| Courses.TotalEnrollmentsBounds | src/pages/CoursesCatalog.tsx:287 | the learner total is non-negative, additive over catalogues, and at least any filtered part |
| Dashboard.TodayHabits | src/pages/Dashboard.tsx:17-19 | exactly the daily habits not done today |
| Dashboard.ToggleMovesHabit | src/pages/Dashboard.tsx:17-19 | checking a daily habit off on the habit page removes it from the list; un-checking puts it back |
| Dashboard.TotalCheckIns | src/pages/Dashboard.tsx:128 | the check-in total: the `reduce` sum of completed dates; its change is `ToggleChangesTotal` |
| Dashboard.ToggleChangesTotal | src/pages/Dashboard.tsx:128 | checking a habit off raises the check-in total by one; un-checking lowers it |
| Dashboard.DueTodayCards | src/pages/Dashboard.tsx:21-23 | exactly the cards whose next review falls within today |
| Dashboard.DueTodayDiffersFromDueTab | src/pages/Dashboard.tsx:21-23 | a card left from an earlier day is due on the flashcard page but not listed here; one due later today is listed here but not yet due there |
| Dashboard.ReviewedCardLeavesList | src/pages/Dashboard.tsx:21-23 | a card reviewed now, either way, leaves today's list |
| Dashboard.FurthestFirstConsistent | src/pages/Dashboard.tsx:27 | the progress comparator is consistent |
| Dashboard.InProgressCourses | src/pages/Dashboard.tsx:25-27 | the list is a permutation of the started, unfinished courses |
| Dashboard.InProgressOrdered | src/pages/Dashboard.tsx:25-27 | exactly the courses with 0 < progress < 100, furthest along first |
| Dashboard.Previews | src/pages/Dashboard.tsx:156-241 | three habits, three cards and two courses are shown, and no course left out has more progress than one shown |

The dashboard's week bar (src/pages/Dashboard.tsx:56-62) uses the same rule as the habit streak bar, `Habits.StreakBar`.

## Left out

- The video player, the landing page, routing, theming, the layout components and all rendering and animation.
- The app context's mirroring of lists to local storage: each page owns its list as a field.
- The setters of plain inputs (search boxes, filter selects, dialog toggles): they assign a field and are not separate methods.
- Timers: the quiz interval and the one-second delay are steps the page takes in sequence. The timer handle and `clearInterval` are not modelled. Neither is the app's loading delay.
- Floating-point figures: the reading log and course average ratings (the reading one can divide by zero), quiz accuracy, the per-question average time, the weekly habit progress and the completion percentages.
- `Math.random` for picking a quiz: the "Next Quiz" handler takes the picked quiz as a parameter.
- Date formatting and parsing. Dates are day numbers, in one time zone without daylight saving. The UTC date of `toISOString` and the local date of `format`/`isToday` are treated as the same day. Dates that do not parse are left out, except the add-book start date, which is `None` when it is not a date.
- Case folding is ASCII only, and `localeCompare` is code-unit order.
- Lesson group titles, the lesson subject and priority drop-downs, and the habit category and colour lists are presentation.
- Lessons.KeyCompare: keys of different kinds are ordered by kind. A single grouping never produces such pairs, so this order has no counterpart in the page.
- Lessons.LessonIdInjective: ids are distinct only for lessons added at distinct instants. Two adds in one millisecond are not modelled.
- Lessons.Reorder: when the dropped ids repeat or are missing from the lessons, only the permutation is stated, not the resulting order.
- Quizzes.AdvanceAsWritten: one pending delayed step at a time. Overlapping timeouts from several quick answers are not modelled.
- Quizzes.QuizPage.HandleAnswerSelect: requires the cursor to be on a question, as the page only renders answer buttons then. A quiz with no questions is shown only through `Valid`, which then says nothing.
- Flashcards.FlashcardPage.HandleKnow: promises a cursor inside the new list only while the answered card stays listed; when the card leaves the list the cursor can lie past its end, as the code does (Finding 1).
- Flashcards.FlashcardPage.HandleDontKnow: the same as `HandleKnow`.
- Quizzes.QuizPage.AdvanceAfterAnswer: promises a consistent attempt only while the answer that scheduled the step is on screen; after a quiz change the step as written can corrupt the fresh attempt (Finding 3).
- Quizzes.AdvanceKeepsConsistent: is about the corrected step; for the step as written, `Quizzes.AdvanceAsWrittenKeepsConsistent` states the same on the path where the two agree.
- Lessons.GroupLessons: the code's `reduce` collects into a plain object, so a group key naming an `Object.prototype` member (a free-text subject such as `constructor`, `toString` or `__proto__`) finds a value already there and `push` throws a TypeError; the model groups such keys like any other.
- Lessons.GroupKeys: the same keys; the page crashes where the model lists them. The model also lists the names in order of first appearance, while `Object.keys` puts integer-like names (a subject such as "2024") first in numeric order; the page re-sorts the names, so nothing shown depends on it.
- Dashboard.Previews: for the habit and card previews it states only the prefix and the length, not an order, since those lists are not sorted.

## Findings

The findings are numbered in table order.

| source | as written | input that shows it | evidently intended | confidence | as-written member | corrected member |
|---|---|---|---|---|---|---|
| src/pages/FlashcardSystem.tsx:47-100 | after an answer, `handleNext` steps the cursor over the list from before the answer | due tab, two due cards, "know" on the second: the cursor stays 1 while one card is listed (the render reads past the end); three due cards, "don't know" on the first: the cursor moves to 1, now the third card, so the second is skipped | place the cursor against the list after the answer: stay when the answered card left it, step otherwise | not executed | Flashcards.AnswerAsWrittenSkipsCard | Flashcards.AnswerDoesNotSkip |
| src/pages/FlashcardSystem.tsx:102-105 | a tab or deck change resets the cursor only in an effect after the next render | all tab, cursor on the third of three cards, two of them due tomorrow; switch to the due tab: that render reads position 2 of a one-card list | reset the cursor together with the tab or deck | not executed | Flashcards.SelectTabAsWrittenRendersOldCursor | Flashcards.FlashcardPage.SelectTab |
| src/pages/QuizEngine.tsx:79-93 | the delayed step tests the question index and count captured at answer time | answer question 1 of a two-question quiz, pick another quiz within the second: the fresh attempt jumps to question 2 with nothing answered; with a one-question quiz it is marked completed with score 0 | the pending step acts only on the answer that scheduled it | not executed | Quizzes.AdvanceAsWrittenCorruptsFreshAttempt | Quizzes.AdvanceLeavesFreshAttempt |
