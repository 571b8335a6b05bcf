/** The reading log page: the sort toggle, the search-or-genre filter, the
    per-field comparator, the genre choices, adding a book and the two counts. */
module Reading {
  import opened Collections
  import opened Text
  import opened Clock
  import opened Sorting

  /** A book in the log. Dates are calendar days; `None` is an empty date. */
  datatype ReadingEntry = ReadingEntry(
    id: int,
    title: string,
    author: string,
    genre: string,
    dateStarted: Option<int>,
    dateFinished: Option<int>,
    rating: int,
    progress: int,
    notes: string)

  datatype SortField = Title | Author | DateStarted | DateFinished | Rating | Progress

  datatype SortOrder = Asc | Desc

  // ---------------------------------------------------------------- sort toggle

  /** `handleSort(field)`: the field already sorted on flips its direction; any
      other field becomes the sort field, ascending. */
  function NextSort(current: SortField, order: SortOrder, field: SortField): (r: (SortField, SortOrder))
    ensures r.0 == field
    ensures field == current ==> r.1 != order
    ensures field != current ==> r.1 == Asc
  {
    if current == field then (field, if order == Asc then Desc else Asc)
    else (field, Asc)
  }

  /** Clicking the same header twice restores the order. */
  lemma NextSortTwice(current: SortField, order: SortOrder, field: SortField)
    ensures var (f, o) := NextSort(current, order, field);
      NextSort(f, o, field) == (field, if field == current then order else Desc)
  {
  }

  // ---------------------------------------------------------------- comparator

  /** `new Date(day).getTime()` for a set date, and 0 for an empty one. */
  function DateTime(d: Option<int>): int
  {
    if d.Some? then Midnight(d.value) else 0
  }

  /** The comparison for one field, before the direction is applied. */
  function CompareBy(field: SortField, a: ReadingEntry, b: ReadingEntry): int
  {
    match field
    case Title => LexCompare(a.title, b.title)
    case Author => LexCompare(a.author, b.author)
    case DateStarted => DateTime(a.dateStarted) - DateTime(b.dateStarted)
    case DateFinished => DateTime(a.dateFinished) - DateTime(b.dateFinished)
    case Rating => a.rating - b.rating
    case Progress => a.progress - b.progress
  }

  function FieldOrder(field: SortField): (ReadingEntry, ReadingEntry) -> int
  {
    (a: ReadingEntry, b: ReadingEntry) => CompareBy(field, a, b)
  }

  /** The comparator handed to `sort`: the field's comparison, negated for 'desc'. */
  function LogOrder(field: SortField, order: SortOrder): (ReadingEntry, ReadingEntry) -> int
  {
    if order == Asc then FieldOrder(field) else Negated(FieldOrder(field))
  }

  /** Every field's comparison, in either direction, is one `sort` can rely on. */
  lemma LogOrderConsistent(field: SortField, order: SortOrder)
    ensures Consistent(LogOrder(field, order))
  {
    var cmp := FieldOrder(field);
    forall a, b
      ensures Sign(cmp(a, b)) == -Sign(cmp(b, a))
    {
      if field == Title {
        LexCompareAntisymmetric(a.title, b.title);
      } else if field == Author {
        LexCompareAntisymmetric(a.author, b.author);
      }
    }
    forall a, b, c | NoLater(cmp, a, b) && NoLater(cmp, b, c)
      ensures NoLater(cmp, a, c)
    {
      if field == Title {
        LexCompareTransitive(a.title, b.title, c.title);
      } else if field == Author {
        LexCompareTransitive(a.author, b.author, c.author);
      }
    }
    if order == Desc {
      NegatedConsistent(cmp);
    }
  }

  // ---------------------------------------------------------------- filter

  /** The filter of `sortedLogs`: a non-empty search matches title, author or
      genre ignoring case, and then the genre choice plays no part; without a
      search, the chosen genre (or every genre for "all"). */
  predicate Matches(log: ReadingEntry, searchTerm: string, genre: string)
  {
    if searchTerm != "" then
      MatchesIgnoringCase(log.title, searchTerm)
      || MatchesIgnoringCase(log.author, searchTerm)
      || MatchesIgnoringCase(log.genre, searchTerm)
    else genre == "all" || log.genre == genre
  }

  function Shown(searchTerm: string, genre: string): ReadingEntry -> bool
  {
    (log: ReadingEntry) => Matches(log, searchTerm, genre)
  }

  /** `sortedLogs`: the matching books, ordered by the chosen field and direction. */
  function SortedLogs(logs: seq<ReadingEntry>, searchTerm: string, genre: string,
                      field: SortField, order: SortOrder): (r: seq<ReadingEntry>)
    ensures multiset(r) == multiset(Filter(logs, Shown(searchTerm, genre)))
  {
    Sort(Filter(logs, Shown(searchTerm, genre)), LogOrder(field, order))
  }

  /** The list holds exactly the matching books and is in the chosen order: for
      'asc' each book compares no greater than every later one, for 'desc' no
      smaller. */
  lemma SortedLogsOrdered(logs: seq<ReadingEntry>, searchTerm: string, genre: string,
                          field: SortField, order: SortOrder)
    ensures var r := SortedLogs(logs, searchTerm, genre, field, order);
      && (forall log :: log in r <==> log in logs && Matches(log, searchTerm, genre))
      && (forall i, j :: 0 <= i < j < |r| ==>
            if order == Asc then CompareBy(field, r[i], r[j]) <= 0 else CompareBy(field, r[i], r[j]) >= 0)
  {
    var shown := Filter(logs, Shown(searchTerm, genre));
    var r := SortedLogs(logs, searchTerm, genre, field, order);
    assert SortedBy(r, LogOrder(field, order)) by {
      LogOrderConsistent(field, order);
      SortIsSorted(shown, LogOrder(field, order));
    }
    assert forall log :: log in r <==> log in logs && Matches(log, searchTerm, genre) by {
      FilterMembers(logs, Shown(searchTerm, genre));
      assert forall log :: log in r <==> log in multiset(r);
    }
    forall i, j | 0 <= i < j < |r|
      ensures if order == Asc then CompareBy(field, r[i], r[j]) <= 0 else CompareBy(field, r[i], r[j]) >= 0
    {
      assert NoLater(LogOrder(field, order), r[i], r[j]);
    }
  }

  /** The page opens sorted by start date, newest first; a book with no start
      date counts as started at time 0. */
  lemma DefaultOrderNewestFirst(logs: seq<ReadingEntry>, searchTerm: string, genre: string)
    ensures var r := SortedLogs(logs, searchTerm, genre, DateStarted, Desc);
      forall i, j :: 0 <= i < j < |r| ==> DateTime(r[i].dateStarted) >= DateTime(r[j].dateStarted)
  {
    SortedLogsOrdered(logs, searchTerm, genre, DateStarted, Desc);
  }

  /** While a search is typed the genre choice is ignored. */
  lemma SearchIgnoresGenre(logs: seq<ReadingEntry>, searchTerm: string, genre: string)
    requires searchTerm != ""
    ensures Filter(logs, Shown(searchTerm, genre)) == Filter(logs, Shown(searchTerm, "all"))
  {
    FilterCongruent(logs, Shown(searchTerm, genre), Shown(searchTerm, "all"));
  }

  /** With no search and "all" genres every book is listed, in the log's order. */
  lemma NoFilterKeepsAll(logs: seq<ReadingEntry>)
    ensures Filter(logs, Shown("", "all")) == logs
  {
    FilterKeepsAll(logs, Shown("", "all"));
  }

  function GenreOf(log: ReadingEntry): string
  {
    log.genre
  }

  /** The genre choices: "all", then each genre in the log once. */
  function Genres(logs: seq<ReadingEntry>): (r: seq<string>)
    ensures |r| >= 1 && r[0] == "all"
    ensures forall g :: g in r[1..] <==> exists i :: 0 <= i < |logs| && logs[i].genre == g
    ensures NoDuplicates(r[1..])
  {
    var genres := MapSeq(logs, GenreOf);
    assert forall g :: g in genres <==> exists i :: 0 <= i < |logs| && logs[i].genre == g by {
      forall g | g in genres
        ensures exists i :: 0 <= i < |logs| && logs[i].genre == g
      {
        var i :| 0 <= i < |genres| && genres[i] == g;
        assert logs[i].genre == g;
      }
    }
    Choices("all", genres)
  }

  // ---------------------------------------------------------------- counts

  /** Not finished, but started reading. */
  predicate CurrentlyReading(log: ReadingEntry)
  {
    log.dateFinished.None? && log.progress > 0
  }

  predicate Finished(log: ReadingEntry)
  {
    log.dateFinished.Some?
  }

  function ReadingNow(): ReadingEntry -> bool
  {
    (log: ReadingEntry) => CurrentlyReading(log)
  }

  function FinishedNow(): ReadingEntry -> bool
  {
    (log: ReadingEntry) => Finished(log)
  }

  /** A book is never counted both as being read and as completed, so the two
      counts together never exceed the number of books. */
  lemma CountsDisjoint(logs: seq<ReadingEntry>)
    ensures |Filter(logs, ReadingNow())| + |Filter(logs, FinishedNow())| <= |logs|
  {
    var either := (log: ReadingEntry) => CurrentlyReading(log) || Finished(log);
    var both := (log: ReadingEntry) => CurrentlyReading(log) && Finished(log);
    FilterCountInclusionExclusion(logs, ReadingNow(), FinishedNow(), either, both);
    FilterKeepsNone(logs, both);
  }

  // ---------------------------------------------------------------- adding

  /** The add-book form; `dateStarted` is `None` when the text is not a date. */
  datatype BookForm = BookForm(
    title: string,
    author: string,
    genre: string,
    dateStarted: Option<int>,
    rating: int,
    progress: int,
    notes: string)

  /** The form as the page resets it: genre "Programming", started today. */
  function EmptyForm(today: int): BookForm
  {
    BookForm("", "", "Programming", Some(today), 0, 0, "")
  }

  /** What `addBook` does: nothing for a missing title or author, an alert for a
      start date that is not a date, otherwise the book is appended. */
  datatype AddOutcome = Added(logs: seq<ReadingEntry>) | MissingField | InvalidDate

  function Ids(logs: seq<ReadingEntry>): (ids: seq<int>)
    ensures |ids| == |logs| && forall i :: 0 <= i < |logs| ==> ids[i] == logs[i].id
  {
    seq(|logs|, i requires 0 <= i < |logs| => logs[i].id)
  }

  function AddBook(logs: seq<ReadingEntry>, form: BookForm): (r: AddOutcome)
    ensures r.MissingField? <==> form.title == "" || form.author == ""
    ensures r.InvalidDate? <==> form.title != "" && form.author != "" && form.dateStarted.None?
    ensures r.Added? ==>
      && |r.logs| == |logs| + 1 && r.logs[..|logs|] == logs
      && var e := r.logs[|logs|];
         && e.id !in Ids(logs) && e.id >= 1
         && e.title == form.title && e.author == form.author && e.genre == form.genre
         && e.dateStarted == form.dateStarted && e.dateFinished.None?
         && e.rating == form.rating && e.progress == form.progress && e.notes == form.notes
  {
    if form.title == "" || form.author == "" then MissingField
    else if form.dateStarted.None? then InvalidDate
    else
      var entry := ReadingEntry(NextId(Ids(logs)), form.title, form.author, form.genre,
                                form.dateStarted, None, form.rating, form.progress, form.notes);
      Added(logs + [entry])
  }

  predicate UniqueIds(logs: seq<ReadingEntry>)
  {
    forall i, j :: 0 <= i < j < |logs| ==> logs[i].id != logs[j].id
  }

  /** Adding keeps ids unique, adds one book that is not finished, and leaves the
      completed count as it was. */
  lemma AddBookKeepsLog(logs: seq<ReadingEntry>, form: BookForm)
    requires UniqueIds(logs)
    requires AddBook(logs, form).Added?
    ensures var l := AddBook(logs, form).logs;
      && UniqueIds(l)
      && |Filter(l, FinishedNow())| == |Filter(logs, FinishedNow())|
  {
    var l := AddBook(logs, form).logs;
    assert l == logs + [l[|logs|]];
    FilterAppend(logs, [l[|logs|]], FinishedNow());
    forall i, j | 0 <= i < j < |l|
      ensures l[i].id != l[j].id
    {
      if j == |logs| {
        assert Ids(logs)[i] == l[i].id;
      }
    }
  }

  // ---------------------------------------------------------------- page

  class ReadingPage {
    var readingLogs: seq<ReadingEntry>
    var searchTerm: string
    var sortField: SortField
    var sortOrder: SortOrder
    var selectedGenre: string
    var newBook: BookForm
    var showAddModal: bool

    constructor (logs: seq<ReadingEntry>, today: int)
      ensures readingLogs == logs && searchTerm == "" && selectedGenre == "all"
      ensures sortField == DateStarted && sortOrder == Desc
      ensures newBook == EmptyForm(today) && !showAddModal
    {
      readingLogs := logs;
      searchTerm := "";
      sortField := DateStarted;
      sortOrder := Desc;
      selectedGenre := "all";
      newBook := EmptyForm(today);
      showAddModal := false;
    }

    function Listed(): seq<ReadingEntry>
      reads this
    {
      SortedLogs(readingLogs, searchTerm, selectedGenre, sortField, sortOrder)
    }

    method HandleSort(field: SortField)
      modifies this`sortField, this`sortOrder
      ensures (sortField, sortOrder) == NextSort(old(sortField), old(sortOrder), field)
    {
      if sortField == field {
        sortOrder := if sortOrder == Asc then Desc else Asc;
      } else {
        sortField := field;
        sortOrder := Asc;
      }
    }

    /** The add button; `today` is the date the reset form starts on. */
    method HandleAddBook(today: int) returns (outcome: AddOutcome)
      modifies this`readingLogs, this`newBook, this`showAddModal
      ensures outcome == AddBook(old(readingLogs), old(newBook))
      ensures outcome.Added? ==> readingLogs == outcome.logs && newBook == EmptyForm(today) && !showAddModal
      ensures !outcome.Added? ==> readingLogs == old(readingLogs) && newBook == old(newBook) && showAddModal == old(showAddModal)
    {
      if newBook.title == "" || newBook.author == "" {
        return MissingField;
      }
      if newBook.dateStarted.None? {
        return InvalidDate;
      }
      var entry := ReadingEntry(NextId(Ids(readingLogs)), newBook.title, newBook.author, newBook.genre,
                                newBook.dateStarted, None, newBook.rating, newBook.progress, newBook.notes);
      readingLogs := readingLogs + [entry];
      newBook := EmptyForm(today);
      showAddModal := false;
      outcome := Added(readingLogs);
    }
  }
}
