/** The note editor page: the search-or-category filter, the category choices,
    editing the selected note's content, adding and deleting notes, and the tag
    list of the new-note form. */
module Notes {
  import opened Collections
  import opened Text

  /** A note; the two timestamps are milliseconds. */
  datatype Note = Note(
    id: int,
    title: string,
    content: string,
    category: string,
    tags: seq<string>,
    createdAt: int,
    updatedAt: int)

  /** The new-note form. */
  datatype NoteForm = NoteForm(title: string, content: string, category: string, tags: seq<string>)

  const EmptyForm := NoteForm("", "", "Programming", [])

  // ---------------------------------------------------------------- filter

  /** Some tag contains the search term, ignoring case. */
  predicate TagMatches(tags: seq<string>, searchTerm: string)
  {
    exists i :: 0 <= i < |tags| && MatchesIgnoringCase(tags[i], searchTerm)
  }

  /** The filter of `filteredNotes`: a non-empty search matches title, content or
      a tag ignoring case, and then the category choice plays no part; without a
      search, the chosen category (or every category for "all"). */
  predicate Matches(note: Note, searchTerm: string, category: string)
  {
    if searchTerm != "" then
      MatchesIgnoringCase(note.title, searchTerm)
      || MatchesIgnoringCase(note.content, searchTerm)
      || TagMatches(note.tags, searchTerm)
    else category == "all" || note.category == category
  }

  function Shown(searchTerm: string, category: string): Note -> bool
  {
    (note: Note) => Matches(note, searchTerm, category)
  }

  function FilteredNotes(notes: seq<Note>, searchTerm: string, category: string): (r: seq<Note>)
    ensures forall n :: n in r <==> n in notes && Matches(n, searchTerm, category)
  {
    FilterMembers(notes, Shown(searchTerm, category));
    Filter(notes, Shown(searchTerm, category))
  }

  /** The filter keeps the notes' order; while a search is typed the category
      choice is ignored; with neither, every note is listed. */
  lemma FilteredNotesProperties(notes: seq<Note>, searchTerm: string, category: string)
    ensures IsSubseq(FilteredNotes(notes, searchTerm, category), notes)
    ensures searchTerm != "" ==> FilteredNotes(notes, searchTerm, category) == FilteredNotes(notes, searchTerm, "all")
    ensures FilteredNotes(notes, "", "all") == notes
  {
    FilterIsSubseq(notes, Shown(searchTerm, category));
    if searchTerm != "" {
      FilterCongruent(notes, Shown(searchTerm, category), Shown(searchTerm, "all"));
    }
    FilterKeepsAll(notes, Shown("", "all"));
  }

  function CategoryOf(note: Note): string
  {
    note.category
  }

  /** The category choices: "all", then each category in use once. */
  function Categories(notes: seq<Note>): (r: seq<string>)
    ensures |r| >= 1 && r[0] == "all"
    ensures forall c :: c in r[1..] <==> exists i :: 0 <= i < |notes| && notes[i].category == c
    ensures NoDuplicates(r[1..])
  {
    var categories := MapSeq(notes, CategoryOf);
    assert forall c :: c in categories <==> exists i :: 0 <= i < |notes| && notes[i].category == c by {
      forall c | c in categories
        ensures exists i :: 0 <= i < |notes| && notes[i].category == c
      {
        var i :| 0 <= i < |categories| && categories[i] == c;
        assert notes[i].category == c;
      }
    }
    Choices("all", categories)
  }

  // ---------------------------------------------------------------- editing

  /** The selected note, if any, is one of the notes. */
  predicate SelectionInList(notes: seq<Note>, selected: Option<Note>)
  {
    selected.Some? ==> selected.value in notes
  }

  function ReplaceId(id: int, updated: Note): Note -> Note
  {
    (note: Note) => if note.id == id then updated else note
  }

  /** `handleContentChange`: with a note selected, the selected note with the new
      content becomes the selection and replaces every note carrying its id; the
      update time is not touched. Without a selection nothing changes. */
  function ContentChange(notes: seq<Note>, selected: Option<Note>, content: string): (r: (seq<Note>, Option<Note>))
    ensures |r.0| == |notes|
    ensures selected.None? ==> r == (notes, selected)
    ensures selected.Some? ==>
      && r.1 == Some(selected.value.(content := content))
      && forall i :: 0 <= i < |notes| ==>
           r.0[i] == (if notes[i].id == selected.value.id then selected.value.(content := content) else notes[i])
  {
    if selected.None? then (notes, selected)
    else
      var updated := selected.value.(content := content);
      (MapSeq(notes, ReplaceId(selected.value.id, updated)), Some(updated))
  }

  /** Editing keeps the selection in the list, and a second edit of the same note
      overrides the first: only the last content typed remains. */
  lemma ContentChangeLastWins(notes: seq<Note>, selected: Option<Note>, first: string, second: string)
    requires SelectionInList(notes, selected)
    ensures SelectionInList(ContentChange(notes, selected, first).0, ContentChange(notes, selected, first).1)
    ensures var (n1, s1) := ContentChange(notes, selected, first);
      ContentChange(n1, s1, second) == ContentChange(notes, selected, second)
  {
    if selected.Some? {
      var (n1, s1) := ContentChange(notes, selected, first);
      var k :| 0 <= k < |notes| && notes[k] == selected.value;
      assert n1[k] == s1.value;
      var (n2, s2) := ContentChange(n1, s1, second);
      var (m2, t2) := ContentChange(notes, selected, second);
      assert s2 == t2;
      assert |n2| == |m2|;
      forall i | 0 <= i < |n2|
        ensures n2[i] == m2[i]
      {
        assert n1[i].id == s1.value.id <==> notes[i].id == selected.value.id;
      }
      assert n2 == m2;
    }
  }

  /** `addNote`: nothing without a title; otherwise a note with the next free id,
      both timestamps `now`, is appended and becomes the selection. */
  function AddNote(notes: seq<Note>, selected: Option<Note>, form: NoteForm, now: int): (r: (seq<Note>, Option<Note>))
    ensures form.title == "" ==> r == (notes, selected)
    ensures form.title != "" ==>
      && |r.0| == |notes| + 1 && r.0[..|notes|] == notes
      && r.1 == Some(r.0[|notes|])
      && var n := r.0[|notes|];
         && (forall i :: 0 <= i < |notes| ==> notes[i].id < n.id)
         && n.title == form.title && n.content == form.content
         && n.category == form.category && n.tags == form.tags
         && n.createdAt == now && n.updatedAt == now
  {
    if form.title == "" then (notes, selected)
    else
      var note := Note(NextId(Ids(notes)), form.title, form.content, form.category, form.tags, now, now);
      (notes + [note], Some(note))
  }

  function Ids(notes: seq<Note>): (ids: seq<int>)
    ensures |ids| == |notes| && forall i :: 0 <= i < |notes| ==> ids[i] == notes[i].id
  {
    seq(|notes|, i requires 0 <= i < |notes| => notes[i].id)
  }

  function OtherId(id: int): Note -> bool
  {
    (note: Note) => note.id != id
  }

  /** `deleteNote(id)`: every note with that id goes, the rest stay in order; the
      selection is cleared exactly when it has that id. */
  function DeleteNote(notes: seq<Note>, selected: Option<Note>, id: int): (r: (seq<Note>, Option<Note>))
    ensures forall n :: n in r.0 <==> n in notes && n.id != id
    ensures IsSubseq(r.0, notes)
    ensures forall n :: multiset(r.0)[n] == if n.id != id then multiset(notes)[n] else 0
    ensures r.1 == (if selected.Some? && selected.value.id == id then None else selected)
  {
    FilterMultiplicity(notes, OtherId(id));
    FilterIsSubseq(notes, OtherId(id));
    FilterMembers(notes, OtherId(id));
    (Filter(notes, OtherId(id)), if selected.Some? && selected.value.id == id then None else selected)
  }

  /** Adding and deleting keep the selection in the list. */
  lemma AddAndDeleteKeepSelection(notes: seq<Note>, selected: Option<Note>, form: NoteForm, now: int, id: int)
    requires SelectionInList(notes, selected)
    ensures var (n, s) := AddNote(notes, selected, form, now); SelectionInList(n, s)
    ensures var (n, s) := DeleteNote(notes, selected, id); SelectionInList(n, s)
  {
    var (n, s) := AddNote(notes, selected, form, now);
    if form.title != "" {
      assert s.value == n[|notes|];
    }
  }

  /** Deleting the note just added gives back the notes as they were. */
  lemma AddThenDeleteRestores(notes: seq<Note>, selected: Option<Note>, form: NoteForm, now: int)
    requires form.title != ""
    ensures var (n, s) := AddNote(notes, selected, form, now);
      DeleteNote(n, s, s.value.id) == (notes, None)
  {
    var (n, s) := AddNote(notes, selected, form, now);
    var note := s.value;
    assert n == notes + [note];
    assert forall i :: 0 <= i < |notes| ==> OtherId(note.id)(notes[i]);
    FilterKeepsAll(notes, OtherId(note.id));
    FilterKeepsNone([note], OtherId(note.id));
    FilterAppend(notes, [note], OtherId(note.id));
    assert notes + [] == notes;
    assert Filter(n, OtherId(note.id)) == notes;
    assert DeleteNote(n, s, note.id) == (notes, None);
  }

  // ---------------------------------------------------------------- form tags

  /** Enter in the tag box adds its text as a tag, unless the box is empty. */
  function AddTag(tags: seq<string>, value: string): (r: seq<string>)
    ensures value == "" ==> r == tags
    ensures value != "" ==> |r| == |tags| + 1 && r[..|tags|] == tags && r[|tags|] == value
  {
    if value != "" then tags + [value] else tags
  }

  /** The remove button of the tag at `index`: every other tag stays, in order. */
  function RemoveTag(tags: seq<string>, index: int): (r: seq<string>)
    ensures 0 <= index < |tags| ==> r == tags[..index] + tags[index + 1..]
    ensures !(0 <= index < |tags|) ==> r == tags
  {
    if 0 <= index < |tags| then RemoveAt(tags, index) else tags
  }

  /** Removing the tag just added gives back the tags as they were. */
  lemma AddThenRemoveTag(tags: seq<string>, value: string)
    requires value != ""
    ensures RemoveTag(AddTag(tags, value), |tags|) == tags
  {
  }

  // ---------------------------------------------------------------- page

  class NotePage {
    var notes: seq<Note>
    var selectedNote: Option<Note>
    var searchTerm: string
    var selectedCategory: string
    var newNote: NoteForm
    var showAddModal: bool

    constructor (initial: seq<Note>)
      ensures notes == initial && selectedNote == None
      ensures searchTerm == "" && selectedCategory == "all"
      ensures newNote == EmptyForm && !showAddModal
    {
      notes := initial;
      selectedNote := None;
      searchTerm := "";
      selectedCategory := "all";
      newNote := EmptyForm;
      showAddModal := false;
    }

    predicate Valid()
      reads this
    {
      SelectionInList(notes, selectedNote)
    }

    function Listed(): seq<Note>
      reads this
    {
      FilteredNotes(notes, searchTerm, selectedCategory)
    }

    /** Clicking a listed note selects it. */
    method HandleNoteSelect(note: Note)
      requires note in Listed()
      modifies this`selectedNote
      ensures selectedNote == Some(note)
      ensures Valid()
    {
      selectedNote := Some(note);
    }

    method HandleContentChange(content: string)
      requires Valid()
      modifies this`notes, this`selectedNote
      ensures (notes, selectedNote) == ContentChange(old(notes), old(selectedNote), content)
      ensures Valid()
    {
      if selectedNote.Some? {
        var updatedNote := selectedNote.value.(content := content);
        selectedNote := Some(updatedNote);
        notes := MapSeq(notes, ReplaceId(updatedNote.id, updatedNote));
        ContentChangeLastWins(old(notes), old(selectedNote), content, content);
      }
    }

    method HandleAddNote(now: int)
      requires Valid()
      modifies this`notes, this`selectedNote, this`newNote, this`showAddModal
      ensures (notes, selectedNote) == AddNote(old(notes), old(selectedNote), old(newNote), now)
      ensures old(newNote).title != "" ==> newNote == EmptyForm && !showAddModal
      ensures old(newNote).title == "" ==> newNote == old(newNote) && showAddModal == old(showAddModal)
      ensures Valid()
    {
      if newNote.title == "" {
        return;
      }
      var note := Note(NextId(Ids(notes)), newNote.title, newNote.content, newNote.category, newNote.tags, now, now);
      notes := notes + [note];
      newNote := EmptyForm;
      showAddModal := false;
      selectedNote := Some(note);
      assert note == notes[|notes| - 1];
    }

    method HandleDeleteNote(id: int)
      requires Valid()
      modifies this`notes, this`selectedNote
      ensures (notes, selectedNote) == DeleteNote(old(notes), old(selectedNote), id)
      ensures Valid()
    {
      notes := Filter(notes, OtherId(id));
      if selectedNote.Some? && selectedNote.value.id == id {
        selectedNote := None;
      }
    }

    method HandleTagKey(value: string)
      modifies this`newNote
      ensures newNote == old(newNote).(tags := AddTag(old(newNote).tags, value))
    {
      if value != "" {
        newNote := newNote.(tags := newNote.tags + [value]);
      }
    }

    method HandleTagRemove(index: int)
      modifies this`newNote
      ensures newNote == old(newNote).(tags := RemoveTag(old(newNote).tags, index))
    {
      if 0 <= index < |newNote.tags| {
        newNote := newNote.(tags := newNote.tags[..index] + newNote.tags[index + 1..]);
      }
    }
  }
}
