/** The flashcard review page: the "know" / "don't know" scheduling rule, the
    due and deck filter, the review cursor and the mastered / due counters. */
module Flashcards {
  import opened Collections
  import opened Clock

  /** A card. `lastReviewed` and `nextReview` are instants (milliseconds). */
  datatype Flashcard = Flashcard(
    id: int,
    question: string,
    answer: string,
    deck: string,
    lastReviewed: int,
    nextReview: int,
    difficulty: int,
    repetitions: int)

  /** The two tabs of the page: cards due now, or every card. */
  datatype Tab = DueTab | AllTab

  /** The ranges the scheduler keeps: difficulty 1 (easiest) to 5, no negative count. */
  predicate WellFormed(card: Flashcard)
  {
    1 <= card.difficulty <= 5 && card.repetitions >= 0
  }

  /** A card is due once its review instant has passed. */
  predicate IsDue(card: Flashcard, now: int)
  {
    card.nextReview <= now
  }

  /** "Know": one step easier (not below 1), one more repetition, and the next review
      `2 * repetitions` days from now. */
  function Know(card: Flashcard, now: int): Flashcard
  {
    var repetitions := card.repetitions + 1;
    card.(difficulty := if card.difficulty - 1 > 1 then card.difficulty - 1 else 1,
          repetitions := repetitions,
          nextReview := AddDays(now, repetitions * 2),
          lastReviewed := now)
  }

  /** "Don't know": one step harder (not above 5), the repetition count starts over,
      and the card comes back tomorrow. */
  function DontKnow(card: Flashcard, now: int): Flashcard
  {
    card.(difficulty := if card.difficulty + 1 < 5 then card.difficulty + 1 else 5,
          repetitions := 0,
          nextReview := AddDays(now, 1),
          lastReviewed := now)
  }

  function Review(card: Flashcard, now: int, knew: bool): Flashcard
  {
    if knew then Know(card, now) else DontKnow(card, now)
  }

  /** What "know" does to a card: the identity and text stay, the difficulty drops
      by one unless it is already at the floor 1, the count grows by one, and the
      review is due `2 * (repetitions + 1)` whole days after now. */
  lemma KnowEffect(card: Flashcard, now: int)
    ensures var c := Know(card, now);
      && c.id == card.id && c.question == card.question && c.answer == card.answer && c.deck == card.deck
      && (card.difficulty >= 2 ==> c.difficulty == card.difficulty - 1)
      && (card.difficulty <= 1 ==> c.difficulty == 1)
      && c.repetitions == card.repetitions + 1
      && c.lastReviewed == now
      && c.nextReview - now == 2 * (card.repetitions + 1) * DayMs
      && DayOf(c.nextReview) == DayOf(now) + 2 * (card.repetitions + 1)
  {
    DayOfAddDays(now, 2 * (card.repetitions + 1));
  }

  /** What "don't know" does to a card: the difficulty rises by one unless it is
      already at the ceiling 5, the count is reset, and the review is tomorrow. */
  lemma DontKnowEffect(card: Flashcard, now: int)
    ensures var c := DontKnow(card, now);
      && c.id == card.id && c.question == card.question && c.answer == card.answer && c.deck == card.deck
      && (card.difficulty <= 4 ==> c.difficulty == card.difficulty + 1)
      && (card.difficulty >= 5 ==> c.difficulty == 5)
      && c.repetitions == 0
      && c.lastReviewed == now
      && c.nextReview - now == DayMs
      && DayOf(c.nextReview) == DayOf(now) + 1
  {
    DayOfAddDays(now, 1);
  }

  /** Both answers keep a well-formed card well-formed, move the difficulty by at most
      one step, and (from a non-negative count) take the card off the due list. */
  lemma ReviewKeepsWellFormed(card: Flashcard, now: int, knew: bool)
    requires WellFormed(card)
    ensures WellFormed(Review(card, now, knew))
    ensures -1 <= Review(card, now, knew).difficulty - card.difficulty <= 1
    ensures !IsDue(Review(card, now, knew), now)
  {
  }

  /** "Know" is not idempotent: answering twice counts two repetitions and
      schedules the card later than answering once. */
  lemma KnowNotIdempotent(card: Flashcard, now: int)
    requires card.repetitions >= 0
    ensures Know(Know(card, now), now).repetitions == card.repetitions + 2
    ensures Know(Know(card, now), now).nextReview > Know(card, now).nextReview
    ensures Know(Know(card, now), now) != Know(card, now)
  {
  }

  /** The consecutive-success interval grows: every further "know" pushes the
      review two more days out. */
  lemma KnowIntervalGrows(card: Flashcard, now: int)
    ensures Know(Know(card, now), now).nextReview == Know(card, now).nextReview + 2 * DayMs
  {
  }

  /** The worked examples of the scheduling rule. */
  lemma ScheduleExamples(now: int)
    ensures var c := Know(Flashcard(1, "q", "a", "d", 0, 0, 3, 1), now);
      c.difficulty == 2 && c.repetitions == 2 && c.nextReview == now + 4 * DayMs
    ensures var c := Know(Flashcard(1, "q", "a", "d", 0, 0, 1, 5), now);
      c.difficulty == 1 && c.repetitions == 6 && c.nextReview == now + 12 * DayMs
    ensures var c := DontKnow(Flashcard(1, "q", "a", "d", 0, 0, 2, 4), now);
      c.difficulty == 3 && c.repetitions == 0 && c.nextReview == now + DayMs
    ensures DontKnow(Flashcard(1, "q", "a", "d", 0, 0, 5, 4), now).difficulty == 5
  {
  }

  /** A card is listed when it belongs to the selected deck (if one is selected)
      and, on the due tab, when it is due. */
  predicate Listed(card: Flashcard, tab: Tab, deck: Option<string>, now: int)
  {
    (deck.None? || card.deck == deck.value) && (tab == AllTab || IsDue(card, now))
  }

  /** `Listed` as the test handed to `filter`. */
  function ListedAt(tab: Tab, deck: Option<string>, now: int): Flashcard -> bool
  {
    c => Listed(c, tab, deck, now)
  }

  /** `filteredCards` */
  function FilteredCards(cards: seq<Flashcard>, tab: Tab, deck: Option<string>, now: int): (r: seq<Flashcard>)
    ensures |r| <= |cards|
  {
    Filter(cards, ListedAt(tab, deck, now))
  }

  /** A card is listed exactly when it is in the collection and passes the deck and
      due tests. */
  lemma FilteredCardsMembers(cards: seq<Flashcard>, tab: Tab, deck: Option<string>, now: int)
    ensures forall c :: c in FilteredCards(cards, tab, deck, now) <==> c in cards && Listed(c, tab, deck, now)
  {
    FilterMembers(cards, ListedAt(tab, deck, now));
  }

  /** The listed cards appear in the order of the card collection. */
  lemma FilteredCardsKeepOrder(cards: seq<Flashcard>, tab: Tab, deck: Option<string>, now: int)
    ensures IsSubseq(FilteredCards(cards, tab, deck, now), cards)
  {
    FilterIsSubseq(cards, ListedAt(tab, deck, now));
  }

  /** As time passes the due list only gains cards: what is listed at `earlier`
      is still listed, in the same order, at `later`. */
  lemma DueListGrows(cards: seq<Flashcard>, tab: Tab, deck: Option<string>, earlier: int, later: int)
    requires earlier <= later
    ensures IsSubseq(FilteredCards(cards, tab, deck, earlier), FilteredCards(cards, tab, deck, later))
  {
    FilterStrongerIsSubseq(cards, ListedAt(tab, deck, earlier), ListedAt(tab, deck, later));
  }

  /** `decks`: each deck name once, in order of first appearance. */
  function Decks(cards: seq<Flashcard>): (r: seq<string>)
    ensures NoDuplicates(r)
    ensures forall d :: d in r <==> exists c :: c in cards && c.deck == d
  {
    var names := MapSeq(cards, (c: Flashcard) => c.deck);
    assert forall d :: d in names <==> exists c :: c in cards && c.deck == d by {
      forall d | d in names ensures exists c :: c in cards && c.deck == d {
        var k :| 0 <= k < |names| && names[k] == d;
        assert cards[k] in cards;
      }
      forall d | exists c :: c in cards && c.deck == d ensures d in names {
        var c :| c in cards && c.deck == d;
        var k :| 0 <= k < |cards| && cards[k] == c;
        assert names[k] == d;
      }
    }
    Distinct(names)
  }

  /** A card counts as mastered when it is easy and has been known three times in a row. */
  predicate Mastered(card: Flashcard)
  {
    card.difficulty <= 2 && card.repetitions >= 3
  }

  /** `masteredCards` */
  function MasteredCount(cards: seq<Flashcard>): (n: nat)
    ensures n <= |cards|
    ensures n == 0 <==> forall i :: 0 <= i < |cards| ==> !Mastered(cards[i])
  {
    var r := Filter(cards, Mastered);
    FilterMembers(cards, Mastered);
    assert forall i :: 0 <= i < |cards| && Mastered(cards[i]) ==> cards[i] in r;
    assert |r| > 0 ==> r[0] in r;
    |r|
  }

  /** `dueCards` */
  function DueCount(cards: seq<Flashcard>, now: int): (n: nat)
    ensures n <= |cards|
  {
    |Filter(cards, DueAt(now))|
  }

  /** `IsDue` as the test handed to `filter`. */
  function DueAt(now: int): Flashcard -> bool
  {
    c => IsDue(c, now)
  }

  /** The "Due Today (n)" badge counts exactly the cards the due tab lists when no
      deck is selected. */
  lemma DueCountMatchesDueTab(cards: seq<Flashcard>, now: int)
    ensures DueCount(cards, now) == |FilteredCards(cards, DueTab, None, now)|
  {
    FilterCongruent(cards, DueAt(now), ListedAt(DueTab, None, now));
  }

  /** "Know" keeps a mastered card mastered; "don't know" always un-masters a card. */
  lemma ReviewAndMastery(card: Flashcard, now: int)
    ensures Mastered(card) ==> Mastered(Know(card, now))
    ensures !Mastered(DontKnow(card, now))
  {
  }

  /** The position in `cards` of the card with id `id`, or -1. */
  function IndexOfId(cards: seq<Flashcard>, id: int): (i: int)
    ensures -1 <= i < |cards|
    ensures i == -1 <==> forall k :: 0 <= k < |cards| ==> cards[k].id != id
    ensures i != -1 ==> cards[i].id == id && forall k :: 0 <= k < i ==> cards[k].id != id
  {
    FindIndex(cards, (c: Flashcard) => c.id == id)
  }

  /** The card collection after answering the card at `index` of the cards listed at
      the render instant `shownAt`: the first card with that id is reviewed at the
      click instant `now`, every other card is unchanged. */
  function Answered(cards: seq<Flashcard>, tab: Tab, deck: Option<string>, index: int, shownAt: int, now: int, knew: bool): (r: seq<Flashcard>)
    requires 0 <= index < |FilteredCards(cards, tab, deck, shownAt)|
    ensures |r| == |cards|
  {
    var shown := FilteredCards(cards, tab, deck, shownAt);
    var i := IndexOfId(cards, shown[index].id);
    if i == -1 then cards else cards[i := Review(cards[i], now, knew)]
  }

  /** Answering replaces exactly the card carrying the shown card's id, by its
      reviewed version; the length and every other card stay as they were. */
  lemma AnsweredReplacesOnlyThatCard(cards: seq<Flashcard>, tab: Tab, deck: Option<string>, index: int, shownAt: int, now: int, knew: bool)
    requires 0 <= index < |FilteredCards(cards, tab, deck, shownAt)|
    ensures var shown := FilteredCards(cards, tab, deck, shownAt);
      var i := IndexOfId(cards, shown[index].id);
      var r := Answered(cards, tab, deck, index, shownAt, now, knew);
      && 0 <= i < |cards|
      && r == cards[i := Review(cards[i], now, knew)]
      && r[i] == Review(cards[i], now, knew)
      && forall k :: 0 <= k < |cards| && k != i ==> r[k] == cards[k]
  {
    var shown := FilteredCards(cards, tab, deck, shownAt);
    FilteredCardsMembers(cards, tab, deck, shownAt);
    assert shown[index] in shown;
    var k :| 0 <= k < |cards| && cards[k] == shown[index];
  }

  /** An answer moves the mastered figure by the answered card alone: "don't know"
      on a mastered card lowers it by one, "know" on a mastered card keeps it, and
      in every case the figure changes by at most one. */
  lemma AnswerMovesMasteredCount(cards: seq<Flashcard>, tab: Tab, deck: Option<string>, index: int, shownAt: int, now: int, knew: bool)
    requires 0 <= index < |FilteredCards(cards, tab, deck, shownAt)|
    ensures var i := IndexOfId(cards, FilteredCards(cards, tab, deck, shownAt)[index].id);
      0 <= i < |cards| &&
      var before := MasteredCount(cards);
      var after := MasteredCount(Answered(cards, tab, deck, index, shownAt, now, knew));
      && after + (if Mastered(cards[i]) then 1 else 0)
         == before + (if Mastered(Review(cards[i], now, knew)) then 1 else 0)
      && (!knew && Mastered(cards[i]) ==> after == before - 1)
      && (knew && Mastered(cards[i]) ==> after == before)
      && (!knew && !Mastered(cards[i]) ==> after == before)
  {
    AnsweredReplacesOnlyThatCard(cards, tab, deck, index, shownAt, now, knew);
    var i := IndexOfId(cards, FilteredCards(cards, tab, deck, shownAt)[index].id);
    var reviewed := Review(cards[i], now, knew);
    assert Answered(cards, tab, deck, index, shownAt, now, knew) == cards[i := reviewed];
    FilterCountUpdate(cards, i, reviewed, Mastered);
    ReviewAndMastery(cards[i], now);
  }

  /** `handleNext` */
  function StepForward(index: int, count: int): int
  {
    if index < count - 1 then index + 1 else index
  }

  /** `handlePrevious` */
  function StepBack(index: int): int
  {
    if index > 0 then index - 1 else index
  }

  /** The cursor points at a listed card whenever there is one. */
  predicate CursorInRange(index: int, count: int)
  {
    0 <= index && (count > 0 ==> index < count)
  }

  /** Stepping forward or back never moves the cursor off the list. */
  lemma StepsKeepCursorInRange(index: int, count: int)
    requires CursorInRange(index, count)
    ensures CursorInRange(StepForward(index, count), count)
    ensures CursorInRange(StepBack(index), count)
    ensures count > 0 ==> StepForward(index, count) <= count - 1 && StepBack(index) >= 0
  {
  }

  /** The page as written: `handleKnow` / `handleDontKnow` update the card and then
      call `handleNext`, which still sees the list rendered at `shownAt`, from before
      the answer. */
  function AnswerAsWritten(cards: seq<Flashcard>, tab: Tab, deck: Option<string>, index: int, shownAt: int, now: int, knew: bool): (r: (seq<Flashcard>, int))
    requires 0 <= index < |FilteredCards(cards, tab, deck, shownAt)|
    ensures r.0 == Answered(cards, tab, deck, index, shownAt, now, knew)
  {
    var shown := FilteredCards(cards, tab, deck, shownAt);
    (Answered(cards, tab, deck, index, shownAt, now, knew), StepForward(index, |shown|))
  }

  /** A card due at `now` that has never been answered. */
  function NewCard(id: int, now: int): Flashcard
  {
    Flashcard(id, "q", "a", "d", 0, now, 3, 0)
  }

  /** On the due tab an answered card leaves the list, yet the cursor the page keeps
      moves on as if it had stayed: after "know" on the last of two due cards the
      cursor is 1 while one card is listed, so the page reads `filteredCards[1]` of a
      one-card list. */
  lemma AnswerAsWrittenLeavesList(now: int)
    ensures FilteredCards([NewCard(1, now), NewCard(2, now)], DueTab, None, now) == [NewCard(1, now), NewCard(2, now)]
    ensures var r := AnswerAsWritten([NewCard(1, now), NewCard(2, now)], DueTab, None, 1, now, now, true);
      r.1 == 1 && |FilteredCards(r.0, DueTab, None, now)| == 1
  {
    var a, b := NewCard(1, now), NewCard(2, now);
    var keep := ListedAt(DueTab, None, now);
    FilterKeepsAll([a, b], keep);
    var r1 := Answered([a, b], DueTab, None, 1, now, now, true);
    assert r1 == [a] + [Know(b, now)];
    FilterAppend([a], [Know(b, now)], keep);
    assert Filter([Know(b, now)], keep) == [];
  }

  /** ... and after an answer on the first of three due cards the cursor moves to 1,
      which is now the third card: the second is skipped. */
  lemma AnswerAsWrittenSkipsCard(now: int)
    ensures FilteredCards([NewCard(1, now), NewCard(2, now), NewCard(3, now)], DueTab, None, now)
      == [NewCard(1, now), NewCard(2, now), NewCard(3, now)]
    ensures var r := AnswerAsWritten([NewCard(1, now), NewCard(2, now), NewCard(3, now)], DueTab, None, 0, now, now, false);
      r.1 == 1 && FilteredCards(r.0, DueTab, None, now) == [NewCard(2, now), NewCard(3, now)]
  {
    var a, b, c := NewCard(1, now), NewCard(2, now), NewCard(3, now);
    var keep := ListedAt(DueTab, None, now);
    FilterKeepsAll([a, b, c], keep);
    var r2 := Answered([a, b, c], DueTab, None, 0, now, now, false);
    assert r2 == [DontKnow(a, now)] + [b, c];
    FilterAppend([DontKnow(a, now)], [b, c], keep);
    assert Filter([DontKnow(a, now)], keep) == [];
    FilterKeepsAll([b, c], keep);
  }

  /** The answered card is the one the render showed, not one that fell due between
      the render and the click: with `b` due at the render and `a` due only a second
      later, "know" clicked two seconds after the render reviews `b` and keeps the
      cursor on the one-card rendered list, although at the click both are due. */
  lemma AnswerUsesRenderedList(t0: int)
    ensures FilteredCards([NewCard(1, t0 + 1000), NewCard(2, t0)], DueTab, None, t0) == [NewCard(2, t0)]
    ensures FilteredCards([NewCard(1, t0 + 1000), NewCard(2, t0)], DueTab, None, t0 + 2000)
      == [NewCard(1, t0 + 1000), NewCard(2, t0)]
    ensures AnswerAsWritten([NewCard(1, t0 + 1000), NewCard(2, t0)], DueTab, None, 0, t0, t0 + 2000, true)
      == ([NewCard(1, t0 + 1000), Know(NewCard(2, t0), t0 + 2000)], 0)
  {
    var a, b := NewCard(1, t0 + 1000), NewCard(2, t0);
    var keep := ListedAt(DueTab, None, t0);
    assert [a, b] == [a] + [b];
    FilterAppend([a], [b], keep);
    assert Filter([a], keep) == [];
    FilterKeepsAll([a, b], ListedAt(DueTab, None, t0 + 2000));
    assert IndexOfId([a, b], b.id) == 1;
    assert Answered([a, b], DueTab, None, 0, t0, t0 + 2000, true) == [a, Know(b, t0 + 2000)];
  }

  /** Where the cursor goes after an answer: if the answered card is still listed,
      step forward as `handleNext` does; if it left the list, the next card has moved
      into its place, so stay (or go to the new last card when it was the last). */
  function CursorAfterAnswer(index: int, oldCount: int, newCount: int): (j: int)
    requires CursorInRange(index, oldCount)
    ensures CursorInRange(j, newCount)
  {
    if newCount == oldCount then StepForward(index, oldCount)
    else if index < newCount then index
    else if newCount > 0 then newCount - 1
    else 0
  }

  /** An answer as the page evidently means it: the card update, then the cursor,
      placed against the list after the answer as of the render instant `shownAt`.
      As the due list only gains cards over time, the cursor also stays in range of
      the list at any later instant. */
  function Answer(cards: seq<Flashcard>, tab: Tab, deck: Option<string>, index: int, shownAt: int, now: int, knew: bool): (r: (seq<Flashcard>, int))
    requires 0 <= index < |FilteredCards(cards, tab, deck, shownAt)|
    ensures r.0 == Answered(cards, tab, deck, index, shownAt, now, knew)
    ensures CursorInRange(r.1, |FilteredCards(r.0, tab, deck, shownAt)|)
    ensures forall later :: shownAt <= later ==> CursorInRange(r.1, |FilteredCards(r.0, tab, deck, later)|)
  {
    var cards' := Answered(cards, tab, deck, index, shownAt, now, knew);
    var oldCount := |FilteredCards(cards, tab, deck, shownAt)|;
    var j := CursorAfterAnswer(index, oldCount, |FilteredCards(cards', tab, deck, shownAt)|);
    assert forall later :: shownAt <= later ==> CursorInRange(j, |FilteredCards(cards', tab, deck, later)|) by {
      forall later | shownAt <= later
        ensures CursorInRange(j, |FilteredCards(cards', tab, deck, later)|)
      {
        DueListGrows(cards', tab, deck, shownAt, later);
        SubseqProperties(FilteredCards(cards', tab, deck, shownAt), FilteredCards(cards', tab, deck, later));
      }
    }
    (cards', j)
  }

  /** While the answered card stays listed, the page as written and the corrected
      answer agree: both step forward over the same list. They differ only when the
      card leaves the list. */
  lemma AnswerAsWrittenAgreesWhenCardStays(cards: seq<Flashcard>, tab: Tab, deck: Option<string>, index: int, shownAt: int, now: int, knew: bool)
    requires 0 <= index < |FilteredCards(cards, tab, deck, shownAt)|
    requires |FilteredCards(Answered(cards, tab, deck, index, shownAt, now, knew), tab, deck, shownAt)|
          == |FilteredCards(cards, tab, deck, shownAt)|
    ensures AnswerAsWritten(cards, tab, deck, index, shownAt, now, knew) == Answer(cards, tab, deck, index, shownAt, now, knew)
  {
  }

  /** No two cards share an id. */
  predicate UniqueIds(cards: seq<Flashcard>)
  {
    forall j, k :: 0 <= j < k < |cards| ==> cards[j].id != cards[k].id
  }

  lemma {:induction false} FilterKeepsUniqueIds(cards: seq<Flashcard>, keep: Flashcard -> bool)
    requires UniqueIds(cards)
    ensures UniqueIds(Filter(cards, keep))
  {
    if |cards| > 0 {
      FilterKeepsUniqueIds(cards[1..], keep);
      var rest := Filter(cards[1..], keep);
      FilterMembers(cards[1..], keep);
      forall k | 0 <= k < |rest| ensures rest[k].id != cards[0].id {
        assert rest[k] in cards[1..];
      }
    }
  }

  /** With distinct ids, the shown card at `index` sits at position `IndexOfId` of the
      collection, and exactly `index` listed cards come before it. */
  lemma ShownCardPosition(cards: seq<Flashcard>, tab: Tab, deck: Option<string>, index: int, shownAt: int)
    requires UniqueIds(cards)
    requires 0 <= index < |FilteredCards(cards, tab, deck, shownAt)|
    ensures var keep := ListedAt(tab, deck, shownAt);
      var i := IndexOfId(cards, FilteredCards(cards, tab, deck, shownAt)[index].id);
      && 0 <= i < |cards|
      && keep(cards[i])
      && |Filter(cards[..i], keep)| == index
      && FilteredCards(cards, tab, deck, shownAt) == Filter(cards[..i], keep) + [cards[i]] + Filter(cards[i + 1..], keep)
  {
    var keep := ListedAt(tab, deck, shownAt);
    var shown := FilteredCards(cards, tab, deck, shownAt);
    var i := IndexOfId(cards, shown[index].id);
    assert 0 <= i < |cards| && cards[i] == shown[index] by {
      FilteredCardsMembers(cards, tab, deck, shownAt);
      assert shown[index] in shown;
      var k :| 0 <= k < |cards| && cards[k] == shown[index];
      assert i == k;
    }
    var before := Filter(cards[..i], keep);
    assert shown == before + [cards[i]] + Filter(cards[i + 1..], keep) by {
      FilterUpdate(cards, i, cards[i], keep);
      assert Filter([cards[i]], keep) == [cards[i]];
    }
    assert |before| == index by {
      FilterKeepsUniqueIds(cards, keep);
      assert shown[|before|] == cards[i];
    }
  }

  /** With distinct ids, answering changes the listed cards only at the answered
      card's place: it stays there, reviewed, or it drops out. */
  lemma AnsweredListShape(cards: seq<Flashcard>, tab: Tab, deck: Option<string>, index: int, shownAt: int, now: int, knew: bool)
    requires UniqueIds(cards)
    requires 0 <= index < |FilteredCards(cards, tab, deck, shownAt)|
    ensures var keep := ListedAt(tab, deck, shownAt);
      var shown := FilteredCards(cards, tab, deck, shownAt);
      var i := IndexOfId(cards, shown[index].id);
      0 <= i < |cards| &&
      var reviewed := Review(cards[i], now, knew);
      var before := Filter(cards[..i], keep);
      var after := Filter(cards[i + 1..], keep);
      && |before| == index
      && shown == before + [cards[i]] + after
      && FilteredCards(Answered(cards, tab, deck, index, shownAt, now, knew), tab, deck, shownAt)
         == before + (if keep(reviewed) then [reviewed] else []) + after
  {
    var keep := ListedAt(tab, deck, shownAt);
    var shown := FilteredCards(cards, tab, deck, shownAt);
    ShownCardPosition(cards, tab, deck, index, shownAt);
    AnsweredReplacesOnlyThatCard(cards, tab, deck, index, shownAt, now, knew);
    var i := IndexOfId(cards, shown[index].id);
    FilterUpdateSingle(cards, i, Review(cards[i], now, knew), keep);
  }

  /** With distinct ids, answering never skips a card: the list loses at most the
      answered card, and when it does, the cursor lands on the card that followed it. */
  lemma AnswerDoesNotSkip(cards: seq<Flashcard>, tab: Tab, deck: Option<string>, index: int, shownAt: int, now: int, knew: bool)
    requires UniqueIds(cards)
    requires 0 <= index < |FilteredCards(cards, tab, deck, shownAt)|
    ensures var shown := FilteredCards(cards, tab, deck, shownAt);
      var r := Answer(cards, tab, deck, index, shownAt, now, knew);
      var shown' := FilteredCards(r.0, tab, deck, shownAt);
      && (|shown'| == |shown| || |shown'| == |shown| - 1)
      && (|shown'| == |shown| - 1 && index + 1 < |shown| ==> shown'[r.1] == shown[index + 1])
  {
    AnsweredListShape(cards, tab, deck, index, shownAt, now, knew);
    var keep := ListedAt(tab, deck, shownAt);
    var shown := FilteredCards(cards, tab, deck, shownAt);
    var i := IndexOfId(cards, shown[index].id);
    var reviewed := Review(cards[i], now, knew);
    var before := Filter(cards[..i], keep);
    var after := Filter(cards[i + 1..], keep);
    var r := Answer(cards, tab, deck, index, shownAt, now, knew);
    var shown' := FilteredCards(r.0, tab, deck, shownAt);
    ReplaceAtMostOne(shown, shown', before, cards[i], if keep(reviewed) then [reviewed] else [], after);
    assert r.1 == CursorAfterAnswer(index, |shown|, |shown'|);
  }

  /** Replacing one element of a list by at most one element keeps its length or
      shortens it by one; when it shortens, the element that followed the replaced
      one moves into its place. */
  lemma ReplaceAtMostOne<T>(shown: seq<T>, shown': seq<T>, before: seq<T>, x: T, y: seq<T>, after: seq<T>)
    requires shown == before + [x] + after && shown' == before + y + after && |y| <= 1
    ensures |shown'| == |shown| || |shown'| == |shown| - 1
    ensures |shown'| == |shown| - 1 && |before| + 1 < |shown| ==> shown'[|before|] == shown[|before| + 1]
  {
    if |y| == 0 && |before| + 1 < |shown| {
      assert shown' == before + after;
      assert shown'[|before|] == after[0];
    }
  }

  /** The page's state: the card collection (owned by the app context), the cursor,
      the tab and the deck selection. */
  class FlashcardPage {
    var flashcards: seq<Flashcard>
    var currentIndex: int
    var activeTab: Tab
    var selectedDeck: Option<string>

    constructor (cards: seq<Flashcard>)
      ensures flashcards == cards && currentIndex == 0
      ensures activeTab == DueTab && selectedDeck == None
    {
      flashcards := cards;
      currentIndex := 0;
      activeTab := DueTab;
      selectedDeck := None;
    }

    /** The cards the page lists at instant `now`. */
    function Listed(now: int): seq<Flashcard>
      reads this
    {
      FilteredCards(flashcards, activeTab, selectedDeck, now)
    }

    method HandleNext(now: int)
      modifies this`currentIndex
      ensures currentIndex == StepForward(old(currentIndex), |Listed(now)|)
      ensures CursorInRange(old(currentIndex), |Listed(now)|) ==> CursorInRange(currentIndex, |Listed(now)|)
    {
      if currentIndex < |Listed(now)| - 1 {
        currentIndex := currentIndex + 1;
      }
    }

    method HandlePrevious(now: int)
      modifies this`currentIndex
      ensures currentIndex == StepBack(old(currentIndex))
      ensures CursorInRange(old(currentIndex), |Listed(now)|) ==> CursorInRange(currentIndex, |Listed(now)|)
    {
      if currentIndex > 0 {
        currentIndex := currentIndex - 1;
      }
    }

    /** "Know" on the card under the cursor (the button exists only while a card is
        shown). The card is the one the render at `shownAt` listed; the click comes
        at `now`, which dates the review. As written, the closing `handleNext` steps
        the cursor over the rendered list from before the answer; while the answered
        card stays listed this is the corrected `Answer`. */
    method HandleKnow(shownAt: int, now: int)
      requires shownAt <= now
      requires 0 <= currentIndex < |Listed(shownAt)|
      modifies this`flashcards, this`currentIndex
      ensures (flashcards, currentIndex) == AnswerAsWritten(old(flashcards), activeTab, selectedDeck, old(currentIndex), shownAt, now, true)
      ensures |Listed(shownAt)| == |old(Listed(shownAt))| ==>
        && (flashcards, currentIndex) == Answer(old(flashcards), activeTab, selectedDeck, old(currentIndex), shownAt, now, true)
        && CursorInRange(currentIndex, |Listed(now)|)
    {
      var shown := Listed(shownAt);
      var cardIndex := IndexOfId(flashcards, shown[currentIndex].id);
      if cardIndex != -1 {
        var card := flashcards[cardIndex];
        card := card.(difficulty := if card.difficulty - 1 > 1 then card.difficulty - 1 else 1);
        card := card.(repetitions := card.repetitions + 1);
        var daysToAdd := card.repetitions * 2;
        card := card.(nextReview := AddDays(now, daysToAdd));
        card := card.(lastReviewed := now);
        flashcards := flashcards[cardIndex := card];
      }
      if currentIndex < |shown| - 1 {
        currentIndex := currentIndex + 1;
      }
      if |Listed(shownAt)| == |shown| {
        AnswerAsWrittenAgreesWhenCardStays(old(flashcards), activeTab, selectedDeck, old(currentIndex), shownAt, now, true);
      }
    }

    /** "Don't know" on the card under the cursor, with the same closing step. */
    method HandleDontKnow(shownAt: int, now: int)
      requires shownAt <= now
      requires 0 <= currentIndex < |Listed(shownAt)|
      modifies this`flashcards, this`currentIndex
      ensures (flashcards, currentIndex) == AnswerAsWritten(old(flashcards), activeTab, selectedDeck, old(currentIndex), shownAt, now, false)
      ensures |Listed(shownAt)| == |old(Listed(shownAt))| ==>
        && (flashcards, currentIndex) == Answer(old(flashcards), activeTab, selectedDeck, old(currentIndex), shownAt, now, false)
        && CursorInRange(currentIndex, |Listed(now)|)
    {
      var shown := Listed(shownAt);
      var cardIndex := IndexOfId(flashcards, shown[currentIndex].id);
      if cardIndex != -1 {
        var card := flashcards[cardIndex];
        card := card.(difficulty := if card.difficulty + 1 < 5 then card.difficulty + 1 else 5);
        card := card.(repetitions := 0);
        card := card.(nextReview := AddDays(now, 1));
        card := card.(lastReviewed := now);
        flashcards := flashcards[cardIndex := card];
      }
      if currentIndex < |shown| - 1 {
        currentIndex := currentIndex + 1;
      }
      if |Listed(shownAt)| == |shown| {
        AnswerAsWrittenAgreesWhenCardStays(old(flashcards), activeTab, selectedDeck, old(currentIndex), shownAt, now, false);
      }
    }

    /** Switching tabs starts the review from the first listed card. */
    method SelectTab(tab: Tab, now: int)
      modifies this`activeTab, this`currentIndex
      ensures activeTab == tab && currentIndex == 0
      ensures CursorInRange(currentIndex, |Listed(now)|)
    {
      activeTab := tab;
      currentIndex := 0;
    }

    /** Choosing a deck (or all decks) starts the review from the first listed card. */
    method SelectDeck(deck: Option<string>, now: int)
      modifies this`selectedDeck, this`currentIndex
      ensures selectedDeck == deck && currentIndex == 0
      ensures CursorInRange(currentIndex, |Listed(now)|)
    {
      selectedDeck := deck;
      currentIndex := 0;
    }
  }

  /** The page as written changes the tab first and resets the cursor only in an
      effect after the next render, which therefore reads the old cursor against the
      new list: on the third card of the full list, the due list may hold one card. */
  lemma SelectTabAsWrittenRendersOldCursor(now: int)
    ensures var cards := [NewCard(1, now), NewCard(2, now + DayMs), NewCard(3, now + DayMs)];
      CursorInRange(2, |FilteredCards(cards, AllTab, None, now)|)
      && !CursorInRange(2, |FilteredCards(cards, DueTab, None, now)|)
  {
    var a, b, c := NewCard(1, now), NewCard(2, now + DayMs), NewCard(3, now + DayMs);
    FilterKeepsAll([a, b, c], ListedAt(AllTab, None, now));
    var keep := ListedAt(DueTab, None, now);
    assert [a, b, c] == [a] + [b, c];
    FilterAppend([a], [b, c], keep);
    FilterKeepsNone([b, c], keep);
  }
}
