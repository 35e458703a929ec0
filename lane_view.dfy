/** The display order of a lane's cards: a sorted copy of `lane.cards`, by
    `order` in manual mode or by numeric `priority` in priority mode.
    `Array.prototype.sort` is stable, and a stable sort's result is determined by
    the comparator, so it is modelled here as an insertion sort. */
module LaneView {
  import opened Common
  import opened Store

  /** A card as the lane component receives it (its `priority` is declared numeric there). */
  datatype ViewCard = ViewCard(id: Id, title: string, priority: int, order: int)

  /** The sort key: `a.order - b.order` or `a.priority - b.priority`. */
  function Key(c: ViewCard, byPriority: bool): int
  {
    if byPriority then c.priority else c.order
  }

  predicate SortedBy(s: seq<ViewCard>, byPriority: bool)
  {
    forall i, j :: 0 <= i < j < |s| ==> Key(s[i], byPriority) <= Key(s[j], byPriority)
  }

  /** `x` inserted after every card whose key is not greater. */
  function Insert(x: ViewCard, s: seq<ViewCard>, byPriority: bool): (r: seq<ViewCard>)
    ensures |r| == |s| + 1
    ensures multiset(r) == multiset(s) + multiset{x}
  {
    if s == [] then [x]
    else if Key(x, byPriority) < Key(s[0], byPriority) then [x] + s
    else
      assert s == [s[0]] + s[1..];
      [s[0]] + Insert(x, s[1..], byPriority)
  }

  /** `sortedCards`: a sorted copy; the input is not reordered. */
  function SortedCards(cards: seq<ViewCard>, sortByPriority: bool): (r: seq<ViewCard>)
    ensures |r| == |cards|
    ensures multiset(r) == multiset(cards)
  {
    if cards == [] then []
    else
      assert cards == cards[..|cards| - 1] + [cards[|cards| - 1]];
      Insert(cards[|cards| - 1], SortedCards(cards[..|cards| - 1], sortByPriority), sortByPriority)
  }

  /** The cards of `s` whose key is `k`, in sequence order. */
  function WithKey(s: seq<ViewCard>, k: int, byPriority: bool): seq<ViewCard>
  {
    if s == [] then []
    else WithKey(s[..|s| - 1], k, byPriority) + (if Key(s[|s| - 1], byPriority) == k then [s[|s| - 1]] else [])
  }

  lemma {:induction false} WithKeyConcat(a: seq<ViewCard>, b: seq<ViewCard>, k: int, byPriority: bool)
    ensures WithKey(a + b, k, byPriority) == WithKey(a, k, byPriority) + WithKey(b, k, byPriority)
    decreases |b|
  {
    if b == [] {
      assert a + b == a;
    } else {
      var init := b[..|b| - 1];
      WithKeyConcat(a, init, k, byPriority);
      assert (a + b)[..|a + b| - 1] == a + init;
      assert (a + b)[|a + b| - 1] == b[|b| - 1];
    }
  }

  lemma WithKeySingle(x: ViewCard, k: int, byPriority: bool)
    ensures WithKey([x], k, byPriority) == if Key(x, byPriority) == k then [x] else []
  {
    assert [x][..0] == [];
  }

  /** A lower bound on the keys of `s` and of `x` bounds the keys after insertion. */
  lemma {:induction false} InsertLowerBound(x: ViewCard, s: seq<ViewCard>, byPriority: bool, b: int)
    requires forall i :: 0 <= i < |s| ==> b <= Key(s[i], byPriority)
    requires b <= Key(x, byPriority)
    ensures forall i :: 0 <= i < |Insert(x, s, byPriority)| ==> b <= Key(Insert(x, s, byPriority)[i], byPriority)
  {
    if s != [] && Key(s[0], byPriority) <= Key(x, byPriority) {
      InsertLowerBound(x, s[1..], byPriority, b);
    }
  }

  /** Inserting into a sorted sequence keeps it sorted. */
  lemma {:induction false} InsertKeepsSorted(x: ViewCard, s: seq<ViewCard>, byPriority: bool)
    requires SortedBy(s, byPriority)
    ensures SortedBy(Insert(x, s, byPriority), byPriority)
  {
    if s != [] && Key(s[0], byPriority) <= Key(x, byPriority) {
      var rest := s[1..];
      InsertKeepsSorted(x, rest, byPriority);
      InsertLowerBound(x, rest, byPriority, Key(s[0], byPriority));
      var r := Insert(x, s, byPriority);
      var t := Insert(x, rest, byPriority);
      assert r == [s[0]] + t;
      forall i, j | 0 <= i < j < |r|
        ensures Key(r[i], byPriority) <= Key(r[j], byPriority)
      {
        if i > 0 {
          assert r[i] == t[i - 1] && r[j] == t[j - 1];
        } else {
          assert r[j] == t[j - 1];
        }
      }
    }
  }

  /** Inserting `x` into a sorted sequence appends it to the cards with its key. */
  lemma {:induction false} InsertWithKey(x: ViewCard, s: seq<ViewCard>, byPriority: bool, k: int)
    requires SortedBy(s, byPriority)
    ensures WithKey(Insert(x, s, byPriority), k, byPriority)
         == WithKey(s, k, byPriority) + (if Key(x, byPriority) == k then [x] else [])
  {
    if s == [] {
      WithKeySingle(x, k, byPriority);
    } else if Key(x, byPriority) < Key(s[0], byPriority) {
      InsertFrontWithKey(x, s, byPriority, k);
    } else {
      SortedTail(s, byPriority);
      InsertWithKey(x, s[1..], byPriority, k);
      InsertLaterWithKey(x, s, byPriority, k);
    }
  }

  lemma InsertFrontWithKey(x: ViewCard, s: seq<ViewCard>, byPriority: bool, k: int)
    requires SortedBy(s, byPriority) && s != [] && Key(x, byPriority) < Key(s[0], byPriority)
    ensures WithKey([x] + s, k, byPriority) == WithKey(s, k, byPriority) + (if Key(x, byPriority) == k then [x] else [])
  {
    WithKeyConcat([x], s, k, byPriority);
    WithKeySingle(x, k, byPriority);
    if Key(x, byPriority) == k {
      NoneWithSmallerKey(s, k, byPriority);
    }
  }

  lemma InsertLaterWithKey(x: ViewCard, s: seq<ViewCard>, byPriority: bool, k: int)
    requires s != [] && Key(s[0], byPriority) <= Key(x, byPriority)
    requires WithKey(Insert(x, s[1..], byPriority), k, byPriority)
          == WithKey(s[1..], k, byPriority) + (if Key(x, byPriority) == k then [x] else [])
    ensures WithKey(Insert(x, s, byPriority), k, byPriority)
         == WithKey(s, k, byPriority) + (if Key(x, byPriority) == k then [x] else [])
  {
    var rest := s[1..];
    var t := Insert(x, rest, byPriority);
    var head := WithKey([s[0]], k, byPriority);
    var added := if Key(x, byPriority) == k then [x] else [];
    calc {
      WithKey(Insert(x, s, byPriority), k, byPriority);
      { assert Insert(x, s, byPriority) == [s[0]] + t; }
      WithKey([s[0]] + t, k, byPriority);
      { WithKeyConcat([s[0]], t, k, byPriority); }
      head + WithKey(t, k, byPriority);
      head + (WithKey(rest, k, byPriority) + added);
      (head + WithKey(rest, k, byPriority)) + added;
      { WithKeyConcat([s[0]], rest, k, byPriority); assert [s[0]] + rest == s; }
      WithKey(s, k, byPriority) + added;
    }
  }

  lemma SortedTail(s: seq<ViewCard>, byPriority: bool)
    requires SortedBy(s, byPriority) && s != []
    ensures SortedBy(s[1..], byPriority)
  {
    var rest := s[1..];
    forall i, j | 0 <= i < j < |rest| ensures Key(rest[i], byPriority) <= Key(rest[j], byPriority) {
      assert rest[i] == s[i + 1] && rest[j] == s[j + 1];
    }
  }

  /** A sorted sequence whose first key exceeds `k` has no card with key `k`. */
  lemma {:induction false} NoneWithSmallerKey(s: seq<ViewCard>, k: int, byPriority: bool)
    requires SortedBy(s, byPriority) && s != [] && k < Key(s[0], byPriority)
    ensures WithKey(s, k, byPriority) == []
    decreases |s|
  {
    if |s| > 1 {
      var init := s[..|s| - 1];
      NoneWithSmallerKey(init, k, byPriority);
      assert Key(s[|s| - 1], byPriority) >= Key(s[0], byPriority);
    } else {
      assert s[..0] == [];
    }
  }

  /** The displayed cards are sorted by the mode's key, are a permutation of the
      lane's cards, and keep the input order among cards with equal keys. */
  lemma {:induction false} SortedCardsCorrect(cards: seq<ViewCard>, sortByPriority: bool)
    ensures SortedBy(SortedCards(cards, sortByPriority), sortByPriority)
    ensures multiset(SortedCards(cards, sortByPriority)) == multiset(cards)
    ensures forall k :: WithKey(SortedCards(cards, sortByPriority), k, sortByPriority) == WithKey(cards, k, sortByPriority)
  {
    if cards != [] {
      var init := cards[..|cards| - 1];
      var x := cards[|cards| - 1];
      SortedCardsCorrect(init, sortByPriority);
      InsertKeepsSorted(x, SortedCards(init, sortByPriority), sortByPriority);
      forall k ensures WithKey(SortedCards(cards, sortByPriority), k, sortByPriority) == WithKey(cards, k, sortByPriority) {
        InsertWithKey(x, SortedCards(init, sortByPriority), sortByPriority, k);
      }
    }
  }

  /** Cards already in display order are shown as they are. */
  lemma {:induction false} SortedInputUnchanged(cards: seq<ViewCard>, sortByPriority: bool)
    requires SortedBy(cards, sortByPriority)
    ensures SortedCards(cards, sortByPriority) == cards
  {
    if cards != [] {
      var init := cards[..|cards| - 1];
      var x := cards[|cards| - 1];
      assert init + [x] == cards;
      SortedPrefix(init, x, sortByPriority);
      SortedInputUnchanged(init, sortByPriority);
      InsertAtEnd(x, init, sortByPriority);
    }
  }

  /** Dropping the last card of a sorted sequence leaves a sorted sequence whose
      keys are all at most the dropped one's. */
  lemma SortedPrefix(init: seq<ViewCard>, x: ViewCard, byPriority: bool)
    requires SortedBy(init + [x], byPriority)
    ensures SortedBy(init, byPriority)
    ensures forall i :: 0 <= i < |init| ==> Key(init[i], byPriority) <= Key(x, byPriority)
  {
    forall i | 0 <= i < |init| ensures Key(init[i], byPriority) <= Key(x, byPriority) {
      assert (init + [x])[i] == init[i] && (init + [x])[|init|] == x;
    }
    forall i, j | 0 <= i < j < |init| ensures Key(init[i], byPriority) <= Key(init[j], byPriority) {
      assert (init + [x])[i] == init[i] && (init + [x])[j] == init[j];
    }
  }

  lemma {:induction false} InsertAtEnd(x: ViewCard, s: seq<ViewCard>, byPriority: bool)
    requires forall i :: 0 <= i < |s| ==> Key(s[i], byPriority) <= Key(x, byPriority)
    ensures Insert(x, s, byPriority) == s + [x]
  {
    if s != [] {
      InsertAtEnd(x, s[1..], byPriority);
      assert [s[0]] + (s[1..] + [x]) == s + [x];
    }
  }

  // ---------------------------------------------------------------------------
  // priority mode on the stored cards

  /** What the comparator sees of a stored card in priority mode, as written: the
      stored priority is a name, a difference of two names is `NaN`, and the sort
      compares `NaN` as equal, so every card carries one and the same key. */
  function AsWrittenView(c: Card): ViewCard
  {
    ViewCard(c.id, c.title, 0, c.order)
  }

  function AsWrittenViews(cs: seq<Card>): (r: seq<ViewCard>)
    ensures |r| == |cs| && forall i :: 0 <= i < |cs| ==> r[i] == AsWrittenView(cs[i])
  {
    seq(|cs|, i requires 0 <= i < |cs| => AsWrittenView(cs[i]))
  }

  /** As written, the priority toggle never reorders a lane: its cards are shown
      in the order the board query returned them, whatever their priorities. */
  lemma PrioritySortAsWritten(cs: seq<Card>)
    ensures SortedCards(AsWrittenViews(cs), true) == AsWrittenViews(cs)
  {
    SortedInputUnchanged(AsWrittenViews(cs), true);
  }

  /** The numeric priority the comparator evidently expects: "LOW" < "MEDIUM" < "HIGH",
      with "MEDIUM" at 2 as the lane's own create request sends it. */
  function Rank(priority: string): (r: int)
    ensures priority == "LOW" ==> r == 1
    ensures priority == "MEDIUM" ==> r == 2
    ensures priority == "HIGH" ==> r == 3
  {
    if priority == "LOW" then 1 else if priority == "MEDIUM" then 2 else if priority == "HIGH" then 3 else 0
  }

  function RankedView(c: Card): ViewCard
  {
    ViewCard(c.id, c.title, Rank(c.priority), c.order)
  }

  function RankedViews(cs: seq<Card>): (r: seq<ViewCard>)
    ensures |r| == |cs| && forall i :: 0 <= i < |cs| ==> r[i] == RankedView(cs[i])
  {
    seq(|cs|, i requires 0 <= i < |cs| => RankedView(cs[i]))
  }

  /** Sorting by rank shows the lane's cards by increasing priority rank, each card
      once, and keeps the query order among cards of equal priority. */
  lemma RankedPrioritySort(cs: seq<Card>)
    ensures multiset(SortedCards(RankedViews(cs), true)) == multiset(RankedViews(cs))
    ensures forall i, j :: 0 <= i < j < |cs| ==>
      SortedCards(RankedViews(cs), true)[i].priority <= SortedCards(RankedViews(cs), true)[j].priority
    ensures forall k :: WithKey(SortedCards(RankedViews(cs), true), k, true) == WithKey(RankedViews(cs), k, true)
  {
    SortedCardsCorrect(RankedViews(cs), true);
  }

  /** A lane holding a "HIGH" card before a "LOW" one: as written the toggle keeps
      the "HIGH" card first, ranked the "LOW" card comes first. */
  lemma PrioritySortExample()
    ensures SortedCards(AsWrittenViews([Card("h", "l", "", "", "HIGH", 0), Card("w", "l", "", "", "LOW", 1)]), true)[0].id == "h"
    ensures SortedCards(RankedViews([Card("h", "l", "", "", "HIGH", 0), Card("w", "l", "", "", "LOW", 1)]), true)[0].id == "w"
  {
    var cs := [Card("h", "l", "", "", "HIGH", 0), Card("w", "l", "", "", "LOW", 1)];
    PrioritySortAsWritten(cs);
    var r := RankedViews(cs);
    assert Rank("HIGH") == 3 && Rank("LOW") == 1;
    assert r == [ViewCard("h", "", 3, 0), ViewCard("w", "", 1, 1)];
    assert SortedCards(r[..1], true) == [r[0]];
  }
}
