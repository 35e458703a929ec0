/** The persisted tables the route handlers read and write through the Prisma
    client: boards, lanes, cards, checklist items and users. Each Prisma call the
    handlers make is one method of `Database`; `updateMany` is a loop over the
    card table. The schema itself is not part of this model: the foreign keys
    (lane -> board, card -> lane, item -> card, item -> assigned user) are
    assumed enforced and deletes are assumed to cascade to child rows. */
module Store {
  import opened Common
  import opened Ordering

  datatype Card = Card(id: Id, laneId: Id, title: string, description: string, priority: string, order: int)
  datatype Lane = Lane(id: Id, boardId: Id, title: string, order: int)
  datatype ChecklistItem = ChecklistItem(id: Id, cardId: Id, text: string, completed: bool, assignedToUserId: Option<Id>)
  datatype User = User(id: Id, lineUserId: string, name: string)

  function CardIds(cs: seq<Card>): (r: seq<Id>)
    ensures |r| == |cs| && forall i :: 0 <= i < |cs| ==> r[i] == cs[i].id
  {
    seq(|cs|, i requires 0 <= i < |cs| => cs[i].id)
  }

  function LaneIds(ls: seq<Lane>): (r: seq<Id>)
    ensures |r| == |ls| && forall i :: 0 <= i < |ls| ==> r[i] == ls[i].id
  {
    seq(|ls|, i requires 0 <= i < |ls| => ls[i].id)
  }

  function ItemIds(xs: seq<ChecklistItem>): (r: seq<Id>)
    ensures |r| == |xs| && forall i :: 0 <= i < |xs| ==> r[i] == xs[i].id
  {
    seq(|xs|, i requires 0 <= i < |xs| => xs[i].id)
  }

  function UserIds(us: seq<User>): (r: seq<Id>)
    ensures |r| == |us| && forall i :: 0 <= i < |us| ==> r[i] == us[i].id
  {
    seq(|us|, i requires 0 <= i < |us| => us[i].id)
  }

  function LineUserIds(us: seq<User>): (r: seq<string>)
    ensures |r| == |us| && forall i :: 0 <= i < |us| ==> r[i] == us[i].lineUserId
  {
    seq(|us|, i requires 0 <= i < |us| => us[i].lineUserId)
  }

  /** Each card seen as its (lane, order) slot. */
  function CardSlots(cs: seq<Card>): (r: seq<Slot>)
    ensures |r| == |cs| && forall i :: 0 <= i < |cs| ==> r[i] == Slot(cs[i].laneId, cs[i].order)
  {
    seq(|cs|, i requires 0 <= i < |cs| => Slot(cs[i].laneId, cs[i].order))
  }

  /** Each lane seen as its (board, order) slot. */
  function LaneSlots(ls: seq<Lane>): (r: seq<Slot>)
    ensures |r| == |ls| && forall i :: 0 <= i < |ls| ==> r[i] == Slot(ls[i].boardId, ls[i].order)
  {
    seq(|ls|, i requires 0 <= i < |ls| => Slot(ls[i].boardId, ls[i].order))
  }

  /** Unique keys and the foreign keys the schema enforces. */
  ghost predicate Consistent(boards: set<Id>, lanes: seq<Lane>, cards: seq<Card>, items: seq<ChecklistItem>, users: seq<User>)
  {
    && NoDuplicates(LaneIds(lanes)) && NoDuplicates(CardIds(cards)) && NoDuplicates(ItemIds(items))
    && NoDuplicates(UserIds(users)) && NoDuplicates(LineUserIds(users))
    && (forall i :: 0 <= i < |lanes| ==> lanes[i].boardId in boards)
    && (forall i :: 0 <= i < |cards| ==> cards[i].laneId in LaneIds(lanes))
    && (forall i :: 0 <= i < |items| ==> items[i].cardId in CardIds(cards))
    && (forall i :: 0 <= i < |items| && items[i].assignedToUserId.Some?
          ==> items[i].assignedToUserId.value in UserIds(users))
  }

  /** One `updateMany` row update on the card table. */
  function ShiftCard(c: Card, lane: Id, lo: int, hi: Option<int>, delta: int): (r: Card)
    ensures r == c.(order := Shift(Slot(c.laneId, c.order), lane, lo, hi, delta).order)
  {
    if c.laneId == lane && InWindow(c.order, lo, hi) then c.(order := c.order + delta) else c
  }

  /** The cards that are not in lane `lane`, in table order. */
  function CardsOutsideLane(cs: seq<Card>, lane: Id): (r: seq<Card>)
    ensures forall c :: c in r <==> c in cs && c.laneId != lane
  {
    if cs == [] then []
    else if cs[0].laneId != lane then [cs[0]] + CardsOutsideLane(cs[1..], lane)
    else CardsOutsideLane(cs[1..], lane)
  }

  lemma {:induction false} CardsOutsideLaneUnique(cs: seq<Card>, lane: Id)
    requires NoDuplicates(CardIds(cs))
    ensures NoDuplicates(CardIds(CardsOutsideLane(cs, lane)))
  {
    if cs != [] {
      var rest := CardsOutsideLane(cs[1..], lane);
      assert NoDuplicates(CardIds(cs[1..])) by {
        assert CardIds(cs[1..]) == CardIds(cs)[1..];
      }
      CardsOutsideLaneUnique(cs[1..], lane);
      if cs[0].laneId != lane {
        assert cs[0].id !in CardIds(rest) by {
          FirstIdNotInTail(cs);
          forall k | 0 <= k < |rest| ensures rest[k].id != cs[0].id {
            assert rest[k] in cs[1..];
          }
        }
        assert CardIds(CardsOutsideLane(cs, lane)) == [cs[0].id] + CardIds(rest);
        NoDuplicatesCons(cs[0].id, CardIds(rest));
      }
    }
  }

  lemma FirstIdNotInTail(cs: seq<Card>)
    requires cs != [] && NoDuplicates(CardIds(cs))
    ensures forall c :: c in cs[1..] ==> c.id != cs[0].id
  {
    forall c | c in cs[1..] ensures c.id != cs[0].id {
      var j :| 0 <= j < |cs[1..]| && cs[1..][j] == c;
      assert CardIds(cs)[j + 1] == c.id;
    }
  }

  /** The checklist items whose card is one of `cardIds`, in table order. */
  function ItemsOfCards(xs: seq<ChecklistItem>, cardIds: seq<Id>): (r: seq<ChecklistItem>)
    ensures forall x :: x in r <==> x in xs && x.cardId in cardIds
  {
    if xs == [] then []
    else if xs[0].cardId in cardIds then [xs[0]] + ItemsOfCards(xs[1..], cardIds)
    else ItemsOfCards(xs[1..], cardIds)
  }

  lemma {:induction false} ItemsOfCardsUnique(xs: seq<ChecklistItem>, cardIds: seq<Id>)
    requires NoDuplicates(ItemIds(xs))
    ensures NoDuplicates(ItemIds(ItemsOfCards(xs, cardIds)))
  {
    if xs != [] {
      var rest := ItemsOfCards(xs[1..], cardIds);
      assert NoDuplicates(ItemIds(xs[1..])) by {
        assert ItemIds(xs[1..]) == ItemIds(xs)[1..];
      }
      ItemsOfCardsUnique(xs[1..], cardIds);
      if xs[0].cardId in cardIds {
        assert xs[0].id !in ItemIds(rest) by {
          FirstItemIdNotInTail(xs);
          forall k | 0 <= k < |rest| ensures rest[k].id != xs[0].id {
            assert rest[k] in xs[1..];
          }
        }
        assert ItemIds(ItemsOfCards(xs, cardIds)) == [xs[0].id] + ItemIds(rest);
        NoDuplicatesCons(xs[0].id, ItemIds(rest));
      }
    }
  }

  lemma FirstItemIdNotInTail(xs: seq<ChecklistItem>)
    requires xs != [] && NoDuplicates(ItemIds(xs))
    ensures forall x :: x in xs[1..] ==> x.id != xs[0].id
  {
    forall x | x in xs[1..] ensures x.id != xs[0].id {
      var j :| 0 <= j < |xs[1..]| && xs[1..][j] == x;
      assert ItemIds(xs)[j + 1] == x.id;
    }
  }

  /** The items kept by a cascade keep their unique ids and their assignees, and
      all point at kept cards. */
  lemma KeptItems(xs: seq<ChecklistItem>, cardIds: seq<Id>, users: seq<User>)
    requires NoDuplicates(ItemIds(xs))
    requires forall i :: 0 <= i < |xs| && xs[i].assignedToUserId.Some? ==> xs[i].assignedToUserId.value in UserIds(users)
    ensures var kept := ItemsOfCards(xs, cardIds);
      && NoDuplicates(ItemIds(kept))
      && (forall i :: 0 <= i < |kept| ==> kept[i].cardId in cardIds)
      && (forall i :: 0 <= i < |kept| && kept[i].assignedToUserId.Some? ==> kept[i].assignedToUserId.value in UserIds(users))
  {
    var kept := ItemsOfCards(xs, cardIds);
    ItemsOfCardsUnique(xs, cardIds);
    forall i | 0 <= i < |kept| ensures kept[i].cardId in cardIds {
      assert kept[i] in kept;
    }
    forall i | 0 <= i < |kept| && kept[i].assignedToUserId.Some?
      ensures kept[i].assignedToUserId.value in UserIds(users)
    {
      assert kept[i] in xs;
    }
  }

  /** Removing one id from a sequence of unique ids keeps them unique and keeps
      every other id. */
  lemma RemoveId(ids: seq<Id>, k: nat)
    requires NoDuplicates(ids) && k < |ids|
    ensures NoDuplicates(ids[..k] + ids[k + 1..])
    ensures forall x :: x in ids && x != ids[k] ==> x in ids[..k] + ids[k + 1..]
    ensures ids[k] !in ids[..k] + ids[k + 1..]
  {
    var rest := ids[..k] + ids[k + 1..];
    assert forall i :: 0 <= i < |rest| ==> rest[i] == ids[if i < k then i else i + 1];
    forall x | x in ids && x != ids[k] ensures x in rest {
      var i :| 0 <= i < |ids| && ids[i] == x;
      assert rest[if i < k then i else i - 1] == x;
    }
  }

  /** Deleting card k, with its items by cascade, keeps the tables consistent. */
  lemma RemoveCardConsistent(boards: set<Id>, lanes: seq<Lane>, cards: seq<Card>, items: seq<ChecklistItem>, users: seq<User>, k: nat)
    requires Consistent(boards, lanes, cards, items, users) && k < |cards|
    ensures var rest := cards[..k] + cards[k + 1..];
      Consistent(boards, lanes, rest, ItemsOfCards(items, CardIds(rest)), users)
    ensures var rest := cards[..k] + cards[k + 1..];
      forall x :: x in items ==> (x.cardId in CardIds(rest) <==> x.cardId != cards[k].id)
  {
    var rest := cards[..k] + cards[k + 1..];
    assert CardIds(rest) == CardIds(cards)[..k] + CardIds(cards)[k + 1..];
    RemoveId(CardIds(cards), k);
    assert forall i :: 0 <= i < |rest| ==> rest[i] in cards;
    KeptItems(items, CardIds(rest), users);
    forall x | x in items ensures x.cardId in CardIds(rest) <==> x.cardId != cards[k].id {
      var i :| 0 <= i < |items| && items[i] == x;
      assert x.cardId in CardIds(cards);
    }
  }

  /** Deleting lane k, with its cards and their items by cascade, keeps the tables consistent. */
  lemma RemoveLaneConsistent(boards: set<Id>, lanes: seq<Lane>, cards: seq<Card>, items: seq<ChecklistItem>, users: seq<User>, k: nat)
    requires Consistent(boards, lanes, cards, items, users) && k < |lanes|
    ensures var kept := CardsOutsideLane(cards, lanes[k].id);
      Consistent(boards, lanes[..k] + lanes[k + 1..], kept, ItemsOfCards(items, CardIds(kept)), users)
  {
    var rest := lanes[..k] + lanes[k + 1..];
    var kept := CardsOutsideLane(cards, lanes[k].id);
    assert LaneIds(rest) == LaneIds(lanes)[..k] + LaneIds(lanes)[k + 1..];
    RemoveId(LaneIds(lanes), k);
    assert forall i :: 0 <= i < |rest| ==> rest[i] in lanes;
    CardsOutsideLaneUnique(cards, lanes[k].id);
    forall i | 0 <= i < |kept| ensures kept[i].laneId in LaneIds(rest) {
      assert kept[i] in cards;
    }
    KeptItems(items, CardIds(kept), users);
  }

  lemma NoDuplicatesCons<T>(x: T, ys: seq<T>)
    requires x !in ys && NoDuplicates(ys)
    ensures NoDuplicates([x] + ys)
  {
  }

  class Database {
    var boards: set<Id>
    var lanes: seq<Lane>
    var cards: seq<Card>
    var items: seq<ChecklistItem>
    var users: seq<User>

    ghost predicate Valid()
      reads this
    {
      Consistent(boards, lanes, cards, items, users)
    }

    /** A store with the given boards and users and no lanes, cards or items. */
    constructor (boards: set<Id>, users: seq<User>)
      requires NoDuplicates(UserIds(users)) && NoDuplicates(LineUserIds(users))
      ensures Valid()
      ensures this.boards == boards && this.users == users
      ensures lanes == [] && cards == [] && items == []
    {
      this.boards := boards;
      this.users := users;
      lanes := [];
      cards := [];
      items := [];
    }

    /** `card.findFirst({ where: { laneId }, orderBy: { order: "desc" } })`, returning its order. */
    method LastCardOrder(lane: Id) returns (r: Option<int>)
      ensures r == MaxOrder(CardSlots(cards), lane)
    {
      r := LastOrder(CardSlots(cards), lane);
    }

    /** `lane.findFirst({ where: { boardId }, orderBy: { order: "desc" } })`, returning its order. */
    method LastLaneOrder(board: Id) returns (r: Option<int>)
      ensures r == MaxOrder(LaneSlots(lanes), board)
    {
      r := LastOrder(LaneSlots(lanes), board);
    }

    /** `card.updateMany({ where: { laneId: lane, order: <lo..hi> }, data: { order: { increment: delta } } })` */
    method ShiftCards(lane: Id, lo: int, hi: Option<int>, delta: int)
      requires Valid()
      modifies this
      ensures Valid()
      ensures |cards| == |old(cards)|
      ensures forall i :: 0 <= i < |cards| ==> cards[i] == ShiftCard(old(cards)[i], lane, lo, hi, delta)
      ensures boards == old(boards) && lanes == old(lanes) && items == old(items) && users == old(users)
    {
      var k := 0;
      while k < |cards|
        invariant 0 <= k <= |cards| == |old(cards)|
        invariant forall i :: 0 <= i < k ==> cards[i] == ShiftCard(old(cards)[i], lane, lo, hi, delta)
        invariant forall i :: k <= i < |cards| ==> cards[i] == old(cards)[i]
        invariant boards == old(boards) && lanes == old(lanes) && items == old(items) && users == old(users)
      {
        cards := cards[k := ShiftCard(cards[k], lane, lo, hi, delta)];
        k := k + 1;
      }
      assert CardIds(cards) == CardIds(old(cards));
    }

    /** `card.create`: appends a row. */
    method InsertCard(c: Card)
      requires Valid() && c.id !in CardIds(cards) && c.laneId in LaneIds(lanes)
      modifies this
      ensures Valid()
      ensures cards == old(cards) + [c]
      ensures boards == old(boards) && lanes == old(lanes) && items == old(items) && users == old(users)
    {
      assert CardIds(cards + [c]) == CardIds(cards) + [c.id];
      cards := cards + [c];
    }

    /** `card.update`: replaces row k, keeping its id. */
    method UpdateCard(k: nat, c: Card)
      requires Valid() && k < |cards| && c.id == cards[k].id && c.laneId in LaneIds(lanes)
      modifies this
      ensures Valid()
      ensures cards == old(cards)[k := c]
      ensures boards == old(boards) && lanes == old(lanes) && items == old(items) && users == old(users)
    {
      assert CardIds(cards[k := c]) == CardIds(cards);
      cards := cards[k := c];
    }

    /** `card.delete`: removes row k and, by cascade, its checklist items. */
    method DeleteCard(k: nat)
      requires Valid() && k < |cards|
      modifies this
      ensures Valid()
      ensures cards == RemoveAt(old(cards), k)
      ensures forall x :: x in items <==> x in old(items) && x.cardId != old(cards[k].id)
      ensures boards == old(boards) && lanes == old(lanes) && users == old(users)
    {
      RemoveCardConsistent(boards, lanes, cards, items, users, k);
      var rest := cards[..k] + cards[k + 1..];
      items := ItemsOfCards(items, CardIds(rest));
      cards := rest;
    }

    /** `lane.create`: appends a row. */
    method InsertLane(l: Lane)
      requires Valid() && l.id !in LaneIds(lanes) && l.boardId in boards
      modifies this
      ensures Valid()
      ensures lanes == old(lanes) + [l]
      ensures boards == old(boards) && cards == old(cards) && items == old(items) && users == old(users)
    {
      assert LaneIds(lanes + [l]) == LaneIds(lanes) + [l.id];
      lanes := lanes + [l];
    }

    /** `lane.update`: replaces row k, keeping its id and board. */
    method UpdateLane(k: nat, l: Lane)
      requires Valid() && k < |lanes| && l.id == lanes[k].id && l.boardId == lanes[k].boardId
      modifies this
      ensures Valid()
      ensures lanes == old(lanes)[k := l]
      ensures boards == old(boards) && cards == old(cards) && items == old(items) && users == old(users)
    {
      assert LaneIds(lanes[k := l]) == LaneIds(lanes);
      lanes := lanes[k := l];
    }

    /** `lane.delete`: removes row k and, by cascade, its cards and their checklist items. */
    method DeleteLane(k: nat)
      requires Valid() && k < |lanes|
      modifies this
      ensures Valid()
      ensures lanes == RemoveAt(old(lanes), k)
      ensures forall c :: c in cards <==> c in old(cards) && c.laneId != old(lanes[k].id)
      ensures forall x :: x in items <==> x in old(items) && x.cardId in CardIds(cards)
      ensures boards == old(boards) && users == old(users)
    {
      RemoveLaneConsistent(boards, lanes, cards, items, users, k);
      var keptCards := CardsOutsideLane(cards, lanes[k].id);
      items := ItemsOfCards(items, CardIds(keptCards));
      cards := keptCards;
      lanes := lanes[..k] + lanes[k + 1..];
    }

    /** `checklistItem.create`: appends a row. */
    method InsertItem(x: ChecklistItem)
      requires Valid() && x.id !in ItemIds(items) && x.cardId in CardIds(cards)
      requires x.assignedToUserId.Some? ==> x.assignedToUserId.value in UserIds(users)
      modifies this
      ensures Valid()
      ensures items == old(items) + [x]
      ensures boards == old(boards) && lanes == old(lanes) && cards == old(cards) && users == old(users)
    {
      assert ItemIds(items + [x]) == ItemIds(items) + [x.id];
      items := items + [x];
    }

    /** `checklistItem.update`: replaces row k, keeping its id and card. */
    method UpdateItem(k: nat, x: ChecklistItem)
      requires Valid() && k < |items| && x.id == items[k].id && x.cardId == items[k].cardId
      requires x.assignedToUserId.Some? ==> x.assignedToUserId.value in UserIds(users)
      modifies this
      ensures Valid()
      ensures items == old(items)[k := x]
      ensures boards == old(boards) && lanes == old(lanes) && cards == old(cards) && users == old(users)
    {
      assert ItemIds(items[k := x]) == ItemIds(items);
      items := items[k := x];
    }

    /** `checklistItem.delete`: removes row k. */
    method DeleteItem(k: nat)
      requires Valid() && k < |items|
      modifies this
      ensures Valid()
      ensures items == RemoveAt(old(items), k)
      ensures boards == old(boards) && lanes == old(lanes) && cards == old(cards) && users == old(users)
    {
      var rest := items[..k] + items[k + 1..];
      assert forall i :: 0 <= i < |rest| ==> rest[i] == items[if i < k then i else i + 1];
      assert NoDuplicates(ItemIds(rest));
      items := rest;
    }
  }
}
