/** The board's drag handlers: `handleDragStart` picks the dragged card for the
    overlay, and `handleDragEnd` turns a drop into at most one card-move request
    `{ id, laneId, order }` for the card PUT. The board snapshot is the one the
    board component holds (lanes in display order, each with its cards). */
module KanbanBoard {
  import opened Common
  import opened Ordering
  import opened Store
  import CardsRoute

  /** A card of the snapshot, as far as the drag handlers look at it. */
  datatype BoardCard = BoardCard(id: Id, order: int)

  datatype BoardLane = BoardLane(id: Id, cards: seq<BoardCard>)

  /** The body of the PUT the drop sends. */
  datatype MoveRequest = MoveRequest(id: Id, laneId: Id, order: int)

  /** A card found in the snapshot, with the lane holding it. */
  datatype Hit = Hit(lane: BoardLane, card: BoardCard)

  // ---------------------------------------------------------------------------
  // lookups

  /** `cards.find((c) => c.id === id)`: the first card with that id. */
  function FindCard(cs: seq<BoardCard>, id: Id): (r: Option<BoardCard>)
    ensures r.None? <==> forall i :: 0 <= i < |cs| ==> cs[i].id != id
    ensures r.Some? ==> exists i :: 0 <= i < |cs| && cs[i] == r.value && r.value.id == id
                                  && forall j :: 0 <= j < i ==> cs[j].id != id
  {
    if cs == [] then None
    else if cs[0].id == id then Some(cs[0])
    else
      var r := FindCard(cs[1..], id);
      assert forall i :: 1 <= i < |cs| ==> cs[i] == cs[1..][i - 1];
      r
  }

  /** `lanes.find((l) => l.id === id)`: the first lane with that id. */
  function FindLane(lanes: seq<BoardLane>, id: Id): (r: Option<BoardLane>)
    ensures r.None? <==> forall i :: 0 <= i < |lanes| ==> lanes[i].id != id
    ensures r.Some? ==> r.value in lanes && r.value.id == id
  {
    if lanes == [] then None
    else if lanes[0].id == id then Some(lanes[0])
    else
      assert forall i :: 1 <= i < |lanes| ==> lanes[i] == lanes[1..][i - 1];
      FindLane(lanes[1..], id)
  }

  /** What the `forEach` over the lanes leaves in its two locals: the card with
      that id and its lane, from the LAST lane holding such a card (each holding
      lane overwrites the previous one). */
  function Holder(lanes: seq<BoardLane>, id: Id): Option<Hit>
  {
    if lanes == [] then None
    else
      var c := FindCard(lanes[|lanes| - 1].cards, id);
      if c.Some? then Some(Hit(lanes[|lanes| - 1], c.value)) else Holder(lanes[..|lanes| - 1], id)
  }

  /** No hit exactly when no lane holds a card with that id. */
  lemma {:induction false} HolderNone(lanes: seq<BoardLane>, id: Id)
    ensures Holder(lanes, id).None? <==> forall i :: 0 <= i < |lanes| ==> FindCard(lanes[i].cards, id).None?
  {
    if lanes != [] {
      var init := lanes[..|lanes| - 1];
      HolderNone(init, id);
      assert forall i :: 0 <= i < |init| ==> init[i] == lanes[i];
    }
  }

  /** A hit is the card with that id in the last lane holding one. */
  lemma {:induction false} HolderIndex(lanes: seq<BoardLane>, id: Id) returns (i: nat)
    requires Holder(lanes, id).Some?
    ensures i < |lanes| && lanes[i] == Holder(lanes, id).value.lane
    ensures FindCard(lanes[i].cards, id) == Some(Holder(lanes, id).value.card)
    ensures forall j :: i < j < |lanes| ==> FindCard(lanes[j].cards, id).None?
  {
    var init := lanes[..|lanes| - 1];
    if FindCard(lanes[|lanes| - 1].cards, id).Some? {
      i := |lanes| - 1;
    } else {
      i := HolderIndex(init, id);
      assert lanes[i] == init[i];
      forall j | i < j < |lanes| ensures FindCard(lanes[j].cards, id).None? {
        if j < |lanes| - 1 {
          assert lanes[j] == init[j];
        }
      }
    }
  }

  lemma HolderStep(lanes: seq<BoardLane>, i: nat, id: Id)
    requires i < |lanes|
    ensures Holder(lanes[..i + 1], id)
         == if FindCard(lanes[i].cards, id).Some? then Some(Hit(lanes[i], FindCard(lanes[i].cards, id).value))
            else Holder(lanes[..i], id)
  {
    assert lanes[..i + 1][..i] == lanes[..i];
  }

  /** The `forEach` over the lanes that remembers the last lane holding a card
      with that id. */
  method FindHolder(lanes: seq<BoardLane>, id: Id) returns (hit: Option<Hit>)
    ensures hit == Holder(lanes, id)
  {
    hit := None;
    var i := 0;
    while i < |lanes|
      invariant 0 <= i <= |lanes|
      invariant hit == Holder(lanes[..i], id)
    {
      HolderStep(lanes, i, id);
      var card := FindCard(lanes[i].cards, id);
      if card.Some? {
        hit := Some(Hit(lanes[i], card.value));
      }
      i := i + 1;
    }
    assert lanes[..i] == lanes;
  }

  // ---------------------------------------------------------------------------
  // handleDragStart

  /** `lanes.flatMap((lane) => lane.cards)`. */
  function AllCards(lanes: seq<BoardLane>): seq<BoardCard>
  {
    if lanes == [] then [] else AllCards(lanes[..|lanes| - 1]) + lanes[|lanes| - 1].cards
  }

  /** The card the overlay shows while dragging `activeId` (`card || null`). */
  function DragStart(lanes: seq<BoardLane>, activeId: Id): Option<BoardCard>
  {
    FindCard(AllCards(lanes), activeId)
  }

  function CardIdsOf(cs: seq<BoardCard>): (r: seq<Id>)
    ensures |r| == |cs| && forall i :: 0 <= i < |cs| ==> r[i] == cs[i].id
  {
    seq(|cs|, i requires 0 <= i < |cs| => cs[i].id)
  }

  lemma {:induction false} FindCardConcat(a: seq<BoardCard>, b: seq<BoardCard>, id: Id)
    ensures FindCard(a + b, id) == if FindCard(a, id).Some? then FindCard(a, id) else FindCard(b, id)
  {
    if a != [] {
      var ab := a + b;
      assert ab[0] == a[0];
      if a[0].id != id {
        assert ab[1..] == a[1..] + b;
        assert FindCard(ab, id) == FindCard(a[1..] + b, id) by {
          assert ab != [] && ab[0].id != id;
        }
        FindCardConcat(a[1..], b, id);
      }
    } else {
      assert a + b == b;
    }
  }

  /** On a board whose card ids are unique, the overlay card is the card the drop
      handler finds: the first-match search over all cards and the last-lane-wins
      search agree. */
  lemma {:induction false} DragStartAgreesWithDragEnd(lanes: seq<BoardLane>, activeId: Id)
    requires NoDuplicates(CardIdsOf(AllCards(lanes)))
    ensures DragStart(lanes, activeId).Some? <==> Holder(lanes, activeId).Some?
    ensures Holder(lanes, activeId).Some? ==> DragStart(lanes, activeId) == Some(Holder(lanes, activeId).value.card)
  {
    if lanes != [] {
      var init := lanes[..|lanes| - 1];
      var last := lanes[|lanes| - 1];
      assert AllCards(lanes) == AllCards(init) + last.cards;
      var a := AllCards(init);
      SplitIdsUnique(a, last.cards);
      DragStartAgreesWithDragEnd(init, activeId);
      FindCardConcat(a, last.cards, activeId);
    }
  }

  /** Unique ids in `a + b`: unique in `a`, and no id of `a` in `b`. */
  lemma SplitIdsUnique(a: seq<BoardCard>, b: seq<BoardCard>)
    requires NoDuplicates(CardIdsOf(a + b))
    ensures NoDuplicates(CardIdsOf(a))
    ensures forall i, j :: 0 <= i < |a| && 0 <= j < |b| ==> a[i].id != b[j].id
  {
    var ab := a + b;
    forall i, j | 0 <= i < j < |a| ensures CardIdsOf(a)[i] != CardIdsOf(a)[j] {
      assert CardIdsOf(ab)[i] == a[i].id && CardIdsOf(ab)[j] == a[j].id;
    }
    forall i, j | 0 <= i < |a| && 0 <= j < |b| ensures a[i].id != b[j].id {
      assert CardIdsOf(ab)[i] == a[i].id && CardIdsOf(ab)[|a| + j] == b[j].id;
    }
  }

  // ---------------------------------------------------------------------------
  // handleDragEnd

  /** The lane a drop on `over` targets: the lane holding a card with that id, or
      else the first lane with that id. */
  function TargetLane(lanes: seq<BoardLane>, over: Id): Option<BoardLane>
  {
    match Holder(lanes, over)
    case Some(h) => Some(h.lane)
    case None => FindLane(lanes, over)
  }

  /** `targetCard ? targetCard.order : targetLane.cards.length`. */
  function DropOrder(lanes: seq<BoardLane>, over: Id, target: BoardLane): int
  {
    match Holder(lanes, over)
    case Some(h) => h.card.order
    case None => |target.cards|
  }

  /** The no-op guard and the request body. */
  function Request(activeId: Id, source: Hit, target: BoardLane, order: int): Option<MoveRequest>
  {
    if source.lane.id == target.id && source.card.order == order then None
    else Some(MoveRequest(activeId, target.id, order))
  }

  /** The request `handleDragEnd` sends for a drop of `activeId` on `over`
      (`None` for `over === null`). */
  function DragEnd(lanes: seq<BoardLane>, activeId: Id, over: Option<Id>): Option<MoveRequest>
  {
    if over.None? || activeId == over.value then None
    else match Holder(lanes, activeId)
      case None => None
      case Some(source) =>
        match TargetLane(lanes, over.value)
        case None => None
        case Some(target) => Request(activeId, source, target, DropOrder(lanes, over.value, target))
  }

  method HandleDragEnd(lanes: seq<BoardLane>, activeId: Id, over: Option<Id>) returns (request: Option<MoveRequest>)
    ensures request == DragEnd(lanes, activeId, over)
  {
    if over.None? || activeId == over.value {
      return None;
    }
    var overId := over.value;

    var source := FindHolder(lanes, activeId);
    if source.None? {
      return None;
    }
    var targetCard := FindHolder(lanes, overId);

    var targetLane: Option<BoardLane>;
    if targetCard.Some? {
      targetLane := Some(targetCard.value.lane);
    } else {
      targetLane := FindLane(lanes, overId);
    }
    if targetLane.None? {
      return None;
    }

    var newOrder := if targetCard.Some? then targetCard.value.card.order else |targetLane.value.cards|;
    if source.value.lane.id == targetLane.value.id && source.value.card.order == newOrder {
      return None;
    }
    request := Some(MoveRequest(activeId, targetLane.value.id, newOrder));
  }

  /** No request without a drop target or for a drop on the card itself, none for
      an id that is no card of the board, and none for a target that is neither a
      card nor a lane. */
  lemma DragEndIgnores(lanes: seq<BoardLane>, activeId: Id, over: Option<Id>)
    ensures over.None? || over == Some(activeId) ==> DragEnd(lanes, activeId, over).None?
    ensures (forall i, j :: 0 <= i < |lanes| && 0 <= j < |lanes[i].cards| ==> lanes[i].cards[j].id != activeId)
            ==> DragEnd(lanes, activeId, over).None?
    ensures over.Some?
            && (forall i, j :: 0 <= i < |lanes| && 0 <= j < |lanes[i].cards| ==> lanes[i].cards[j].id != over.value)
            && (forall i :: 0 <= i < |lanes| ==> lanes[i].id != over.value)
            ==> DragEnd(lanes, activeId, over).None?
  {
    HolderNone(lanes, activeId);
    if over.Some? {
      HolderNone(lanes, over.value);
    }
  }

  /** A drop on a card targets that card's lane at that card's order, unless that
      is where the dragged card already is. */
  lemma DropOnCard(lanes: seq<BoardLane>, activeId: Id, over: Id)
    requires over != activeId && Holder(lanes, activeId).Some? && Holder(lanes, over).Some?
    ensures var source := Holder(lanes, activeId).value;
      var target := Holder(lanes, over).value;
      DragEnd(lanes, activeId, Some(over))
        == if source.lane.id == target.lane.id && source.card.order == target.card.order then None
           else Some(MoveRequest(activeId, target.lane.id, target.card.order))
  {
  }

  /** A drop on a lane that holds no card with the drop id appends: the order sent
      is that lane's current card count, unless that equals the dragged card's
      order in its own lane. */
  lemma DropOnLane(lanes: seq<BoardLane>, activeId: Id, over: Id, k: nat)
    requires over != activeId && Holder(lanes, activeId).Some?
    requires forall i, j :: 0 <= i < |lanes| && 0 <= j < |lanes[i].cards| ==> lanes[i].cards[j].id != over
    requires k < |lanes| && lanes[k].id == over && forall i :: 0 <= i < k ==> lanes[i].id != over
    ensures var source := Holder(lanes, activeId).value;
      DragEnd(lanes, activeId, Some(over))
        == if source.lane.id == over && source.card.order == |lanes[k].cards| then None
           else Some(MoveRequest(activeId, over, |lanes[k].cards|))
  {
    HolderNone(lanes, over);
    FindLaneFirst(lanes, over, k);
  }

  lemma {:induction false} FindLaneFirst(lanes: seq<BoardLane>, id: Id, k: nat)
    requires k < |lanes| && lanes[k].id == id && forall i :: 0 <= i < k ==> lanes[i].id != id
    ensures FindLane(lanes, id) == Some(lanes[k])
  {
    if k > 0 {
      FindLaneFirst(lanes[1..], id, k - 1);
    }
  }

  /** Every request moves the dragged card to a lane of the board, at the order of
      the card it was dropped on or at the end of the lane it was dropped on, and
      never to the place it already holds. */
  lemma RequestContents(lanes: seq<BoardLane>, activeId: Id, over: Option<Id>)
    requires DragEnd(lanes, activeId, over).Some?
    ensures var r := DragEnd(lanes, activeId, over).value;
      var source := Holder(lanes, activeId).value;
      && r.id == activeId
      && over.Some? && over.value != activeId
      && Holder(lanes, activeId).Some?
      && (exists i :: 0 <= i < |lanes| && lanes[i].id == r.laneId)
      && !(source.lane.id == r.laneId && source.card.order == r.order)
      && (match Holder(lanes, over.value)
          case Some(h) => r.laneId == h.lane.id && r.order == h.card.order && h.card.id == over.value
          case None => r.laneId == over.value && FindLane(lanes, over.value).Some?
                       && r.order == |FindLane(lanes, over.value).value.cards|)
  {
    var o := over.value;
    var t := TargetLane(lanes, o).value;
    if Holder(lanes, o).Some? {
      var i := HolderIndex(lanes, o);
    } else {
      var i :| 0 <= i < |lanes| && lanes[i] == t;
    }
  }

  // ---------------------------------------------------------------------------
  // the request against the store

  /** The PUT body of a request, as the card route parses it. */
  function MovePatch(r: MoveRequest): (p: CardsRoute.CardPatch)
    ensures p.id == Some(r.id) && p.laneId == Some(r.laneId) && p.order == Some(r.order)
    ensures p.title.None? && p.description.None? && p.priority.None?
  {
    CardsRoute.CardPatch(Some(r.id), None, None, None, Some(r.laneId), Some(r.order))
  }

  /** The snapshot shows the store: every board lane exists in the store with as
      many cards as the store places in it, and every board card is a stored card
      of that lane with the same order. */
  ghost predicate Mirrors(board: seq<BoardLane>, storeLanes: seq<Lane>, cs: seq<Card>)
  {
    forall i :: 0 <= i < |board| ==>
      && board[i].id in LaneIds(storeLanes)
      && |board[i].cards| == Count(CardSlots(cs), board[i].id)
      && forall m :: 0 <= m < |board[i].cards| ==>
           exists k :: 0 <= k < |cs| && cs[k].id == board[i].cards[m].id
                    && cs[k].laneId == board[i].id && cs[k].order == board[i].cards[m].order
  }

  /** Every lane the snapshot shows is densely ordered in the store. */
  ghost predicate LanesDense(board: seq<BoardLane>, cs: seq<Card>)
  {
    forall i :: 0 <= i < |board| ==> Dense(CardSlots(cs), board[i].id)
  }

  /** The stored card a board card of `lane` mirrors. */
  lemma StoredCard(board: seq<BoardLane>, storeLanes: seq<Lane>, cs: seq<Card>, lane: BoardLane, c: BoardCard)
    returns (k: nat)
    requires Mirrors(board, storeLanes, cs) && lane in board && c in lane.cards
    ensures k < |cs| && cs[k].id == c.id && cs[k].laneId == lane.id && cs[k].order == c.order
  {
    var i :| 0 <= i < |board| && board[i] == lane;
    var m :| 0 <= m < |lane.cards| && lane.cards[m] == c;
    k :| 0 <= k < |cs| && cs[k].id == board[i].cards[m].id
         && cs[k].laneId == board[i].id && cs[k].order == board[i].cards[m].order;
  }

  lemma HitInBoard(lanes: seq<BoardLane>, id: Id)
    requires Holder(lanes, id).Some?
    ensures Holder(lanes, id).value.lane in lanes
    ensures Holder(lanes, id).value.card in Holder(lanes, id).value.lane.cards
    ensures Holder(lanes, id).value.card.id == id
  {
    var i := HolderIndex(lanes, id);
  }

  /** `handleDragEnd` with the evidently intended order for a drop on the card's
      own lane: the last position, n - 1, instead of n. */
  function DragEndCorrected(lanes: seq<BoardLane>, activeId: Id, over: Option<Id>): Option<MoveRequest>
  {
    if over.None? || activeId == over.value then None
    else match Holder(lanes, activeId)
      case None => None
      case Some(source) =>
        match TargetLane(lanes, over.value)
        case None => None
        case Some(target) =>
          var order := if Holder(lanes, over.value).None? && target.id == source.lane.id
                       then |target.cards| - 1
                       else DropOrder(lanes, over.value, target);
          Request(activeId, source, target, order)
  }

  /** The corrected handler differs from the one as written only on a drop on the
      dragged card's own lane. */
  lemma CorrectedDiffersOnlyOnOwnLane(lanes: seq<BoardLane>, activeId: Id, over: Id)
    requires !(Holder(lanes, over).None? && Holder(lanes, activeId).Some?
               && FindLane(lanes, over).Some? && FindLane(lanes, over).value.id == Holder(lanes, activeId).value.lane.id)
    ensures DragEndCorrected(lanes, activeId, Some(over)) == DragEnd(lanes, activeId, Some(over))
  {
  }

  /** Any request of the corrected handler, sent to the card PUT against a store
      the snapshot mirrors, succeeds and leaves the source and the target lane
      densely ordered. */
  lemma CorrectedMoveKeepsDense(board: seq<BoardLane>, storeLanes: seq<Lane>, cs: seq<Card>, activeId: Id, over: Option<Id>)
    requires Mirrors(board, storeLanes, cs) && LanesDense(board, cs)
    requires NoDuplicates(CardIds(cs)) && activeId != ""
    requires DragEndCorrected(board, activeId, over).Some?
    ensures var r := DragEndCorrected(board, activeId, over).value;
      var after := CardsRoute.PutSpec(true, storeLanes, cs, MovePatch(r));
      && Holder(board, activeId).Some?
      && after.status == 200
      && Dense(CardSlots(after.cards), Holder(board, activeId).value.lane.id)
      && Dense(CardSlots(after.cards), r.laneId)
  {
    var r := DragEndCorrected(board, activeId, over).value;
    var o := over.value;
    var source := Holder(board, activeId).value;
    var target := TargetLane(board, o).value;
    HitInBoard(board, activeId);
    var k := StoredCard(board, storeLanes, cs, source.lane, source.card);
    var s := CardSlots(cs);
    assert s[k] == Slot(source.lane.id, source.card.order) && Dense(s, source.lane.id) by {
      var si :| 0 <= si < |board| && board[si] == source.lane;
    }
    assert r.laneId == target.id && target in board by {
      if Holder(board, o).Some? {
        HitInBoard(board, o);
      }
    }
    assert Dense(s, r.laneId) && r.laneId in LaneIds(storeLanes) by {
      var ti :| 0 <= ti < |board| && board[ti] == target;
    }
    if Holder(board, o).Some? {
      assert 0 <= r.order < Count(s, r.laneId) by {
        HitInBoard(board, o);
        var h := Holder(board, o).value;
        var j := StoredCard(board, storeLanes, cs, h.lane, h.card);
        assert s[j] == Slot(h.lane.id, h.card.order);
      }
    } else {
      assert |target.cards| == Count(s, target.id) by {
        var ti :| 0 <= ti < |board| && board[ti] == target;
      }
      if target.id == source.lane.id {
        assert 0 <= source.card.order < Count(s, source.lane.id);
      }
    }
    CardsRoute.PutKeepsDense(storeLanes, cs, k, MovePatch(r));
  }

  /** As written, dropping a card on its own lane (not on a card) requests order n
      for a lane of n cards; the card PUT then leaves that lane not densely ordered. */
  lemma OwnLaneDropBreaksDense(board: seq<BoardLane>, storeLanes: seq<Lane>, cs: seq<Card>, activeId: Id, over: Id)
    requires Mirrors(board, storeLanes, cs) && LanesDense(board, cs)
    requires NoDuplicates(CardIds(cs)) && activeId != "" && over != activeId
    requires Holder(board, activeId).Some? && Holder(board, activeId).value.lane.id == over
    requires Holder(board, over).None?
    ensures var n := Count(CardSlots(cs), over);
      && DragEnd(board, activeId, Some(over)) == Some(MoveRequest(activeId, over, n))
      && CardsRoute.PutSpec(true, storeLanes, cs, MovePatch(MoveRequest(activeId, over, n))).status == 200
      && !Dense(CardSlots(CardsRoute.PutSpec(true, storeLanes, cs, MovePatch(MoveRequest(activeId, over, n))).cards), over)
  {
    var source := Holder(board, activeId).value;
    HitInBoard(board, activeId);
    var k := StoredCard(board, storeLanes, cs, source.lane, source.card);
    var s := CardSlots(cs);
    var n := Count(s, over);
    assert s[k] == Slot(over, source.card.order) && source.card.order < n && over in LaneIds(storeLanes) by {
      var si :| 0 <= si < |board| && board[si] == source.lane;
      assert Dense(s, over);
    }
    assert DragEnd(board, activeId, Some(over)) == Some(MoveRequest(activeId, over, n)) by {
      var target := FindLane(board, over).value;
      var ti :| 0 <= ti < |board| && board[ti] == target;
      assert |target.cards| == n;
    }
    var p := MovePatch(MoveRequest(activeId, over, n));
    CardsRoute.PutIsMove(storeLanes, cs, k, p);
    MoveWithinToSizeBreaksDense(s, k);
  }
}
