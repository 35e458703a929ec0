/** The lane endpoints: POST creates a lane at the end of its board, PUT writes
    a new title and/or order with no reordering of the other lanes, DELETE
    removes a lane together with its cards and their checklist items. */
module LanesRoute {
  import opened Common
  import opened Ordering
  import opened Store

  // ---------------------------------------------------------------------------
  // POST /api/lanes

  /** The order a new lane receives on board `boardId`: the board's highest order plus one, or 0. */
  function AppendOrder(ls: seq<Lane>, boardId: Id): int
  {
    NextOrder(MaxOrder(LaneSlots(ls), boardId))
  }

  method Post(db: Database, authenticated: bool, boardId: Option<string>, title: Option<string>, newId: Id)
    returns (status: nat, lane: Option<Lane>)
    requires db.Valid() && newId !in LaneIds(db.lanes)
    modifies db
    ensures db.Valid()
    ensures !authenticated ==> status == 500
    ensures authenticated && !(Truthy(boardId) && Truthy(title)) ==> status == 400
    ensures authenticated && Truthy(boardId) && Truthy(title) && boardId.value !in old(db.boards) ==> status == 500
    ensures status == 201 <==> authenticated && Truthy(boardId) && Truthy(title) && boardId.value in old(db.boards)
    ensures status != 201 ==> lane.None? && db.lanes == old(db.lanes)
    ensures status == 201 ==>
      && lane == Some(Lane(newId, boardId.value, title.value, AppendOrder(old(db.lanes), boardId.value)))
      && db.lanes == old(db.lanes) + [lane.value]
    ensures db.boards == old(db.boards) && db.cards == old(db.cards) && db.items == old(db.items) && db.users == old(db.users)
  {
    if !authenticated {
      return 500, None;
    }
    if !Truthy(boardId) || !Truthy(title) {
      return 400, None;
    }
    var last := db.LastLaneOrder(boardId.value);
    var order := if last.Some? then last.value + 1 else 0;
    if boardId.value !in db.boards {
      // the foreign key on boardId rejects the insert
      return 500, None;
    }
    var l := Lane(newId, boardId.value, title.value, order);
    db.InsertLane(l);
    return 201, Some(l);
  }

  /** A new lane placed at max + 1 (or 0) on a dense board takes order n, the
      board's lane count, and the board stays dense; other boards keep their density. */
  lemma CreateKeepsDense(ls: seq<Lane>, l: Lane, other: Id)
    requires Dense(LaneSlots(ls), l.boardId) && l.order == AppendOrder(ls, l.boardId)
    ensures l.order == Count(LaneSlots(ls), l.boardId)
    ensures Dense(LaneSlots(ls + [l]), l.boardId)
    ensures other != l.boardId ==> (Dense(LaneSlots(ls + [l]), other) <==> Dense(LaneSlots(ls), other))
  {
    NextOrderOfDense(LaneSlots(ls), l.boardId);
    assert LaneSlots(ls + [l]) == LaneSlots(ls) + [Slot(l.boardId, Count(LaneSlots(ls), l.boardId))];
    AppendKeepsDense(LaneSlots(ls), l.boardId, other);
  }

  // ---------------------------------------------------------------------------
  // PUT /api/lanes

  /** The JSON body of a PUT; `None` is an absent field. */
  datatype LanePatch = LanePatch(id: Option<string>, title: Option<string>, order: Option<int>)

  /** The lane after a successful PUT: supplied fields are written, board and id stay. */
  function PatchedLane(cur: Lane, p: LanePatch): (l: Lane)
    ensures l.id == cur.id && l.boardId == cur.boardId
    ensures l.title == (if p.title.Some? then p.title.value else cur.title)
    ensures l.order == (if p.order.Some? then p.order.value else cur.order)
  {
    cur.(title := if p.title.Some? then p.title.value else cur.title,
         order := if p.order.Some? then p.order.value else cur.order)
  }

  datatype Outcome = Outcome(status: nat, lanes: seq<Lane>)

  /** Status and lane table after a PUT: `lane.update` on a missing id throws, so
      an unknown id is a 500, not a 404. */
  function PutSpec(authenticated: bool, ls: seq<Lane>, p: LanePatch): Outcome
  {
    if !authenticated then Outcome(500, ls)
    else if !Truthy(p.id) then Outcome(400, ls)
    else match IndexOf(LaneIds(ls), p.id.value)
      case None => Outcome(500, ls)
      case Some(k) => Outcome(200, ls[k := PatchedLane(ls[k], p)])
  }

  method Put(db: Database, authenticated: bool, p: LanePatch) returns (status: nat)
    requires db.Valid()
    modifies db
    ensures db.Valid()
    ensures Outcome(status, db.lanes) == PutSpec(authenticated, old(db.lanes), p)
    ensures db.boards == old(db.boards) && db.cards == old(db.cards) && db.items == old(db.items) && db.users == old(db.users)
  {
    if !authenticated {
      return 500;
    }
    if !Truthy(p.id) {
      return 400;
    }
    var found := IndexOf(LaneIds(db.lanes), p.id.value);
    if found.None? {
      return 500;
    }
    db.UpdateLane(found.value, PatchedLane(db.lanes[found.value], p));
    return 200;
  }

  /** A successful PUT changes exactly the addressed lane: every other lane keeps
      its record, order included, and the addressed lane keeps its board. */
  lemma PutTouchesOnlyAddressedLane(ls: seq<Lane>, p: LanePatch, k: nat)
    requires NoDuplicates(LaneIds(ls)) && k < |ls| && p.id == Some(ls[k].id) && ls[k].id != ""
    ensures PutSpec(true, ls, p).status == 200
    ensures |PutSpec(true, ls, p).lanes| == |ls|
    ensures forall i :: 0 <= i < |ls| && i != k ==> PutSpec(true, ls, p).lanes[i] == ls[i]
    ensures PutSpec(true, ls, p).lanes[k] == PatchedLane(ls[k], p)
  {
    IndexOfUnique(LaneIds(ls), k);
  }

  /** Because the order is written directly, a PUT of a lane of a dense board
      leaves the board dense exactly when it keeps the lane's order. */
  lemma PutKeepsDenseOnlyIfOrderUnchanged(ls: seq<Lane>, p: LanePatch, k: nat)
    requires NoDuplicates(LaneIds(ls)) && k < |ls| && p.id == Some(ls[k].id) && ls[k].id != ""
    requires Dense(LaneSlots(ls), ls[k].boardId)
    ensures Dense(LaneSlots(PutSpec(true, ls, p).lanes), ls[k].boardId)
        <==> (p.order.None? || p.order.value == ls[k].order)
  {
    IndexOfUnique(LaneIds(ls), k);
    var s := LaneSlots(ls);
    var v := if p.order.Some? then p.order.value else ls[k].order;
    assert LaneSlots(PutSpec(true, ls, p).lanes) == s[k := Slot(s[k].scope, v)];
    RewriteOrderKeepsDenseOnlyIfUnchanged(s, k, v);
  }

  // ---------------------------------------------------------------------------
  // DELETE /api/lanes?id=

  method Delete(db: Database, authenticated: bool, id: Option<string>) returns (status: nat)
    requires db.Valid()
    modifies db
    ensures db.Valid()
    ensures !authenticated ==> status == 500
    ensures authenticated && !Truthy(id) ==> status == 400
    ensures authenticated && Truthy(id) && id.value !in LaneIds(old(db.lanes)) ==> status == 500
    ensures status == 200 <==> authenticated && Truthy(id) && id.value in LaneIds(old(db.lanes))
    ensures status != 200 ==> db.lanes == old(db.lanes) && db.cards == old(db.cards) && db.items == old(db.items)
    ensures status == 200 ==>
      var k := IndexOf(LaneIds(old(db.lanes)), id.value).value;
      && db.lanes == RemoveAt(old(db.lanes), k)
      && (forall c :: c in db.cards <==> c in old(db.cards) && c.laneId != id.value)
      && (forall x :: x in db.items <==> x in old(db.items) && x.cardId in CardIds(db.cards))
    ensures db.boards == old(db.boards) && db.users == old(db.users)
  {
    if !authenticated {
      return 500;
    }
    if !Truthy(id) {
      return 400;
    }
    var found := IndexOf(LaneIds(db.lanes), id.value);
    if found.None? {
      // `lane.delete` on a missing row throws
      return 500;
    }
    db.DeleteLane(found.value);
    return 200;
  }

  /** DELETE compacts nothing: the board stays dense exactly when the deleted
      lane held its highest order. */
  lemma DeleteKeepsDenseOnlyIfLast(ls: seq<Lane>, k: nat)
    requires k < |ls| && Dense(LaneSlots(ls), ls[k].boardId)
    ensures Dense(LaneSlots(RemoveAt(ls, k)), ls[k].boardId) <==> ls[k].order == Count(LaneSlots(ls), ls[k].boardId) - 1
  {
    assert LaneSlots(RemoveAt(ls, k)) == RemoveAt(LaneSlots(ls), k);
    RemoveKeepsDenseOnlyIfLast(LaneSlots(ls), k);
  }
}
