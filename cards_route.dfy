/** The card endpoints: POST creates a card at the end of its lane, PUT patches
    fields and runs the lane/order reorder protocol, DELETE removes a card.
    Every handler first calls `requireAuth()`; its exception lands in the
    handler's catch and becomes status 500, as do Prisma's exceptions (a missing
    row on update/delete, a foreign key that names no row). */
module CardsRoute {
  import opened Common
  import opened Ordering
  import opened Store

  // ---------------------------------------------------------------------------
  // POST /api/cards

  /** The row a successful POST inserts: description defaults to "" and priority
      to "MEDIUM" when absent or falsy. */
  function NewCard(id: Id, laneId: Id, title: string, description: Option<string>, priority: Option<string>, order: int): (c: Card)
    ensures c.id == id && c.laneId == laneId && c.title == title && c.order == order
    ensures c.description == (if Truthy(description) then description.value else "")
    ensures c.priority == (if Truthy(priority) then priority.value else "MEDIUM")
  {
    Card(id, laneId, title,
         if Truthy(description) then description.value else "",
         if Truthy(priority) then priority.value else "MEDIUM",
         order)
  }

  /** The order a new card receives in lane `laneId`: the lane's highest order plus one, or 0. */
  function AppendOrder(cs: seq<Card>, laneId: Id): int
  {
    NextOrder(MaxOrder(CardSlots(cs), laneId))
  }

  /** What a POST answers and what the card table becomes. */
  datatype Created = Created(status: nat, card: Option<Card>, cards: seq<Card>)

  /** Status, created card and card table after a POST on table `cs` with lanes
      `lanes`; `newId` is the id the database generates. */
  function PostSpec(authenticated: bool, lanes: seq<Lane>, cs: seq<Card>, laneId: Option<string>, title: Option<string>,
                    description: Option<string>, priority: Option<string>, newId: Id): Created
  {
    if !authenticated then Created(500, None, cs)
    else if !Truthy(laneId) || !Truthy(title) then Created(400, None, cs)
    else if laneId.value !in LaneIds(lanes) then Created(500, None, cs)
    else
      var c := NewCard(newId, laneId.value, title.value, description, priority, AppendOrder(cs, laneId.value));
      Created(201, Some(c), cs + [c])
  }

  method Post(db: Database, authenticated: bool, laneId: Option<string>, title: Option<string>,
              description: Option<string>, priority: Option<string>, newId: Id)
    returns (status: nat, card: Option<Card>)
    requires db.Valid() && newId !in CardIds(db.cards)
    modifies db
    ensures db.Valid()
    ensures Created(status, card, db.cards)
         == PostSpec(authenticated, old(db.lanes), old(db.cards), laneId, title, description, priority, newId)
    ensures db.boards == old(db.boards) && db.lanes == old(db.lanes) && db.items == old(db.items) && db.users == old(db.users)
  {
    if !authenticated {
      return 500, None;
    }
    if !Truthy(laneId) || !Truthy(title) {
      return 400, None;
    }
    var last := db.LastCardOrder(laneId.value);
    var order := if last.Some? then last.value + 1 else 0;
    if laneId.value !in LaneIds(db.lanes) {
      // the foreign key on laneId rejects the insert
      return 500, None;
    }
    assert order == AppendOrder(db.cards, laneId.value);
    var c := NewCard(newId, laneId.value, title.value, description, priority, order);
    db.InsertCard(c);
    return 201, Some(c);
  }

  /** A POST creates exactly when it is authenticated, names a lane that exists and
      carries a title; otherwise it answers 500 (no session, or the lane foreign
      key fails) or 400 (a field missing or falsy) and the table is unchanged. A
      created card is appended to the table. */
  lemma PostOutcomes(authenticated: bool, lanes: seq<Lane>, cs: seq<Card>, laneId: Option<string>, title: Option<string>,
                     description: Option<string>, priority: Option<string>, newId: Id)
    ensures var r := PostSpec(authenticated, lanes, cs, laneId, title, description, priority, newId);
      && (r.status == 201 <==> authenticated && Truthy(laneId) && Truthy(title) && laneId.value in LaneIds(lanes))
      && (!authenticated ==> r.status == 500)
      && (authenticated && !(Truthy(laneId) && Truthy(title)) ==> r.status == 400)
      && (authenticated && Truthy(laneId) && Truthy(title) && laneId.value !in LaneIds(lanes) ==> r.status == 500)
      && (r.status != 201 ==> r.card.None? && r.cards == cs)
      && (r.status == 201 ==> r.card.Some? && r.card.value.id == newId && r.card.value.laneId == laneId.value
                              && r.card.value.title == title.value && r.cards == cs + [r.card.value])
  {
  }

  /** A created card takes order n in its lane of n cards when that lane is dense,
      and the lane stays dense. */
  lemma PostKeepsDense(lanes: seq<Lane>, cs: seq<Card>, laneId: Option<string>, title: Option<string>,
                       description: Option<string>, priority: Option<string>, newId: Id)
    requires Truthy(laneId) && Dense(CardSlots(cs), laneId.value)
    requires PostSpec(true, lanes, cs, laneId, title, description, priority, newId).status == 201
    ensures var r := PostSpec(true, lanes, cs, laneId, title, description, priority, newId);
      r.card.value.order == Count(CardSlots(cs), laneId.value) && Dense(CardSlots(r.cards), laneId.value)
  {
    var r := PostSpec(true, lanes, cs, laneId, title, description, priority, newId);
    CreateKeepsDense(cs, r.card.value, laneId.value);
  }

  /** A new card placed at max + 1 (or 0) in a dense lane takes order n, the lane's
      size, and the lane stays dense; every other lane keeps its density. */
  lemma CreateKeepsDense(cs: seq<Card>, c: Card, other: Id)
    requires Dense(CardSlots(cs), c.laneId) && c.order == AppendOrder(cs, c.laneId)
    ensures c.order == Count(CardSlots(cs), c.laneId)
    ensures Dense(CardSlots(cs + [c]), c.laneId)
    ensures other != c.laneId ==> (Dense(CardSlots(cs + [c]), other) <==> Dense(CardSlots(cs), other))
  {
    NextOrderOfDense(CardSlots(cs), c.laneId);
    assert CardSlots(cs + [c]) == CardSlots(cs) + [Slot(c.laneId, Count(CardSlots(cs), c.laneId))];
    AppendKeepsDense(CardSlots(cs), c.laneId, other);
  }

  // ---------------------------------------------------------------------------
  // PUT /api/cards

  /** The JSON body of a PUT; `None` is an absent field. */
  datatype CardPatch = CardPatch(id: Option<string>, title: Option<string>, description: Option<string>,
                                 priority: Option<string>, laneId: Option<Id>, order: Option<int>)

  /** The moved card after a successful PUT: every supplied field is written. */
  function Patched(cur: Card, p: CardPatch): (c: Card)
    ensures c.id == cur.id
    ensures c.title == (if p.title.Some? then p.title.value else cur.title)
    ensures c.description == (if p.description.Some? then p.description.value else cur.description)
    ensures c.priority == (if p.priority.Some? then p.priority.value else cur.priority)
    ensures c.laneId == (if p.laneId.Some? then p.laneId.value else cur.laneId)
    ensures c.order == (if p.order.Some? then p.order.value else cur.order)
  {
    Card(cur.id,
         if p.laneId.Some? then p.laneId.value else cur.laneId,
         if p.title.Some? then p.title.value else cur.title,
         if p.description.Some? then p.description.value else cur.description,
         if p.priority.Some? then p.priority.value else cur.priority,
         if p.order.Some? then p.order.value else cur.order)
  }

  /** Whether the final `card.update` writes `laneId`: when it is supplied
      alone, or together with `order` and one of the two differs. */
  predicate WritesLane(cur: Card, p: CardPatch)
  {
    p.laneId.Some? && (p.order.None? || p.laneId.value != cur.laneId || p.order.value != cur.order)
  }

  /** The card table after the PUT's `updateMany` calls, which run only when both
      `laneId` and `order` are supplied; `cur` is the card being moved. */
  function AfterShifts(cs: seq<Card>, cur: Card, p: CardPatch): (r: seq<Card>)
    ensures |r| == |cs|
  {
    if p.laneId.Some? && p.order.Some? then
      var from, to := Slot(cur.laneId, cur.order), Slot(p.laneId.value, p.order.value);
      seq(|cs|, i requires 0 <= i < |cs| => MoveCard(cs[i], from, to))
    else cs
  }

  /** Row `c` after the shifts of a move from `from` to `to`: only its order changes. */
  function MoveCard(c: Card, from: Slot, to: Slot): (r: Card)
    ensures r == c.(order := r.order)
    ensures Slot(r.laneId, r.order) == Moved(Slot(c.laneId, c.order), from, to)
  {
    c.(order := Moved(Slot(c.laneId, c.order), from, to).order)
  }

  /** The `updateMany` calls of a PUT that moves the card at `from` to `to`. */
  method MoveShifts(db: Database, from: Slot, to: Slot)
    requires db.Valid() && from != to
    modifies db
    ensures db.Valid()
    ensures |db.cards| == |old(db.cards)|
    ensures forall i :: 0 <= i < |db.cards| ==> db.cards[i] == MoveCard(old(db.cards)[i], from, to)
    ensures db.boards == old(db.boards) && db.lanes == old(db.lanes) && db.items == old(db.items) && db.users == old(db.users)
  {
    if from.scope != to.scope {
      db.ShiftCards(from.scope, from.order + 1, None, -1);
      db.ShiftCards(to.scope, to.order, None, 1);
    } else if to.order > from.order {
      db.ShiftCards(from.scope, from.order + 1, Some(to.order), -1);
    } else {
      db.ShiftCards(from.scope, to.order, Some(from.order - 1), 1);
    }
  }

  datatype Outcome = Outcome(status: nat, cards: seq<Card>)

  /** Status and card table after a PUT on table `cs` with lanes `lanes`. The
      `updateMany` calls are not in a transaction: when the final update then
      fails on the foreign key (a `laneId` naming no lane), their shifts stay. */
  function PutSpec(authenticated: bool, lanes: seq<Lane>, cs: seq<Card>, p: CardPatch): Outcome
  {
    if !authenticated then Outcome(500, cs)
    else if !Truthy(p.id) then Outcome(400, cs)
    else match IndexOf(CardIds(cs), p.id.value)
      case None => Outcome(404, cs)
      case Some(k) =>
        var shifted := AfterShifts(cs, cs[k], p);
        if WritesLane(cs[k], p) && p.laneId.value !in LaneIds(lanes) then Outcome(500, shifted)
        else Outcome(200, shifted[k := Patched(cs[k], p)])
  }

  method Put(db: Database, authenticated: bool, p: CardPatch) returns (status: nat)
    requires db.Valid()
    modifies db
    ensures db.Valid()
    ensures Outcome(status, db.cards) == PutSpec(authenticated, old(db.lanes), old(db.cards), p)
    ensures status in {200, 400, 404, 500}
    ensures db.boards == old(db.boards) && db.lanes == old(db.lanes) && db.items == old(db.items) && db.users == old(db.users)
  {
    if !authenticated {
      return 500;
    }
    if !Truthy(p.id) {
      return 400;
    }
    var found := IndexOf(CardIds(db.cards), p.id.value);
    if found.None? {
      return 404;
    }
    var k := found.value;
    var cur := db.cards[k];
    ghost var cs := db.cards;
    var writeLane: Option<Id> := None;
    var writeOrder: Option<int> := None;
    if p.laneId.Some? && p.order.Some? {
      var laneId, order := p.laneId.value, p.order.value;
      var isChangingLane := cur.laneId != laneId;
      var isChangingOrder := cur.order != order;
      if isChangingLane || isChangingOrder {
        MoveShifts(db, Slot(cur.laneId, cur.order), Slot(laneId, order));
        writeLane, writeOrder := Some(laneId), Some(order);
      }
    } else if p.laneId.Some? {
      writeLane := p.laneId;
    } else if p.order.Some? {
      writeOrder := p.order;
    }
    assert db.cards == AfterShifts(cs, cur, p);
    if writeLane.Some? && writeLane.value !in LaneIds(db.lanes) {
      // the foreign key on laneId rejects the final update
      return 500;
    }
    var row := db.cards[k];
    var updated := Card(row.id,
                        if writeLane.Some? then writeLane.value else row.laneId,
                        if p.title.Some? then p.title.value else row.title,
                        if p.description.Some? then p.description.value else row.description,
                        if p.priority.Some? then p.priority.value else row.priority,
                        if writeOrder.Some? then writeOrder.value else row.order);
    assert updated == Patched(cur, p);
    db.UpdateCard(k, updated);
    return 200;
  }

  /** PUT rejects a missing id with 400 and an unknown id with 404, changing nothing. */
  lemma PutRejects(authenticated: bool, lanes: seq<Lane>, cs: seq<Card>, p: CardPatch)
    requires authenticated
    ensures !Truthy(p.id) ==> PutSpec(authenticated, lanes, cs, p) == Outcome(400, cs)
    ensures Truthy(p.id) && p.id.value !in CardIds(cs) ==> PutSpec(authenticated, lanes, cs, p) == Outcome(404, cs)
  {
  }

  /** Supplying the card's own lane and order shifts no sibling and keeps its place;
      only supplied title/description/priority change. */
  lemma PutNoOp(lanes: seq<Lane>, cs: seq<Card>, k: nat, p: CardPatch)
    requires NoDuplicates(CardIds(cs)) && k < |cs| && p.id == Some(cs[k].id) && cs[k].id != ""
    requires p.laneId == Some(cs[k].laneId) && p.order == Some(cs[k].order)
    ensures PutSpec(true, lanes, cs, p).status == 200
    ensures PutSpec(true, lanes, cs, p).cards == cs[k := cs[k].(title := Patched(cs[k], p).title,
                                                                  description := Patched(cs[k], p).description,
                                                                  priority := Patched(cs[k], p).priority)]
  {
    IndexOfUnique(CardIds(cs), k);
    assert AfterShifts(cs, cs[k], p) == cs;
  }

  /** How a PUT carrying both lane and order changes each card other than the moved
      one: same lane moving down decrements (cur, t], same lane moving up increments
      [t, cur), a lane change decrements the old lane's orders above cur and
      increments the new lane's orders from t. No card changes lane, title,
      description or priority. */
  lemma PutShiftsSiblings(lanes: seq<Lane>, cs: seq<Card>, k: nat, p: CardPatch, i: nat)
    requires NoDuplicates(CardIds(cs)) && k < |cs| && p.id == Some(cs[k].id) && cs[k].id != ""
    requires p.laneId.Some? && p.order.Some? && i < |cs| && i != k
    ensures var r := PutSpec(true, lanes, cs, p).cards;
      var c, cur, L, t := cs[i], cs[k], p.laneId.value, p.order.value;
      && r[i] == c.(order := r[i].order)
      && r[i].order == (
        if L == cur.laneId && t > cur.order then
          (if c.laneId == L && cur.order < c.order <= t then c.order - 1 else c.order)
        else if L == cur.laneId && t < cur.order then
          (if c.laneId == L && t <= c.order < cur.order then c.order + 1 else c.order)
        else if L != cur.laneId then
          (if c.laneId == cur.laneId && c.order > cur.order then c.order - 1
           else if c.laneId == L && c.order >= t then c.order + 1
           else c.order)
        else c.order)
  {
    IndexOfUnique(CardIds(cs), k);
    var from, to := Slot(cs[k].laneId, cs[k].order), Slot(p.laneId.value, p.order.value);
    var shifted := AfterShifts(cs, cs[k], p);
    assert shifted[i] == MoveCard(cs[i], from, to);
    var out := PutSpec(true, lanes, cs, p);
    assert out.cards == shifted || out.cards == shifted[k := Patched(cs[k], p)];
    assert out.cards[i] == shifted[i];
    MovedOrder(Slot(cs[i].laneId, cs[i].order), from, to);
  }

  /** The order `Moved` gives a row, case by case. */
  lemma MovedOrder(x: Slot, from: Slot, to: Slot)
    ensures Moved(x, from, to).order == (
      if to.scope == from.scope && to.order > from.order then
        (if x.scope == to.scope && from.order < x.order <= to.order then x.order - 1 else x.order)
      else if to.scope == from.scope && to.order < from.order then
        (if x.scope == to.scope && to.order <= x.order < from.order then x.order + 1 else x.order)
      else if to.scope != from.scope then
        (if x.scope == from.scope && x.order > from.order then x.order - 1
         else if x.scope == to.scope && x.order >= to.order then x.order + 1
         else x.order)
      else x.order)
  {
  }

  /** The moved card takes the supplied lane and order after a successful PUT. */
  lemma PutPlacesCard(lanes: seq<Lane>, cs: seq<Card>, k: nat, p: CardPatch)
    requires NoDuplicates(CardIds(cs)) && k < |cs| && p.id == Some(cs[k].id) && cs[k].id != ""
    requires p.laneId.Some? && p.order.Some? && p.laneId.value in LaneIds(lanes)
    ensures PutSpec(true, lanes, cs, p).status == 200
    ensures PutSpec(true, lanes, cs, p).cards[k] == Patched(cs[k], p)
    ensures PutSpec(true, lanes, cs, p).cards[k].laneId == p.laneId.value
    ensures PutSpec(true, lanes, cs, p).cards[k].order == p.order.value
  {
    IndexOfUnique(CardIds(cs), k);
  }

  /** The table a move PUT leaves, seen as slots, is the generic move of slot k. */
  lemma PutIsMove(lanes: seq<Lane>, cs: seq<Card>, k: nat, p: CardPatch)
    requires NoDuplicates(CardIds(cs)) && k < |cs| && p.id == Some(cs[k].id) && cs[k].id != ""
    requires p.laneId.Some? && p.order.Some?
    requires WritesLane(cs[k], p) ==> p.laneId.value in LaneIds(lanes)
    ensures PutSpec(true, lanes, cs, p).status == 200
    ensures CardSlots(PutSpec(true, lanes, cs, p).cards) == MoveAll(CardSlots(cs), k, Slot(p.laneId.value, p.order.value))
  {
    IndexOfUnique(CardIds(cs), k);
    var r := PutSpec(true, lanes, cs, p).cards;
    var m := MoveAll(CardSlots(cs), k, Slot(p.laneId.value, p.order.value));
    assert CardSlots(r) == m;
  }

  /** Density preservation of the reorder protocol: a PUT moving a card of a dense
      lane to position t of a dense lane (t below the lane size for a move inside the
      lane, at most the size for a move into another lane) succeeds and leaves both
      lanes dense; cards of every other lane are untouched. */
  lemma PutKeepsDense(lanes: seq<Lane>, cs: seq<Card>, k: nat, p: CardPatch)
    requires NoDuplicates(CardIds(cs)) && k < |cs| && p.id == Some(cs[k].id) && cs[k].id != ""
    requires p.laneId.Some? && p.order.Some? && p.laneId.value in LaneIds(lanes)
    requires Dense(CardSlots(cs), cs[k].laneId) && Dense(CardSlots(cs), p.laneId.value)
    requires 0 <= p.order.value
    requires p.laneId.value == cs[k].laneId ==> p.order.value < Count(CardSlots(cs), p.laneId.value)
    requires p.laneId.value != cs[k].laneId ==> p.order.value <= Count(CardSlots(cs), p.laneId.value)
    ensures PutSpec(true, lanes, cs, p).status == 200
    ensures Dense(CardSlots(PutSpec(true, lanes, cs, p).cards), cs[k].laneId)
    ensures Dense(CardSlots(PutSpec(true, lanes, cs, p).cards), p.laneId.value)
    ensures forall i :: 0 <= i < |cs| && cs[i].laneId != cs[k].laneId && cs[i].laneId != p.laneId.value
              ==> PutSpec(true, lanes, cs, p).cards[i] == cs[i]
  {
    IndexOfUnique(CardIds(cs), k);
    PutIsMove(lanes, cs, k, p);
    MoveKeepsDense(CardSlots(cs), k, Slot(p.laneId.value, p.order.value));
  }

  /** A PUT carrying `order` alone is written with no sibling shifted: the lane stays
      dense only when the order is the card's current one. */
  lemma LoneOrderKeepsDenseOnlyIfUnchanged(lanes: seq<Lane>, cs: seq<Card>, k: nat, p: CardPatch)
    requires NoDuplicates(CardIds(cs)) && k < |cs| && p.id == Some(cs[k].id) && cs[k].id != ""
    requires p.laneId.None? && p.order.Some? && Dense(CardSlots(cs), cs[k].laneId)
    ensures PutSpec(true, lanes, cs, p).status == 200
    ensures Dense(CardSlots(PutSpec(true, lanes, cs, p).cards), cs[k].laneId) <==> p.order.value == cs[k].order
  {
    IndexOfUnique(CardIds(cs), k);
    var s := CardSlots(cs);
    assert CardSlots(PutSpec(true, lanes, cs, p).cards) == s[k := Slot(s[k].scope, p.order.value)];
    RewriteOrderKeepsDenseOnlyIfUnchanged(s, k, p.order.value);
  }

  /** A PUT carrying `laneId` alone moves the card with no sibling shifted: the old
      lane stays dense only when the card held its highest order. */
  lemma LoneLaneKeepsSourceDenseOnlyIfLast(lanes: seq<Lane>, cs: seq<Card>, k: nat, p: CardPatch)
    requires NoDuplicates(CardIds(cs)) && k < |cs| && p.id == Some(cs[k].id) && cs[k].id != ""
    requires p.laneId.Some? && p.order.None? && p.laneId.value in LaneIds(lanes)
    requires p.laneId.value != cs[k].laneId && Dense(CardSlots(cs), cs[k].laneId)
    ensures PutSpec(true, lanes, cs, p).status == 200
    ensures Dense(CardSlots(PutSpec(true, lanes, cs, p).cards), cs[k].laneId)
        <==> cs[k].order == Count(CardSlots(cs), cs[k].laneId) - 1
  {
    IndexOfUnique(CardIds(cs), k);
    var s := CardSlots(cs);
    assert CardSlots(PutSpec(true, lanes, cs, p).cards) == s[k := Slot(p.laneId.value, s[k].order)];
    RelabelBreaksSource(s, k, p.laneId.value);
  }

  /** Without a transaction, a move to a lane id naming no lane fails with 500 after
      the old lane's orders above cur were already decremented: the moved card
      still holds cur, and so does the sibling that held cur + 1. */
  lemma MoveToMissingLaneLeavesDuplicate(lanes: seq<Lane>, cs: seq<Card>, k: nat, p: CardPatch)
    requires NoDuplicates(CardIds(cs)) && k < |cs| && p.id == Some(cs[k].id) && cs[k].id != ""
    requires p.laneId.Some? && p.order.Some? && p.laneId.value !in LaneIds(lanes) && p.laneId.value != cs[k].laneId
    requires Dense(CardSlots(cs), cs[k].laneId) && cs[k].order < Count(CardSlots(cs), cs[k].laneId) - 1
    ensures PutSpec(true, lanes, cs, p).status == 500
    ensures !Dense(CardSlots(PutSpec(true, lanes, cs, p).cards), cs[k].laneId)
  {
    IndexOfUnique(CardIds(cs), k);
    var s := CardSlots(cs);
    var L := cs[k].laneId;
    var from, to := s[k], Slot(p.laneId.value, p.order.value);
    var shifted := AfterShifts(cs, cs[k], p);
    assert PutSpec(true, lanes, cs, p) == Outcome(500, shifted);
    var r := CardSlots(shifted);
    var j := DenseHasEveryOrder(s, L, cs[k].order + 1);
    assert r[j] == Slot(L, cs[k].order) by {
      assert shifted[j] == MoveCard(cs[j], from, to);
      MovedOutOfSource(s[j], from, to);
    }
    assert r[k] == Slot(L, cs[k].order) by {
      assert shifted[k] == MoveCard(cs[k], from, to);
      MovedOutOfSource(s[k], from, to);
    }
    assert j != k && r[j].order == r[k].order && r[j].scope == L && r[k].scope == L;
  }

  // ---------------------------------------------------------------------------
  // DELETE /api/cards?id=

  method Delete(db: Database, authenticated: bool, id: Option<string>) returns (status: nat)
    requires db.Valid()
    modifies db
    ensures db.Valid()
    ensures !authenticated ==> status == 500
    ensures authenticated && !Truthy(id) ==> status == 400
    ensures authenticated && Truthy(id) && id.value !in CardIds(old(db.cards)) ==> status == 500
    ensures status == 200 <==> authenticated && Truthy(id) && id.value in CardIds(old(db.cards))
    ensures status != 200 ==> db.cards == old(db.cards) && db.items == old(db.items)
    ensures status == 200 ==>
      var k := IndexOf(CardIds(old(db.cards)), id.value).value;
      && db.cards == RemoveAt(old(db.cards), k)
      && forall x :: x in db.items <==> x in old(db.items) && x.cardId != id.value
    ensures db.boards == old(db.boards) && db.lanes == old(db.lanes) && db.users == old(db.users)
  {
    if !authenticated {
      return 500;
    }
    if !Truthy(id) {
      return 400;
    }
    var found := IndexOf(CardIds(db.cards), id.value);
    if found.None? {
      // `card.delete` on a missing row throws
      return 500;
    }
    db.DeleteCard(found.value);
    return 200;
  }

  /** DELETE compacts nothing: the remaining cards keep their orders, so the lane
      stays dense exactly when the deleted card held its highest order. */
  lemma DeleteKeepsDenseOnlyIfLast(cs: seq<Card>, k: nat)
    requires k < |cs| && Dense(CardSlots(cs), cs[k].laneId)
    ensures Dense(CardSlots(RemoveAt(cs, k)), cs[k].laneId) <==> cs[k].order == Count(CardSlots(cs), cs[k].laneId) - 1
  {
    assert CardSlots(RemoveAt(cs, k)) == RemoveAt(CardSlots(cs), k);
    RemoveKeepsDenseOnlyIfLast(CardSlots(cs), k);
  }
}
