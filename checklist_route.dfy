/** The checklist endpoints: POST creates an item and notifies its assignee,
    PUT patches an item and notifies a newly assigned user, DELETE removes an
    item. A notification is a push through the chat platform: the handler
    attempts it, and a failed push is caught and logged without changing the
    response or the store. */
module ChecklistRoute {
  import opened Common
  import opened Store

  /** A push `sendTaskAssignmentNotification(lineUserId, cardTitle, text)`. */
  datatype Notification = Notification(lineUserId: string, cardTitle: string, text: string)

  /** `findUnique` on a primary key. */
  function UserById(us: seq<User>, id: Id): (r: Option<User>)
    ensures r.Some? <==> id in UserIds(us)
    ensures r.Some? ==> r.value in us && r.value.id == id
  {
    match IndexOf(UserIds(us), id)
      case None => None
      case Some(k) => Some(us[k])
  }

  function CardById(cs: seq<Card>, id: Id): (r: Option<Card>)
    ensures r.Some? <==> id in CardIds(cs)
    ensures r.Some? ==> r.value in cs && r.value.id == id
  {
    match IndexOf(CardIds(cs), id)
      case None => None
      case Some(k) => Some(cs[k])
  }

  /** The push for assigning `text` on card `cardId` to user `assignee`: sent to the
      user's chat id, naming the card's title and the item's text; none when the
      user (or card) does not exist. */
  function AssignmentNotice(us: seq<User>, cs: seq<Card>, assignee: Id, cardId: Id, text: string): (r: Option<Notification>)
    ensures r.Some? <==> assignee in UserIds(us) && cardId in CardIds(cs)
    ensures r.Some? ==> exists u, c :: u in us && u.id == assignee && c in cs && c.id == cardId
                                   && r.value == Notification(u.lineUserId, c.title, text)
  {
    match UserById(us, assignee)
      case None => None
      case Some(u) =>
        match CardById(cs, cardId)
          case None => None
          case Some(c) => Some(Notification(u.lineUserId, c.title, text))
  }

  /** `assignedToUserId || null`: a falsy assignee is stored as no assignee. */
  function StoredAssignee(a: Option<string>): (r: Option<Id>)
    ensures r.Some? <==> Truthy(a)
    ensures r.Some? ==> r.value == a.value
  {
    if Truthy(a) then Some(a.value) else None
  }

  // ---------------------------------------------------------------------------
  // POST /api/checklist

  /** The row a successful POST inserts; a new item starts not completed. */
  function NewItem(id: Id, cardId: Id, text: string, assignee: Option<string>): (x: ChecklistItem)
    ensures x.id == id && x.cardId == cardId && x.text == text && !x.completed
    ensures x.assignedToUserId == StoredAssignee(assignee)
  {
    ChecklistItem(id, cardId, text, false, StoredAssignee(assignee))
  }

  /** `pushOk` is whether the chat platform accepts the push, should one be sent. */
  method Post(db: Database, authenticated: bool, cardId: Option<string>, text: Option<string>,
              assignedToUserId: Option<string>, newId: Id, pushOk: bool)
    returns (status: nat, item: Option<ChecklistItem>, push: Option<Notification>)
    requires db.Valid() && newId !in ItemIds(db.items)
    modifies db
    ensures db.Valid()
    ensures !authenticated ==> status == 500
    ensures authenticated && !(Truthy(cardId) && Truthy(text)) ==> status == 400
    ensures status == 201 <==>
      && authenticated && Truthy(cardId) && Truthy(text)
      && cardId.value in CardIds(old(db.cards))
      && (Truthy(assignedToUserId) ==> assignedToUserId.value in UserIds(old(db.users)))
    ensures status in {201, 400, 500}
    ensures status != 201 ==> item.None? && push.None? && db.items == old(db.items)
    ensures status == 201 ==>
      && item == Some(NewItem(newId, cardId.value, text.value, assignedToUserId))
      && db.items == old(db.items) + [item.value]
      && push == (if Truthy(assignedToUserId)
                  then AssignmentNotice(old(db.users), old(db.cards), assignedToUserId.value, cardId.value, text.value)
                  else None)
    ensures db.boards == old(db.boards) && db.lanes == old(db.lanes) && db.cards == old(db.cards) && db.users == old(db.users)
  {
    push := None;
    if !authenticated {
      return 500, None, None;
    }
    if !Truthy(cardId) || !Truthy(text) {
      return 400, None, None;
    }
    var x := NewItem(newId, cardId.value, text.value, assignedToUserId);
    if cardId.value !in CardIds(db.cards)
       || (x.assignedToUserId.Some? && x.assignedToUserId.value !in UserIds(db.users)) {
      // a foreign key rejects the insert
      return 500, None, None;
    }
    db.InsertItem(x);
    if Truthy(assignedToUserId) {
      var user := UserById(db.users, assignedToUserId.value);
      if user.Some? {
        var delivered;
        push, delivered := Notify(db, user.value.lineUserId, x.cardId, x.text, pushOk);
      }
    }
    return 201, Some(x), push;
  }

  /** Attempts the assignment push for an item of card `cardId`. The platform
      accepts it when `pushOk`; the handlers ignore `delivered`, since a failed
      push is caught and logged. */
  method Notify(db: Database, lineUserId: string, cardId: Id, text: string, pushOk: bool)
    returns (push: Option<Notification>, delivered: bool)
    requires cardId in CardIds(db.cards)
    ensures push.Some? && push.value.lineUserId == lineUserId && push.value.text == text
    ensures CardById(db.cards, cardId).Some? && push.value.cardTitle == CardById(db.cards, cardId).value.title
    ensures delivered == pushOk
  {
    var card := CardById(db.cards, cardId);
    push := Some(Notification(lineUserId, card.value.title, text));
    delivered := pushOk;
  }

  /** Creating an item notifies exactly when a truthy assignee was given (the
      foreign key has then already guaranteed that the user exists), addressed to
      that user's chat id. */
  lemma CreateNotifiesAssigneeOnly(us: seq<User>, cs: seq<Card>, cardId: Id, text: string, a: Option<string>)
    requires cardId in CardIds(cs) && (Truthy(a) ==> a.value in UserIds(us))
    ensures Truthy(a) ==> AssignmentNotice(us, cs, a.value, cardId, text).Some?
    ensures Truthy(a) && NoDuplicates(UserIds(us)) ==>
      forall u :: u in us && u.id == a.value ==> AssignmentNotice(us, cs, a.value, cardId, text).value.lineUserId == u.lineUserId
  {
    if Truthy(a) && NoDuplicates(UserIds(us)) {
      forall u | u in us && u.id == a.value
        ensures AssignmentNotice(us, cs, a.value, cardId, text).value.lineUserId == u.lineUserId
      {
        var i :| 0 <= i < |us| && us[i] == u;
        IndexOfUnique(UserIds(us), i);
      }
    }
  }

  // ---------------------------------------------------------------------------
  // PUT /api/checklist

  /** The JSON body of a PUT; `None` is an absent field. */
  datatype ItemPatch = ItemPatch(id: Option<string>, text: Option<string>, completed: Option<bool>,
                                 assignedToUserId: Option<string>)

  /** The item after a successful PUT: supplied fields are written, and a supplied
      falsy assignee clears the assignment. */
  function PatchedItem(cur: ChecklistItem, p: ItemPatch): (x: ChecklistItem)
    ensures x.id == cur.id && x.cardId == cur.cardId
    ensures x.text == (if p.text.Some? then p.text.value else cur.text)
    ensures x.completed == (if p.completed.Some? then p.completed.value else cur.completed)
    ensures p.assignedToUserId.None? ==> x.assignedToUserId == cur.assignedToUserId
    ensures p.assignedToUserId.Some? ==> x.assignedToUserId == StoredAssignee(p.assignedToUserId)
  {
    cur.(text := if p.text.Some? then p.text.value else cur.text,
         completed := if p.completed.Some? then p.completed.value else cur.completed,
         assignedToUserId := if p.assignedToUserId.Some? then StoredAssignee(p.assignedToUserId) else cur.assignedToUserId)
  }

  /** The notify condition of the PUT: a truthy new assignee, an item that existed
      before the update, and a previous assignee different from the new one. */
  predicate ShouldNotify(current: Option<ChecklistItem>, p: ItemPatch)
  {
    Truthy(p.assignedToUserId) && current.Some? && current.value.assignedToUserId != Some(p.assignedToUserId.value)
  }

  datatype Outcome = Outcome(status: nat, items: seq<ChecklistItem>, push: Option<Notification>)

  /** Status, item table and attempted push of a PUT. `checklistItem.update` on a
      missing id, or naming a missing user, throws: 500 with nothing written. */
  function PutSpec(authenticated: bool, us: seq<User>, cs: seq<Card>, xs: seq<ChecklistItem>, p: ItemPatch): Outcome
  {
    if !authenticated then Outcome(500, xs, None)
    else if !Truthy(p.id) then Outcome(400, xs, None)
    else match IndexOf(ItemIds(xs), p.id.value)
      case None => Outcome(500, xs, None)
      case Some(k) =>
        var x := PatchedItem(xs[k], p);
        if x.assignedToUserId.Some? && x.assignedToUserId.value !in UserIds(us) then Outcome(500, xs, None)
        else Outcome(200, xs[k := x],
                     if ShouldNotify(Some(xs[k]), p) then AssignmentNotice(us, cs, p.assignedToUserId.value, x.cardId, x.text)
                     else None)
  }

  method Put(db: Database, authenticated: bool, p: ItemPatch, pushOk: bool)
    returns (status: nat, push: Option<Notification>)
    requires db.Valid()
    modifies db
    ensures db.Valid()
    ensures Outcome(status, db.items, push) == PutSpec(authenticated, old(db.users), old(db.cards), old(db.items), p)
    ensures db.boards == old(db.boards) && db.lanes == old(db.lanes) && db.cards == old(db.cards) && db.users == old(db.users)
  {
    if !authenticated {
      return 500, None;
    }
    if !Truthy(p.id) {
      return 400, None;
    }
    var found := IndexOf(ItemIds(db.items), p.id.value);
    var current: Option<ChecklistItem> := if found.Some? then Some(db.items[found.value]) else None;
    if found.None? {
      // `update` on a missing row throws
      return 500, None;
    }
    var k := found.value;
    var x := PatchedItem(db.items[k], p);
    if x.assignedToUserId.Some? && x.assignedToUserId.value !in UserIds(db.users) {
      // the foreign key on assignedToUserId rejects the update
      return 500, None;
    }
    assert x.cardId in CardIds(db.cards) by {
      assert db.items[k] in db.items;
    }
    db.UpdateItem(k, x);
    push := None;
    if ShouldNotify(current, p) {
      var user := UserById(db.users, p.assignedToUserId.value);
      if user.Some? {
        var delivered;
        push, delivered := Notify(db, user.value.lineUserId, x.cardId, x.text, pushOk);
      }
    }
    return 200, push;
  }

  /** A successful PUT notifies exactly when the new assignee is truthy and differs
      from the previous one; re-sending the current assignee, clearing the
      assignment or leaving it out never notifies. */
  lemma PutNotifiesOnlyNewAssignee(us: seq<User>, cs: seq<Card>, xs: seq<ChecklistItem>, p: ItemPatch, k: nat)
    requires NoDuplicates(ItemIds(xs)) && k < |xs| && p.id == Some(xs[k].id) && xs[k].id != ""
    requires xs[k].cardId in CardIds(cs)
    requires PutSpec(true, us, cs, xs, p).status == 200
    ensures PutSpec(true, us, cs, xs, p).push.Some?
        <==> Truthy(p.assignedToUserId) && xs[k].assignedToUserId != Some(p.assignedToUserId.value)
    ensures PutSpec(true, us, cs, xs, p).push.Some? ==>
      exists u :: u in us && u.id == p.assignedToUserId.value && PutSpec(true, us, cs, xs, p).push.value.lineUserId == u.lineUserId
  {
    IndexOfUnique(ItemIds(xs), k);
  }

  /** A PUT with a falsy assignee clears it, without a notification. */
  lemma PutClearsFalsyAssignee(us: seq<User>, cs: seq<Card>, xs: seq<ChecklistItem>, p: ItemPatch, k: nat)
    requires NoDuplicates(ItemIds(xs)) && k < |xs| && p.id == Some(xs[k].id) && xs[k].id != ""
    requires p.assignedToUserId.Some? && !Truthy(p.assignedToUserId)
    ensures PutSpec(true, us, cs, xs, p).status == 200
    ensures PutSpec(true, us, cs, xs, p).items[k].assignedToUserId.None?
    ensures PutSpec(true, us, cs, xs, p).push.None?
  {
    IndexOfUnique(ItemIds(xs), k);
  }

  /** A successful PUT rewrites the addressed item only. */
  lemma PutTouchesOnlyAddressedItem(us: seq<User>, cs: seq<Card>, xs: seq<ChecklistItem>, p: ItemPatch, k: nat)
    requires NoDuplicates(ItemIds(xs)) && k < |xs| && p.id == Some(xs[k].id) && xs[k].id != ""
    requires PutSpec(true, us, cs, xs, p).status == 200
    ensures |PutSpec(true, us, cs, xs, p).items| == |xs|
    ensures PutSpec(true, us, cs, xs, p).items[k] == PatchedItem(xs[k], p)
    ensures forall i :: 0 <= i < |xs| && i != k ==> PutSpec(true, us, cs, xs, p).items[i] == xs[i]
  {
    IndexOfUnique(ItemIds(xs), k);
  }

  // ---------------------------------------------------------------------------
  // DELETE /api/checklist?id=

  method Delete(db: Database, authenticated: bool, id: Option<string>) returns (status: nat)
    requires db.Valid()
    modifies db
    ensures db.Valid()
    ensures !authenticated ==> status == 500
    ensures authenticated && !Truthy(id) ==> status == 400
    ensures authenticated && Truthy(id) && id.value !in ItemIds(old(db.items)) ==> status == 500
    ensures status == 200 <==> authenticated && Truthy(id) && id.value in ItemIds(old(db.items))
    ensures status != 200 ==> db.items == old(db.items)
    ensures status == 200 ==> db.items == RemoveAt(old(db.items), IndexOf(ItemIds(old(db.items)), id.value).value)
    ensures db.boards == old(db.boards) && db.lanes == old(db.lanes) && db.cards == old(db.cards) && db.users == old(db.users)
  {
    if !authenticated {
      return 500;
    }
    if !Truthy(id) {
      return 400;
    }
    var found := IndexOf(ItemIds(db.items), id.value);
    if found.None? {
      // `delete` on a missing row throws
      return 500;
    }
    db.DeleteItem(found.value);
    return 200;
  }

  /** With unique ids, deleting row k removes exactly the item with that id. */
  lemma {:induction false} RemoveItemRemovesOnlyThat(xs: seq<ChecklistItem>, k: nat)
    requires NoDuplicates(ItemIds(xs)) && k < |xs|
    ensures forall x :: x in RemoveAt(xs, k) <==> x in xs && x.id != xs[k].id
  {
    var r := RemoveAt(xs, k);
    var ids := ItemIds(xs);
    forall i | 0 <= i < |r|
      ensures r[i] in xs && r[i].id != xs[k].id
    {
      var j := if i < k then i else i + 1;
      assert r[i] == xs[j];
      assert ids[j] != ids[k] by {
        if j < k { assert ids[j] != ids[k]; } else { assert ids[k] != ids[j]; }
      }
    }
    forall x | x in xs && x.id != xs[k].id
      ensures x in r
    {
      var j :| 0 <= j < |xs| && xs[j] == x;
      assert j != k;
      assert r[if j < k then j else j - 1] == x;
    }
  }
}
