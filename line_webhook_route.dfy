/** `POST /api/line/webhook`: the signature header must be present, the body must
    parse to an `events` array, and the text-message events are handled in order. */
module LineWebhookRoute {
  import opened Common
  import opened Store
  import opened LineWebhook

  /** `signature` is the `x-line-signature` header; `events` is the parsed body's
      `events` array, `None` when the body does not parse to one. */
  method Post(db: Database, signature: Option<string>, events: Option<seq<Event>>)
    returns (status: nat, replies: seq<string>, pushes: seq<Push>)
    requires db.Valid()
    modifies db
    ensures db.Valid()
    ensures !Truthy(signature) ==> status == 400
    ensures Truthy(signature) && events.None? ==> status == 500
    ensures status != 200 ==> db.items == old(db.items) && replies == [] && pushes == []
    ensures status == 200 <==> Truthy(signature) && events.Some?
    ensures status == 200 ==>
      Effect(db.items, replies, pushes) == HandleAll(old(db.users), old(db.cards), old(db.items), events.value)
    ensures db.boards == old(db.boards) && db.lanes == old(db.lanes) && db.cards == old(db.cards) && db.users == old(db.users)
  {
    if !Truthy(signature) {
      return 400, [], [];
    }
    if events.None? {
      return 500, [], [];
    }
    replies, pushes := HandleEvents(db, events.value);
    status := 200;
  }

  /** The loop over the events, each text message handled in turn. */
  method HandleEvents(db: Database, evs: seq<Event>) returns (replies: seq<string>, pushes: seq<Push>)
    requires db.Valid()
    modifies db
    ensures db.Valid()
    ensures Effect(db.items, replies, pushes) == HandleAll(old(db.users), old(db.cards), old(db.items), evs)
    ensures db.boards == old(db.boards) && db.lanes == old(db.lanes) && db.cards == old(db.cards) && db.users == old(db.users)
  {
    replies, pushes := [], [];
    ghost var bs, ls, us, cs, xs := db.boards, db.lanes, db.users, db.cards, db.items;
    var i := 0;
    while i < |evs|
      invariant 0 <= i <= |evs|
      invariant db.Valid()
      invariant Effect(db.items, replies, pushes) == HandleAll(us, cs, xs, evs[..i])
      invariant db.cards == cs && db.users == us
      invariant db.boards == bs && db.lanes == ls
    {
      var e := evs[i];
      if IsTextMessage(e) {
        ghost var before := Effect(db.items, replies, pushes);
        var r, p := HandleTextMessage(db, e.sourceUserId, e.text);
        HandleAllHandles(us, cs, xs, evs, i, before, Effect(db.items, r, p));
        replies, pushes := replies + r, pushes + p;
      } else {
        HandleAllSkips(us, cs, xs, evs, i);
      }
      i := i + 1;
    }
    assert evs[..i] == evs;
  }
}
