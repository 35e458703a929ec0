# Kanban board with a chat bot: a Dafny model of its core

The system is a team kanban board. Boards hold lanes, lanes hold cards, and
cards hold checklist items that can be assigned to users. Users sign in with
their chat account, and a chat bot lets them list their open tasks and mark a
task done. This project models the following parts of it:

- **Card endpoints** (`app/api/cards/route.ts`): create a card at the end of its
  lane; patch a card, including the lane/order reorder protocol whose
  `updateMany` calls shift the sibling cards; delete a card.
- **Lane endpoints** (`app/api/lanes/route.ts`): create a lane at the end of its
  board, patch it, and delete it.
- **Checklist endpoints** (`app/api/checklist/route.ts`): create, patch and
  delete an item, together with the rule that decides when an assignee is
  notified.
- **Chat webhook** (`app/api/line/webhook/route.ts`):
  - the signature-presence guard;
  - the event loop;
  - command classification (trim, lower-case, the list phrases, the `done `
    prefix);
  - the open-task listing;
  - the `done {id}` transition.
- **Task-list message** (`lib/line.ts`): the message `formatTaskList` builds.
- **Drag and drop on the board** (`components/kanban-board.tsx`): the card lookup
  when a drag starts, and the move request computed when a drag ends.
- **Card tile** (`components/card.tsx`): the completed count, the de-duplicated
  assignee avatars, and the avatar palette colour.
- **Lane display order** (`components/lane.tsx`): the sorted copy of a lane's
  cards, in manual or priority mode, and what priority mode does with the
  stored priority names.

The persisted store is the class `Store.Database`. Its tables (`boards`, `lanes`,
`cards`, `items`, `users`) are fields the handlers update. `Valid()` is the
invariant the database keeps: unique ids, references that name a row, and
unique chat user ids.

Each route handler is a method on that class that is proved against a pure
function of the old tables (`PutSpec`, `PostSpec`, `HandleSpec`, `HandleAll`,
and so on). The lemmas then state what the application promises about those
functions.

The central notion is *density*. A lane's cards are dense when their orders
are exactly 0..n-1 with no repeats; `Ordering.Dense` defines it once, over
(scope, order) slots. The lemmas say which endpoints keep density and which
break it:

- A creation keeps it.
- A paired lane/order move keeps it when the target position is in range.
- A lone `order`, a lone `laneId`, a lane PUT with a new order, and every
  delete break it, except in the cases the lemmas name.

The session check (`requireAuth`) is an `authenticated` flag. Database and
platform identifiers are strings (`Common.Id`). The id a database generates
is a parameter.

## Model

| member | source | states |
|---|---|---|
| Ordering.MaxOrder | app/api/cards/route.ts:20-24 | the highest order in a lane: None exactly when the lane is empty, otherwise an order some card of the lane holds and no card of the lane exceeds |
| Ordering.LastOrder | app/api/cards/route.ts:20-24 | the loop that scans the table returns the lane's highest order |
| Ordering.NextOrderOfDense | app/api/cards/route.ts:26 | on a dense lane, max + 1 (or 0 when empty) is the lane's card count |
| Ordering.AppendKeepsDense | app/api/cards/route.ts:20-43 | appending at the lane's size keeps the lane dense and leaves every other lane's density as it was |
| Ordering.MoveAll | app/api/cards/route.ts:81-143 | the moved row takes the target slot and every other row takes its shifted slot |
| Ordering.MoveKeepsDense | app/api/cards/route.ts:81-143 | a move whose target order is in range (below the size in the same lane, at most the size in another lane) keeps the source and target lanes dense and leaves all other rows unchanged |
| Ordering.MoveWithinKeepsDense | app/api/cards/route.ts:109-139 | a move within a dense lane to an order in 0..n-1 keeps the lane dense |
| Ordering.MoveAcrossKeepsSource | app/api/cards/route.ts:87-97 | closing the gap in the old lane keeps it dense |
| Ordering.MoveAcrossKeepsTarget | app/api/cards/route.ts:99-108 | opening a gap at t, with 0 <= t <= n, keeps the new lane dense |
| Ordering.RewriteOrderKeepsDenseOnlyIfUnchanged | app/api/cards/route.ts:147-148 | writing one row's order with no shift keeps its lane dense exactly when the order is unchanged |
| Ordering.RemoveKeepsDenseOnlyIfLast | app/api/cards/route.ts:185-187 | removing a row keeps its dense lane dense exactly when the row held the highest order |
| Ordering.RelabelBreaksSource | app/api/cards/route.ts:145-146 | moving a row to another scope with no shift keeps the old scope dense exactly when the row held the highest order |
| Ordering.MoveWithinToSizeBreaksDense | app/api/cards/route.ts:109-124 | a same-lane move to order n (the lane's size) never leaves the lane dense |
| Ordering.DenseIsExactRange | app/api/cards/route.ts:26 | a lane is dense exactly when its orders are distinct and form the set {0..n-1} |
| Store.Database.LastCardOrder | app/api/cards/route.ts:21-24 | `findFirst` ordered by `order desc` returns the lane's highest card order, or none |
| Store.Database.LastLaneOrder | app/api/lanes/route.ts:21-24 | the board's highest lane order, or none |
| Store.Database.ShiftCards | app/api/cards/route.ts:89-138 | one `updateMany`: each card of the lane whose order is in the window [lo, hi] moves by delta, all else unchanged, invariant kept |
| Store.Database.InsertCard | app/api/cards/route.ts:28-43 | the card is appended to the table and nothing else changes |
| Store.Database.UpdateCard | app/api/cards/route.ts:151-161 | row k is replaced by the new record and nothing else changes |
| Store.Database.DeleteCard | app/api/cards/route.ts:185-187 | the row is removed and exactly its checklist items go with it |
| Store.Database.InsertLane | app/api/lanes/route.ts:28-34 | the lane is appended and nothing else changes |
| Store.Database.UpdateLane | app/api/lanes/route.ts:61-64 | row k is replaced and nothing else changes |
| Store.Database.DeleteLane | app/api/lanes/route.ts:87-89 | the lane is removed, exactly its cards go with it, and exactly the items of the remaining cards stay |
| Store.Database.InsertItem | app/api/checklist/route.ts:21-31 | the item is appended and nothing else changes |
| Store.Database.UpdateItem | app/api/checklist/route.ts:87-94 | row k is replaced and nothing else changes |
| Store.Database.DeleteItem | app/api/checklist/route.ts:140-142 | row k is removed and nothing else changes |
| CardsRoute.NewCard | app/api/cards/route.ts:28-35 | a created card's description defaults to "" and its priority to "MEDIUM" when absent or falsy |
| CardsRoute.Post | app/api/cards/route.ts:5-52 | the handler's status, returned card and new table are those of the POST specification; other tables unchanged |
| CardsRoute.PostOutcomes | app/api/cards/route.ts:13-43 | 201 exactly when authenticated with a truthy lane id and title naming an existing lane; 400 for a missing field, 500 for no session or a missing lane, table unchanged on every error; on 201 the new card is appended |
| CardsRoute.PostKeepsDense | app/api/cards/route.ts:20-35 | a created card takes order n in a dense lane of n cards and the lane stays dense |
| CardsRoute.CreateKeepsDense | app/api/cards/route.ts:20-35 | appending at max + 1 (or 0) keeps the lane dense and every other lane's density as it was |
| CardsRoute.Patched | app/api/cards/route.ts:75-78 | every supplied field is written and every other field kept |
| CardsRoute.MoveCard | app/api/cards/route.ts:86-139 | the shifts of a move change a row's order only, as the generic move does |
| CardsRoute.MoveShifts | app/api/cards/route.ts:86-139 | the `updateMany` calls leave every row as the move shifts it |
| CardsRoute.Put | app/api/cards/route.ts:54-171 | the handler's status and new table are those of the PUT specification, status in {200, 400, 404, 500}, other tables unchanged |
| CardsRoute.PutRejects | app/api/cards/route.ts:62-73 | a missing id gives 400 and an unknown id 404, both with the table unchanged |
| CardsRoute.PutNoOp | app/api/cards/route.ts:81-85 | supplying the card's own lane and order shifts nothing; only supplied title, description and priority change |
| CardsRoute.PutShiftsSiblings | app/api/cards/route.ts:86-139 | each sibling's order after a paired move, case by case: decrement in (cur, t] moving down, increment in [t, cur) moving up, old-lane tail decremented and new-lane suffix from t incremented across lanes; nothing else of the row changes |
| CardsRoute.PutPlacesCard | app/api/cards/route.ts:142-161 | after a paired move to an existing lane the card holds the supplied lane and order, with status 200 |
| CardsRoute.PutIsMove | app/api/cards/route.ts:81-161 | a paired PUT acts on the (lane, order) slots as the generic move of the card's slot |
| CardsRoute.PutKeepsDense | app/api/cards/route.ts:81-161 | with a target order in range, a paired move keeps both lanes dense and leaves cards of other lanes untouched |
| CardsRoute.LoneOrderKeepsDenseOnlyIfUnchanged | app/api/cards/route.ts:147-148 | a lone `order` is written with no shift, so the lane stays dense exactly when the order is the card's own |
| CardsRoute.LoneLaneKeepsSourceDenseOnlyIfLast | app/api/cards/route.ts:145-146 | a lone `laneId` moves the card with no shift, so the old lane stays dense exactly when the card was last |
| CardsRoute.MoveToMissingLaneLeavesDuplicate | app/api/cards/route.ts:86-170 | a paired move to a lane that does not exist answers 500 yet its old-lane shifts persist, leaving that lane not dense |
| CardsRoute.Delete | app/api/cards/route.ts:173-196 | 400 for a falsy id, 500 for no session or an unknown id, otherwise 200 with exactly that row and its items removed; nothing changes on error |
| CardsRoute.DeleteKeepsDenseOnlyIfLast | app/api/cards/route.ts:185-187 | deleting compacts nothing: the lane stays dense exactly when the card held its highest order |
| LanesRoute.Post | app/api/lanes/route.ts:5-43 | 201 exactly when authenticated with a truthy board id and title naming an existing board, the lane appended at max + 1 (or 0); 400 or 500 otherwise with the table unchanged |
| LanesRoute.CreateKeepsDense | app/api/lanes/route.ts:20-34 | a new lane takes order n on a dense board of n lanes and the board stays dense; other boards keep their density |
| LanesRoute.PatchedLane | app/api/lanes/route.ts:57-59 | supplied title and order are written; id and board stay |
| LanesRoute.Put | app/api/lanes/route.ts:45-73 | the handler's status and new lane table are those of the PUT specification, other tables unchanged |
| LanesRoute.PutTouchesOnlyAddressedLane | app/api/lanes/route.ts:57-64 | a successful PUT changes exactly the addressed lane; every other lane keeps its record |
| LanesRoute.PutKeepsDenseOnlyIfOrderUnchanged | app/api/lanes/route.ts:57-64 | a direct order write keeps a dense board dense exactly when the order is absent or unchanged |
| LanesRoute.Delete | app/api/lanes/route.ts:75-98 | 400 for a falsy id, 500 for no session or an unknown id, otherwise 200 with exactly that lane, its cards and their items removed |
| LanesRoute.DeleteKeepsDenseOnlyIfLast | app/api/lanes/route.ts:87-89 | deleting renumbers nothing: the board stays dense exactly when the lane held its highest order |
| ChecklistRoute.UserById | app/api/checklist/route.ts:35-37 | a user is found exactly when the id is in the table, and it is the row with that id |
| ChecklistRoute.CardById | app/api/checklist/route.ts:27-30 | a card is found exactly when the id is in the table, and it is the row with that id |
| ChecklistRoute.AssignmentNotice | app/api/checklist/route.ts:39-45 | a notification exists exactly when the user and card exist, and goes to that user's chat id with the card title and item text |
| ChecklistRoute.StoredAssignee | app/api/checklist/route.ts:25 | `assignedToUserId \|\| null`: an assignee is stored exactly when it is truthy |
| ChecklistRoute.NewItem | app/api/checklist/route.ts:21-31 | a created item carries the card, text and stored assignee, and starts not completed |
| ChecklistRoute.Post | app/api/checklist/route.ts:6-60 | 400 for a missing card id or text; 201 exactly when the card and any truthy assignee exist, the item appended; one push attempted only for a truthy assignee; nothing changes otherwise |
| ChecklistRoute.Notify | app/api/checklist/route.ts:40-49 | the push goes to the chat id with the card title and item text; its failure is reported, not propagated |
| ChecklistRoute.CreateNotifiesAssigneeOnly | app/api/checklist/route.ts:34-51 | a created item with a truthy existing assignee notifies that user's chat id |
| ChecklistRoute.PatchedItem | app/api/checklist/route.ts:80-85 | supplied text and completed are written; a supplied assignee is stored as `\|\| null` |
| ChecklistRoute.Put | app/api/checklist/route.ts:62-126 | the handler's status, new item table and push are those of the PUT specification, other tables unchanged |
| ChecklistRoute.PutNotifiesOnlyNewAssignee | app/api/checklist/route.ts:96-117 | a successful PUT notifies exactly when the new assignee is truthy and differs from the previous one, and then that user |
| ChecklistRoute.PutClearsFalsyAssignee | app/api/checklist/route.ts:83-85 | a supplied falsy assignee clears the assignment and notifies nobody |
| ChecklistRoute.PutTouchesOnlyAddressedItem | app/api/checklist/route.ts:87-94 | a successful PUT rewrites the addressed item only |
| ChecklistRoute.Delete | app/api/checklist/route.ts:128-151 | 400 for a falsy id, 500 for no session or an unknown id, otherwise 200 with exactly that row removed |
| ChecklistRoute.RemoveItemRemovesOnlyThat | app/api/checklist/route.ts:140-142 | with unique ids, the items left are exactly those with another id |
| Common.RemoveAt | app/api/cards/route.ts:185-187 | a table with row k deleted keeps every other row, in order; the lane, card and checklist DELETEs use it |
| Common.NatToString | lib/line.ts:48 | the decimal rendering is non-empty, all digits, with no leading zero |
| LineFormat.FormatTaskList | lib/line.ts:41-57 | the `+=` loop builds the message for the task list |
| LineFormat.MessageShape | lib/line.ts:44-54 | the empty list yields the fixed message; any other starts with the header carrying the count and ends with the footer |
| LineFormat.EntriesStep | lib/line.ts:50-52 | one more task appends its entry at index i |
| LineFormat.EntriesPrefix | lib/line.ts:50-52 | the entries of a prefix of the list are a prefix of the message body |
| LineFormat.EntryInOrder | lib/line.ts:50-52 | task i's numbered entry sits right after the entries of the tasks before it |
| LineFormat.EntryFields | lib/line.ts:51 | an entry starts with index + 1 and carries the card title, text and id |
| LineWebhook.TrimStart | app/api/line/webhook/route.ts:41 | drops exactly the leading white space |
| LineWebhook.TrimEnd | app/api/line/webhook/route.ts:41 | drops exactly the trailing white space |
| LineWebhook.TrimIsSlice | app/api/line/webhook/route.ts:41 | `trim` returns a slice with only white space outside it |
| LineWebhook.TrimIdempotent | app/api/line/webhook/route.ts:105 | a trimmed string starts and ends with non-space, and trimming again changes nothing |
| LineWebhook.Lower | app/api/line/webhook/route.ts:41 | lower-cases each character in place |
| LineWebhook.LowerHasNoUpper | app/api/line/webhook/route.ts:41 | a lowered string holds no upper-case ASCII letter |
| LineWebhook.ContainsWitness | app/api/line/webhook/route.ts:61-63 | `includes` holds only with a position where the phrase occurs |
| LineWebhook.ContainsFromWitness | app/api/line/webhook/route.ts:61-63 | an occurrence at any position makes `includes` hold |
| LineWebhook.CapitalisedTestUnreachable | app/api/line/webhook/route.ts:58-64 | the `"My tasks"` comparison can never match a lowered message, so the list test is decided by the other four |
| LineWebhook.ClassifyCases | app/api/line/webhook/route.ts:41-145 | list exactly when the normalised text asks for tasks; otherwise `done` exactly on the `done ` prefix, with the id the trimmed rest; help otherwise |
| LineWebhook.ClassifyCapitalised | app/api/line/webhook/route.ts:41-64 | "My Tasks" selects the list, because the text is lowered first |
| LineWebhook.ClassifyListBeforeDone | app/api/line/webhook/route.ts:58-104 | "done งานของ" lists tasks, because the list test comes before the `done ` test |
| LineWebhook.DoneIdIsLowerCase | app/api/line/webhook/route.ts:104-105 | a task id parsed from a message holds no upper-case letter |
| LineWebhook.ClassifyBareDone | app/api/line/webhook/route.ts:104 | "done " is trimmed to "done" before the prefix test and so is help |
| LineWebhook.OpenTasks | app/api/line/webhook/route.ts:65-73 | exactly the items assigned to the user and not completed |
| LineWebhook.AsTasks | app/api/line/webhook/route.ts:75-81 | each task carries its item's id, text and card title |
| LineWebhook.UserByLineId | app/api/line/webhook/route.ts:45-47 | found exactly when the chat id is registered, and it is that user |
| LineWebhook.HandleTextMessage | app/api/line/webhook/route.ts:34-156 | the handler's item table, replies and pushes are those of the message specification; other tables unchanged |
| LineWebhook.UnknownUserChangesNothing | app/api/line/webhook/route.ts:49-55 | an unregistered chat user gets the not-registered reply, no push, no change |
| LineWebhook.ListSendsOpenTasks | app/api/line/webhook/route.ts:65-100 | the list command changes nothing, replies once (the no-tasks text exactly when there are none) and pushes the formatted open tasks to the sender |
| LineWebhook.DoneTransition | app/api/line/webhook/route.ts:104-132 | `done` on a missing item or someone else's replies with an error and changes nothing; on one's own item it sets exactly that item completed |
| LineWebhook.HelpChangesNothing | app/api/line/webhook/route.ts:147-155 | any other text from a registered user gets the help reply and changes nothing |
| LineWebhook.HandleAllSkips | app/api/line/webhook/route.ts:21-23 | a non-text event adds nothing |
| LineWebhook.HandleAllHandles | app/api/line/webhook/route.ts:21-23 | a text event adds its message effect after the earlier events' |
| LineWebhook.NonTextEventsIgnored | app/api/line/webhook/route.ts:19-25 | removing a non-text event anywhere from the list changes no outcome |
| LineWebhookRoute.Post | app/api/line/webhook/route.ts:6-32 | a missing or empty signature gives 400, an unparsable body 500, both with nothing done; otherwise 200 with every event's effect applied in order |
| LineWebhookRoute.HandleEvents | app/api/line/webhook/route.ts:19-25 | the loop over events leaves the tables, replies and pushes of handling the events one after another |
| CardView.CompletedCountBounds | components/card.tsx:67-68 | the completed count is at most the total, equals it exactly when all are completed, and is 0 exactly when none is |
| CardView.NonNullAssignees | components/card.tsx:73-75 | exactly the non-null assignees of the items |
| CardView.FirstOccurrencesProps | components/card.tsx:76 | the filter keeps exactly the first assignee with each id, so ids are distinct |
| CardView.FindIndexSpec | components/card.tsx:76 | `findIndex` gives -1 exactly when no assignee has the id, and otherwise the first position carrying it |
| CardView.FirstOccurrencesOrder | components/card.tsx:76 | the kept assignees stand in strictly increasing order of their ids' first positions |
| CardView.AssigneesProps | components/card.tsx:73-77 | at most three avatars, distinct ids, each a non-null assignee and the first in checklist order with its id |
| CardView.AssigneesOrder | components/card.tsx:73-77 | the avatars appear in increasing order of their ids' first positions among the non-null assignees, and every distinct id not shown first occurs after all shown ones, so the shown ones are the first three distinct ids |
| CardView.PrefixInOrder | components/card.tsx:76-77 | any prefix of the de-duplicated assignees is in first-occurrence order |
| CardView.PrefixLeftOutLater | components/card.tsx:76-77 | an id a prefix of the de-duplicated assignees leaves out first occurs after every id in it |
| CardView.AssigneesComplete | components/card.tsx:73-77 | with at most three distinct assignees, every assignee's id is shown |
| CardView.Utf16 | components/card.tsx:43-44 | the code units `charCodeAt` reads are each below 2^16 |
| CardView.ToInt32 | components/card.tsx:44 | the 32-bit conversion of `<<` yields a signed 32-bit value congruent to its input |
| CardView.ColorIndex | components/card.tsx:46 | `Math.abs(hash) % 8` is a palette index |
| CardView.StringToColor | components/card.tsx:31-47 | the loop computes the palette entry of the string's hash, always one of the eight colours |
| CardView.HashBound | components/card.tsx:42-45 | the hash grows by at most 2^31 + 2^16 per code unit |
| CardView.EmptyNameColor | components/card.tsx:31-46 | the empty name gets "#7DD3FC" |
| LaneView.Insert | components/lane.tsx:85-90 | insertion keeps length and multiset, adding the card |
| LaneView.SortedCards | components/lane.tsx:85-90 | the sorted copy has the lane's cards with multiplicity |
| LaneView.InsertKeepsSorted | components/lane.tsx:85-90 | inserting into a sorted sequence keeps it sorted |
| LaneView.SortedCardsCorrect | components/lane.tsx:85-90 | the display order is sorted by the mode's key, a permutation of the lane's cards, and stable among equal keys |
| LaneView.SortedInputUnchanged | components/lane.tsx:85-90 | cards already in order are shown as they are |
| LaneView.AsWrittenViews | components/lane.tsx:89 | each stored card is seen by the priority comparator with one common key, since a difference of two priority names is NaN and compares as equal |
| LaneView.PrioritySortAsWritten | components/lane.tsx:85-90 | as written, priority mode shows the cards in the order the query returned them |
| LaneView.Rank | components/lane.tsx:89 | "LOW", "MEDIUM" and "HIGH" rank 1, 2 and 3 |
| LaneView.RankedViews | components/lane.tsx:89 | each stored card gets its priority's rank as its key |
| LaneView.RankedPrioritySort | components/lane.tsx:85-90 | sorting by rank shows every card once, by increasing rank, in query order among equal ranks |
| LaneView.PrioritySortExample | components/lane.tsx:85-90 | a "HIGH" card queried before a "LOW" one stays first as written and comes second when ranked |
| KanbanBoard.FindCard | components/kanban-board.tsx:120 | `find` returns the first card with the id, or none exactly when none has it |
| KanbanBoard.FindLane | components/kanban-board.tsx:142 | returns a lane with the id, or none exactly when none has it |
| KanbanBoard.HolderNone | components/kanban-board.tsx:119-127 | no holder exactly when no lane holds the id |
| KanbanBoard.HolderIndex | components/kanban-board.tsx:119-125 | the holder is the last lane holding the id, because later matches overwrite earlier ones |
| KanbanBoard.HolderStep | components/kanban-board.tsx:119-125 | each `forEach` step keeps the earlier holder unless this lane holds the id |
| KanbanBoard.FindHolder | components/kanban-board.tsx:119-125 | the loop returns the holder of the id |
| KanbanBoard.DragStartAgreesWithDragEnd | components/kanban-board.tsx:99-125 | with unique card ids, the drag-start lookup finds a card exactly when the drag-end loop does, and the same card |
| KanbanBoard.HandleDragEnd | components/kanban-board.tsx:107-166 | the handler's request is the drag-end decision |
| KanbanBoard.DragEndIgnores | components/kanban-board.tsx:111-145 | no request without a target, on a drop on itself, for an unknown dragged card, or for a target that is neither card nor lane |
| KanbanBoard.DropOnCard | components/kanban-board.tsx:133-150 | a drop on a card targets that card's lane and order, except a drop at the dragged card's own slot |
| KanbanBoard.DropOnLane | components/kanban-board.tsx:141-150 | a drop on a lane targets it at its card count, except when that is the dragged card's own slot |
| KanbanBoard.RequestContents | components/kanban-board.tsx:147-161 | a request carries the dragged id, an existing target lane and the computed order, never the card's own slot |
| KanbanBoard.MovePatch | components/kanban-board.tsx:153-161 | the request body is a card PUT carrying only id, lane and order |
| KanbanBoard.OwnLaneDropBreaksDense | components/kanban-board.tsx:141-150 | dropping a card on its own lane's area sends order n, which the card PUT accepts with 200 and which leaves the lane not dense |
| KanbanBoard.CorrectedDiffersOnlyOnOwnLane | components/kanban-board.tsx:141-150 | the corrected decision agrees with the original everywhere except a lane drop onto the card's own lane |
| KanbanBoard.CorrectedMoveKeepsDense | components/kanban-board.tsx:141-161 | every corrected request, applied to a store that mirrors a dense board, succeeds and keeps both lanes dense |

## Left out

- A JSON `null` in a request body is modelled as the empty string. Wherever a handler tests truthiness (every POST field, every `id`, the webhook's fields) the two are equally falsy, so nothing is lost there. The PUT handlers instead test `!== undefined` and write the value as given; the next three lines say what the model then does not capture.
- CardsRoute.Patched: a PUT field sent as `null` is modelled as `Some("")`, so the model writes "" and answers 200. The handler passes `null` to `card.update` (app/api/cards/route.ts:76-78); for the required `title` and `priority` that update throws and the answer is 500, after any order shifts of the same request. For the nullable `description` the stored `null` is modelled as "". `laneId: null` or `order: null` cannot be expressed.
- LanesRoute.PatchedLane: a `title` sent as `null` is written as "" with 200 in the model. The handler passes `null` to `lane.update` (app/api/lanes/route.ts:58-59), which throws on the required column and answers 500. `order: null` cannot be expressed.
- ChecklistRoute.PatchedItem: a `text` sent as `null` is written as "" with 200 in the model. The handler passes `null` to `checklistItem.update` (app/api/checklist/route.ts:81-82), which throws on the required column and answers 500. `completed: null` cannot be expressed in the model's `Option<bool>`.
- The schema file is not part of this model. It is modelled with these defaults:
  - foreign keys are enforced, so a dangling `laneId`, `boardId`, `cardId` or assignee gives an exception and status 500;
  - deletes cascade from lane to card and from card to item;
  - `update` and `delete` on a missing id throw;
  - `completed` defaults to false;
  - nothing makes (lane, order) unique.
- Database outages, malformed JSON bodies and any other exception besides the ones named above are not modelled. Every handler maps them to 500 in its catch.
- LanesRoute.Put: a PUT on an unknown id gives 500, not 404, because `lane.update` throws.
- The card PUT's awaits are not wrapped in a transaction, and the webhook runs its events with `Promise.all`. Both are modelled as sequential steps, one request at a time: the shifts persist when the final update fails, and the events are handled in list order.
- `findMany` and the board query return rows in table order in this model. The database gives no order guarantee.
- Chat replies and pushes are returned as values. Calls to the platform client, its failures, and `getLineClient` are not modelled.
- The `catch` around the `done` update in the webhook is not modelled. The update targets an item that was just found.
- LineWebhookRoute.Post checks only that `x-line-signature` is present, as the handler does. `verifySignature` (HMAC-SHA256) is never called by the handler and is not modelled.
- LineWebhook.Lower lower-cases ASCII letters only. `toLowerCase` also maps non-ASCII letters. The commands and Thai phrases are unaffected.
- `sendTaskAssignmentNotification`, the push text in `lib/line.ts`, is not modelled. A notification is the triple of chat id, card title and item text. The Thai literals of `lib/line.ts` are stored mis-encoded (UTF-8 bytes read as Mac Roman). The strings in `LineFormat` are the decoded text, which agrees with the webhook's own copy of the no-tasks message.
- CardView.StringToColor models `hash` as an unbounded integer. Only the `<<` goes through ToInt32; the additions are modelled as exact. That is exact for strings shorter than 2^53 / (2^31 + 2^16) code units (see CardView.HashBound). Beyond that length, rounding of doubles is not modelled.
- LaneView.SortedCards models `Array.prototype.sort` as a stable insertion sort. A stable sort's result is determined by its comparator.
- `lane.tsx` declares `priority` numeric, while the card endpoints store the strings "LOW", "MEDIUM" and "HIGH". LaneView.SortedCards follows the numeric declaration; what the comparator does on the stored strings is under "## Findings". The lane's own create request sends the number `priority: 2`, which `priority || "MEDIUM"` stores unchanged; CardsRoute.NewCard takes `priority` as a string and cannot express a number.
- The drag handlers model a missing board (`board?`) as a board with no lanes. `activeCard` and `sourceLane` are found together, so they are modelled as one result (`Hit`).
- The session (`requireAuth`), OAuth sign-in, the board and user endpoints, and all rendering are not modelled. An unauthenticated call is a 500 with no change.

## Findings

| source | as written | input that shows it | evidently intended | confidence | as-written member | corrected member |
|---|---|---|---|---|---|---|
| components/kanban-board.tsx:141-150 | a drop on a lane's own droppable area sends `order = targetLane.cards.length`, even when the dragged card is already in that lane | lane with cards at orders 0, 1, 2; drag the card at order 0 onto its own lane: the request has order 3, the card PUT moves it down and decrements orders 1 and 2, and the lane becomes 0, 1, 3 | a drop on the card's own lane sends the last position, `cards.length - 1` | not executed | KanbanBoard.OwnLaneDropBreaksDense | KanbanBoard.CorrectedMoveKeepsDense |
| components/lane.tsx:89 | priority mode sorts with `a.priority - b.priority`, but the stored priorities are the names "LOW", "MEDIUM" and "HIGH" | a lane with a "HIGH" card before a "LOW" card: both differences are NaN, the sort treats every pair as equal, and toggling priority mode leaves the order unchanged | sort by rank, LOW = 1, MEDIUM = 2, HIGH = 3 (the lane's create request sends 2 for the default "MEDIUM") | not executed | LaneView.PrioritySortAsWritten | LaneView.RankedPrioritySort |
