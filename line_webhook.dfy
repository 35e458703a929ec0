/** The chat webhook: a POST carrying platform events, of which text messages
    are commands from a registered user — list my open tasks, mark a task done,
    or anything else for help. Replies and pushes are returned as values. */
module LineWebhook {
  import opened Common
  import opened Store
  import opened LineFormat

  // ---------------------------------------------------------------------------
  // String helpers: `String.prototype.trim`, `toLowerCase`, `includes`, `startsWith`

  /** ECMAScript WhiteSpace and LineTerminator code points, which `trim` removes. */
  predicate IsSpace(c: char)
  {
    || (9 <= c as int <= 13)                  // tab, line feed, vertical tab, form feed, carriage return
    || c as int == 0x20 || c as int == 0xA0   // space, no-break space
    || c as int == 0x1680                     // ogham space mark
    || (0x2000 <= c as int <= 0x200A)         // en quad .. hair space
    || c as int == 0x2028 || c as int == 0x2029 // line and paragraph separators
    || c as int == 0x202F || c as int == 0x205F || c as int == 0x3000
    || c as int == 0xFEFF                     // byte order mark
  }

  function TrimStart(s: string): (r: string)
    ensures |r| <= |s| && r == s[|s| - |r|..]
    ensures r != [] ==> !IsSpace(r[0])
    ensures forall i :: 0 <= i < |s| - |r| ==> IsSpace(s[i])
  {
    if s != [] && IsSpace(s[0]) then TrimStart(s[1..]) else s
  }

  function TrimEnd(s: string): (r: string)
    ensures |r| <= |s| && r == s[..|r|]
    ensures r != [] ==> !IsSpace(r[|r| - 1])
    ensures forall i :: |r| <= i < |s| ==> IsSpace(s[i])
  {
    if s != [] && IsSpace(s[|s| - 1]) then TrimEnd(s[..|s| - 1]) else s
  }

  /** `s.trim()`. */
  function Trim(s: string): (r: string)
  {
    TrimEnd(TrimStart(s))
  }

  /** `trim` removes an all-space prefix and suffix and nothing else. */
  lemma TrimIsSlice(s: string) returns (a: nat, b: nat)
    ensures a <= b <= |s| && Trim(s) == s[a..b]
    ensures forall i :: 0 <= i < a ==> IsSpace(s[i])
    ensures forall i :: b <= i < |s| ==> IsSpace(s[i])
  {
    var t := TrimStart(s);
    a := |s| - |t|;
    var r := TrimEnd(t);
    b := a + |r|;
    SliceOfSuffix(s, a, r);
  }

  /** A space-only tail of the suffix `s[a..]` is a space-only tail of `s`. */
  lemma SliceOfSuffix(s: string, a: nat, r: string)
    requires a <= |s| && |r| <= |s| - a && r == s[a..][..|r|]
    requires forall i :: |r| <= i < |s| - a ==> IsSpace(s[a..][i])
    ensures r == s[a..a + |r|]
    ensures forall i :: a + |r| <= i < |s| ==> IsSpace(s[i])
  {
    forall i | a + |r| <= i < |s| ensures IsSpace(s[i]) {
      assert s[a..][i - a] == s[i];
    }
  }

  /** The result of `trim` neither starts nor ends with a space, so trimming twice
      changes nothing. */
  lemma TrimIdempotent(s: string)
    ensures Trim(s) != [] ==> !IsSpace(Trim(s)[0]) && !IsSpace(Trim(s)[|Trim(s)| - 1])
    ensures Trim(Trim(s)) == Trim(s)
  {
    var t := TrimStart(s);
    var r := TrimEnd(t);
    if r != [] {
      assert r[0] == t[0];
      TrimStartKeeps(r);
      TrimEndKeeps(r);
    }
  }

  /** A string with no space at either end is its own trim. */
  lemma TrimKeepsUnpadded(r: string)
    requires r != [] && !IsSpace(r[0]) && !IsSpace(r[|r| - 1])
    ensures Trim(r) == r
  {
    TrimStartKeeps(r);
    TrimEndKeeps(r);
  }

  lemma TrimStartKeeps(r: string)
    requires r != [] && !IsSpace(r[0])
    ensures TrimStart(r) == r
  {
  }

  lemma TrimEndKeeps(r: string)
    requires r != [] && !IsSpace(r[|r| - 1])
    ensures TrimEnd(r) == r
  {
  }

  /** `toLowerCase` on ASCII letters; every other character is kept. */
  function LowerChar(c: char): char
  {
    if 'A' <= c <= 'Z' then (c as int + 32) as char else c
  }

  function Lower(s: string): (r: string)
    ensures |r| == |s|
    ensures forall i :: 0 <= i < |r| ==> r[i] == LowerChar(s[i])
  {
    seq(|s|, i requires 0 <= i < |s| => LowerChar(s[i]))
  }

  /** A lowered string holds no upper-case ASCII letter. */
  lemma LowerHasNoUpper(s: string)
    ensures forall i :: 0 <= i < |Lower(s)| ==> !('A' <= Lower(s)[i] <= 'Z')
  {
  }

  /** `s.includes(p)`. */
  predicate Contains(s: string, p: string)
  {
    p <= s || (s != [] && Contains(s[1..], p))
  }

  /** An occurrence found by `includes` sits at some offset of `s`. */
  lemma {:induction false} ContainsWitness(s: string, p: string) returns (i: nat)
    requires Contains(s, p)
    ensures i + |p| <= |s| && s[i..i + |p|] == p
  {
    if p <= s {
      i := 0;
    } else {
      var k := ContainsWitness(s[1..], p);
      assert s[k + 1..k + 1 + |p|] == s[1..][k..k + |p|];
      i := k + 1;
    }
  }

  /** ... and every occurrence at an offset is found. */
  lemma {:induction false} ContainsFromWitness(s: string, p: string, i: nat)
    requires i + |p| <= |s| && s[i..i + |p|] == p
    ensures Contains(s, p)
  {
    if i == 0 {
      assert p <= s;
    } else {
      assert s[1..][i - 1..i - 1 + |p|] == s[i..i + |p|];
      ContainsFromWitness(s[1..], p, i - 1);
    }
  }

  /** A string can contain `p` only when it holds the first character of `p`. */
  lemma {:induction false} ContainsNeedsFirstChar(s: string, p: string)
    requires p != [] && p[0] !in s
    ensures !Contains(s, p)
  {
    if Contains(s, p) {
      var i := ContainsWitness(s, p);
    }
  }

  // ---------------------------------------------------------------------------
  // Command classification

  datatype Command = ListTasks | Done(taskId: string) | Help

  /** Whether a normalised message asks for the task list. */
  predicate AsksForTasks(m: string)
  {
    m == "my tasks" || m == "My tasks" || Contains(m, "งานของ") || Contains(m, "งานอะไร") || Contains(m, "งานไหน")
  }

  /** The command a text message selects: it is trimmed and lowered, the list test
      comes first, then a `done ` prefix whose remainder, trimmed, is the task id. */
  function Classify(text: string): Command
  {
    var m := Lower(Trim(text));
    if AsksForTasks(m) then ListTasks
    else if "done " <= m then Done(Trim(m[5..]))
    else Help
  }

  /** The `"My tasks"` test never decides anything: it can match only a string
      holding an upper-case letter, which a lowered message does not. */
  lemma CapitalisedTestUnreachable(text: string)
    ensures Lower(Trim(text)) != "My tasks"
    ensures Classify(text) == ListTasks <==>
      var m := Lower(Trim(text));
      m == "my tasks" || Contains(m, "งานของ") || Contains(m, "งานอะไร") || Contains(m, "งานไหน")
  {
    var m := Lower(Trim(text));
    if |m| > 0 {
      assert m[0] != 'M';
    }
  }

  /** The three outcomes of classification, each stated outright. */
  lemma ClassifyCases(text: string)
    ensures var m := Lower(Trim(text));
      && (Classify(text) == ListTasks <==> AsksForTasks(m))
      && (Classify(text).Done? <==> !AsksForTasks(m) && "done " <= m)
      && (Classify(text).Done? ==> Classify(text).taskId == Trim(m[5..]))
      && (Classify(text) == Help <==> !AsksForTasks(m) && !("done " <= m))
  {
  }

  /** Case is folded before the comparison. */
  lemma ClassifyCapitalised()
    ensures Classify("My Tasks") == ListTasks
  {
    CapitalisedNormalised();
    ClassifyCases("My Tasks");
  }

  lemma CapitalisedNormalised()
    ensures Lower(Trim("My Tasks")) == "my tasks"
  {
    TrimKeepsUnpadded("My Tasks");
    CapitalisedLowered();
  }

  lemma CapitalisedLowered()
    ensures Lower("My Tasks") == "my tasks"
  {
  }

  /** The list test precedes the done test: a `done` message that also contains a
      task phrase lists tasks. */
  lemma ClassifyListBeforeDone()
    ensures Classify("done งานของ") == ListTasks
  {
    ListBeforeDoneNormalised();
    ListPhraseFound();
    ClassifyCases("done งานของ");
  }

  lemma ListBeforeDoneNormalised()
    ensures Lower(Trim("done งานของ")) == "done งานของ"
  {
    TrimKeepsUnpadded("done งานของ");
    ListBeforeDoneLowered();
  }

  lemma ListBeforeDoneLowered()
    ensures Lower("done งานของ") == "done งานของ"
  {
    var t := "done งานของ";
    forall i | 0 <= i < |t| ensures LowerChar(t[i]) == t[i] { }
  }

  lemma ListPhraseFound()
    ensures Contains("done งานของ", "งานของ")
  {
    var t := "done งานของ";
    assert t[5..5 + |"งานของ"|] == "งานของ";
    ContainsFromWitness(t, "งานของ", 5);
  }

  /** No upper-case ASCII letter occurs in `s`. */
  predicate NoUpper(s: string)
  {
    forall i :: 0 <= i < |s| ==> !('A' <= s[i] <= 'Z')
  }

  /** Trimming cuts a slice, so it keeps a string free of upper-case letters. */
  lemma TrimKeepsNoUpper(s: string)
    requires NoUpper(s)
    ensures NoUpper(Trim(s))
  {
    var t := TrimStart(s);
    assert NoUpper(t) by {
      forall i | 0 <= i < |t| ensures !('A' <= t[i] <= 'Z') {
        assert t[i] == s[|s| - |t| + i];
      }
    }
    var r := TrimEnd(t);
    forall i | 0 <= i < |r| ensures !('A' <= r[i] <= 'Z') {
      assert r[i] == t[i];
    }
  }

  /** The task id of a done command is cut from the lowered message, so it holds
      no upper-case ASCII letter: an item whose id does can never be completed
      this way. */
  lemma DoneIdIsLowerCase(text: string)
    requires Classify(text).Done?
    ensures NoUpper(Classify(text).taskId)
  {
    var m := Lower(Trim(text));
    assert |m| >= 5 && Classify(text).taskId == Trim(m[5..]) by {
      ClassifyCases(text);
    }
    LoweredSuffixTrimmed(Trim(text), 5);
  }

  /** A trimmed suffix of a lowered string holds no upper-case letter. */
  lemma LoweredSuffixTrimmed(s: string, k: nat)
    requires k <= |s|
    ensures NoUpper(Trim(Lower(s)[k..]))
  {
    var m := Lower(s);
    var rest := m[k..];
    assert NoUpper(rest) by {
      forall i | 0 <= i < |rest| ensures !('A' <= rest[i] <= 'Z') {
        assert rest[i] == m[k + i];
      }
    }
    TrimKeepsNoUpper(rest);
  }

  /** A bare `done ` loses its space to `trim` and is no done command. */
  lemma ClassifyBareDone()
    ensures Classify("done ") == Help
  {
    BareDoneNormalised();
    BareDoneAsksNothing();
    ClassifyCases("done ");
  }

  lemma BareDoneNormalised()
    ensures Lower(Trim("done ")) == "done"
  {
    BareDoneTrimmed();
    BareDoneLowered();
  }

  lemma BareDoneTrimmed()
    ensures Trim("done ") == "done"
  {
    assert TrimStart("done ") == "done " by { TrimStartKeeps("done "); }
    assert TrimEnd("done ") == "done" by { TrimEndKeeps("done"); }
  }

  lemma BareDoneLowered()
    ensures Lower("done") == "done"
  {
  }

  lemma BareDoneAsksNothing()
    ensures !AsksForTasks("done")
  {
    ContainsNeedsFirstChar("done", "งานของ");
    ContainsNeedsFirstChar("done", "งานอะไร");
    ContainsNeedsFirstChar("done", "งานไหน");
  }

  // ---------------------------------------------------------------------------
  // Replies

  const NotRegisteredReply: string := "ไอรินยังไม่รู้จักเธอเลยนะ 🥺\nไปล็อกอินใน Irin Task Board ก่อนน้า แล้วค่อยกลับมาคุยกันอีกทีนะ"
  const LookingReply: string := "เดี๋ยวไอรินดูงานให้แป๊บนึงนะ 👀"
  const NotFoundReply: string := "ไอรินหางานนี้ไม่เจอเลย 😢 ลองเช็ก task id อีกทีน้า"
  const NotYoursReply: string := "งานนี้ไม่ได้มอบหมายให้เธอนะ 🤔"
  const HelpReply: string := "ไอรินช่วยได้ประมาณนี้นะ 👇\n\n" + "• my tasks — ดูงานที่ต้องทำ\n"
                             + "• done {taskId} — บอกว่างานเสร็จแล้ว\n\n" + "ลองพิมพ์ดูได้เลยน้า ✨"

  function DoneReply(cardTitle: string, text: string): string
  {
    "เสร็จแล้วใช่มั้ย เก่งมากเลย ✨\n\nการ์ด: " + cardTitle + "\nงาน: " + text
  }

  /** A push message to a chat user. */
  datatype Push = Push(to: string, text: string)

  // ---------------------------------------------------------------------------
  // Task listing and the done transition

  /** `checklistItem.findMany({ where: { assignedToUserId: userId, completed: false } })`,
      in table order. */
  function OpenTasks(xs: seq<ChecklistItem>, userId: Id): (r: seq<ChecklistItem>)
    ensures forall x :: x in r <==> x in xs && x.assignedToUserId == Some(userId) && !x.completed
    ensures |r| <= |xs|
  {
    if xs == [] then []
    else
      var rest := OpenTasks(xs[1..], userId);
      assert forall x :: x in xs <==> x == xs[0] || x in xs[1..];
      if xs[0].assignedToUserId == Some(userId) && !xs[0].completed then [xs[0]] + rest else rest
  }

  /** The title of card `cardId`, which a consistent store always has. */
  function CardTitle(cs: seq<Card>, cardId: Id): string
  {
    match IndexOf(CardIds(cs), cardId)
      case None => ""
      case Some(k) => cs[k].title
  }

  /** The tasks handed to `formatTaskList`: id, text and card title of each item. */
  function AsTasks(cs: seq<Card>, xs: seq<ChecklistItem>): (r: seq<Task>)
    ensures |r| == |xs|
    ensures forall i :: 0 <= i < |xs| ==> r[i] == Task(xs[i].id, xs[i].text, CardTitle(cs, xs[i].cardId))
  {
    seq(|xs|, i requires 0 <= i < |xs| => Task(xs[i].id, xs[i].text, CardTitle(cs, xs[i].cardId)))
  }

  /** What one text message does: the item table afterwards, and the replies and
      pushes it sends. */
  datatype Effect = Effect(items: seq<ChecklistItem>, replies: seq<string>, pushes: seq<Push>)

  /** `findUnique({ where: { lineUserId } })`. */
  function UserByLineId(us: seq<User>, lineUserId: string): (r: Option<User>)
    ensures r.Some? <==> lineUserId in LineUserIds(us)
    ensures r.Some? ==> r.value in us && r.value.lineUserId == lineUserId
  {
    match IndexOf(LineUserIds(us), lineUserId)
      case None => None
      case Some(k) => Some(us[k])
  }

  /** `handleTextMessage` for a message from chat user `lineUserId` whose text
      classifies as `command`. */
  function HandleSpec(us: seq<User>, cs: seq<Card>, xs: seq<ChecklistItem>, lineUserId: Option<string>, command: Command): Effect
  {
    if !Truthy(lineUserId) then Effect(xs, [], [])
    else match UserByLineId(us, lineUserId.value)
      case None => Effect(xs, [NotRegisteredReply], [])
      case Some(user) =>
        match command
          case ListTasks =>
            var tasks := OpenTasks(xs, user.id);
            Effect(xs, [if |tasks| == 0 then NoTasksMessage else LookingReply],
                   [Push(lineUserId.value, TaskListMessage(AsTasks(cs, tasks)))])
          case Done(taskId) => DoneSpec(cs, xs, user, taskId)
          case Help => Effect(xs, [HelpReply], [])
  }

  /** The `done` transition for `user` and item id `taskId`. */
  function DoneSpec(cs: seq<Card>, xs: seq<ChecklistItem>, user: User, taskId: Id): Effect
  {
    match IndexOf(ItemIds(xs), taskId)
      case None => Effect(xs, [NotFoundReply], [])
      case Some(k) =>
        if xs[k].assignedToUserId != Some(user.id) then Effect(xs, [NotYoursReply], [])
        else Effect(xs[k := xs[k].(completed := true)], [DoneReply(CardTitle(cs, xs[k].cardId), xs[k].text)], [])
  }

  method HandleTextMessage(db: Database, lineUserId: Option<string>, text: string)
    returns (replies: seq<string>, pushes: seq<Push>)
    requires db.Valid()
    modifies db
    ensures db.Valid()
    ensures Effect(db.items, replies, pushes) == HandleSpec(old(db.users), old(db.cards), old(db.items), lineUserId, Classify(text))
    ensures db.boards == old(db.boards) && db.lanes == old(db.lanes) && db.cards == old(db.cards) && db.users == old(db.users)
  {
    if !Truthy(lineUserId) {
      return [], [];
    }
    var user := UserByLineId(db.users, lineUserId.value);
    if user.None? {
      return [NotRegisteredReply], [];
    }
    var command := Classify(text);
    match command
    case ListTasks =>
      var tasks := OpenTasks(db.items, user.value.id);
      var reply := if |tasks| == 0 then NoTasksMessage else LookingReply;
      var message := FormatTaskList(AsTasks(db.cards, tasks));
      return [reply], [Push(lineUserId.value, message)];
    case Done(taskId) =>
      var found := IndexOf(ItemIds(db.items), taskId);
      if found.None? {
        return [NotFoundReply], [];
      }
      var task := db.items[found.value];
      if task.assignedToUserId != Some(user.value.id) {
        return [NotYoursReply], [];
      }
      db.UpdateItem(found.value, task.(completed := true));
      return [DoneReply(CardTitle(db.cards, task.cardId), task.text)], [];
    case Help =>
      return [HelpReply], [];
  }

  /** A message from an unregistered chat user only gets the registration reply. */
  lemma UnknownUserChangesNothing(us: seq<User>, cs: seq<Card>, xs: seq<ChecklistItem>, lineUserId: string, command: Command)
    requires lineUserId != "" && lineUserId !in LineUserIds(us)
    ensures HandleSpec(us, cs, xs, Some(lineUserId), command) == Effect(xs, [NotRegisteredReply], [])
  {
  }

  /** The list command changes nothing, replies once and pushes the formatted list
      of exactly the user's open items, in table order. */
  lemma ListSendsOpenTasks(us: seq<User>, cs: seq<Card>, xs: seq<ChecklistItem>, u: User)
    requires NoDuplicates(LineUserIds(us)) && u in us && u.lineUserId != ""
    ensures var e := HandleSpec(us, cs, xs, Some(u.lineUserId), ListTasks);
      && e.items == xs && |e.replies| == 1
      && e.pushes == [Push(u.lineUserId, TaskListMessage(AsTasks(cs, OpenTasks(xs, u.id))))]
      && (e.replies[0] == NoTasksMessage <==> OpenTasks(xs, u.id) == [])
  {
    var i :| 0 <= i < |us| && us[i] == u;
    assert LineUserIds(us)[i] == u.lineUserId;
    IndexOfUnique(LineUserIds(us), i);
    assert LookingReply != NoTasksMessage by {
      assert LookingReply[0] != NoTasksMessage[0];
    }
  }

  /** `done X` completes item X exactly when it exists and is assigned to the
      sender; then only that item's `completed` changes. Otherwise nothing changes. */
  lemma DoneTransition(us: seq<User>, cs: seq<Card>, xs: seq<ChecklistItem>, u: User, id: Id)
    requires NoDuplicates(LineUserIds(us)) && NoDuplicates(ItemIds(xs)) && u in us && u.lineUserId != ""
    ensures var e := HandleSpec(us, cs, xs, Some(u.lineUserId), Done(id));
      && (id !in ItemIds(xs) ==> e == Effect(xs, [NotFoundReply], []))
      && (forall k :: 0 <= k < |xs| && xs[k].id == id && xs[k].assignedToUserId != Some(u.id)
            ==> e == Effect(xs, [NotYoursReply], []))
      && (forall k :: 0 <= k < |xs| && xs[k].id == id && xs[k].assignedToUserId == Some(u.id)
            ==> e.items == xs[k := xs[k].(completed := true)] && e.pushes == [])
  {
    var i :| 0 <= i < |us| && us[i] == u;
    assert LineUserIds(us)[i] == u.lineUserId;
    IndexOfUnique(LineUserIds(us), i);
    forall k | 0 <= k < |xs| && xs[k].id == id
      ensures IndexOf(ItemIds(xs), id) == Some(k)
    {
      assert ItemIds(xs)[k] == xs[k].id;
      IndexOfUnique(ItemIds(xs), k);
    }
  }

  /** Any other text gets the help reply and changes nothing. */
  lemma HelpChangesNothing(us: seq<User>, cs: seq<Card>, xs: seq<ChecklistItem>, lineUserId: string)
    requires lineUserId in LineUserIds(us) && lineUserId != ""
    ensures HandleSpec(us, cs, xs, Some(lineUserId), Help) == Effect(xs, [HelpReply], [])
  {
  }

  // ---------------------------------------------------------------------------
  // The event list of a webhook call

  /** A platform event; `text` matters only for a text message. */
  datatype Event = Event(eventType: string, messageType: string, sourceUserId: Option<string>, text: string)

  predicate IsTextMessage(e: Event)
  {
    e.eventType == "message" && e.messageType == "text"
  }

  /** The events handled one after another; non-text events do nothing. */
  function HandleAll(us: seq<User>, cs: seq<Card>, xs: seq<ChecklistItem>, evs: seq<Event>): Effect
  {
    if evs == [] then Effect(xs, [], [])
    else
      var before := HandleAll(us, cs, xs, evs[..|evs| - 1]);
      var e := evs[|evs| - 1];
      if !IsTextMessage(e) then before
      else
        var step := HandleSpec(us, cs, before.items, e.sourceUserId, Classify(e.text));
        Effect(step.items, before.replies + step.replies, before.pushes + step.pushes)
  }

  /** A non-text event adds nothing to the outcome. */
  lemma HandleAllSkips(us: seq<User>, cs: seq<Card>, xs: seq<ChecklistItem>, evs: seq<Event>, i: nat)
    requires i < |evs| && !IsTextMessage(evs[i])
    ensures HandleAll(us, cs, xs, evs[..i + 1]) == HandleAll(us, cs, xs, evs[..i])
  {
    assert evs[..i + 1][..i] == evs[..i];
  }

  /** A text event is handled on the items the earlier events left, and its
      replies and pushes follow theirs. */
  lemma HandleAllHandles(us: seq<User>, cs: seq<Card>, xs: seq<ChecklistItem>, evs: seq<Event>, i: nat, before: Effect, step: Effect)
    requires i < |evs| && IsTextMessage(evs[i])
    requires before == HandleAll(us, cs, xs, evs[..i])
    requires step == HandleSpec(us, cs, before.items, evs[i].sourceUserId, Classify(evs[i].text))
    ensures HandleAll(us, cs, xs, evs[..i + 1]) == Effect(step.items, before.replies + step.replies, before.pushes + step.pushes)
  {
    assert evs[..i + 1][..i] == evs[..i];
  }

  /** Events other than text messages leave the outcome as if they were absent. */
  lemma {:induction false} NonTextEventsIgnored(us: seq<User>, cs: seq<Card>, xs: seq<ChecklistItem>, evs: seq<Event>, e: Event, rest: seq<Event>)
    requires !IsTextMessage(e)
    ensures HandleAll(us, cs, xs, evs + [e] + rest) == HandleAll(us, cs, xs, evs + rest)
    decreases |rest|
  {
    if rest == [] {
      assert (evs + [e] + rest)[..|evs + [e] + rest| - 1] == evs;
      assert evs + rest == evs;
    } else {
      var init := rest[..|rest| - 1];
      NonTextEventsIgnored(us, cs, xs, evs, e, init);
      assert (evs + [e] + rest)[..|evs + [e] + rest| - 1] == evs + [e] + init;
      assert (evs + rest)[..|evs + rest| - 1] == evs + init;
      assert (evs + [e] + rest)[|evs + [e] + rest| - 1] == rest[|rest| - 1];
      assert (evs + rest)[|evs + rest| - 1] == rest[|rest| - 1];
    }
  }
}
