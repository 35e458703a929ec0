/** `formatTaskList` in lib/line.ts: the chat message listing a user's open tasks. */
module LineFormat {
  import opened Common

  /** A task as the webhook passes it: item id, item text and its card's title. */
  datatype Task = Task(id: Id, text: string, cardTitle: string)

  /** The whole message for an empty list. */
  const NoTasksMessage: string := "วันนี้ยังไม่มีงานค้างเลยนะ ✨ เก่งมาก!"

  /** The instruction every non-empty list ends with. */
  const Footer: string := "ถ้าทำเสร็จแล้ว พิมพ์แบบนี้ได้เลยน้า:\ndone {taskId}"

  /** The first line, embedding the number of tasks. */
  function Header(n: nat): string
  {
    "📌 งานที่เธอยังต้องทำมี " + NatToString(n) + " งานนะ:\n\n"
  }

  /** The entry of the task at position `index`, numbered from 1. */
  function Entry(index: nat, t: Task): string
  {
    NatToString(index + 1) + ". " + t.cardTitle + "\n   └ " + t.text + "\n   ID: " + t.id + "\n\n"
  }

  /** The entries of `ts`, in order. */
  function Entries(ts: seq<Task>): string
  {
    if ts == [] then "" else Entries(ts[..|ts| - 1]) + Entry(|ts| - 1, ts[|ts| - 1])
  }

  /** The message `formatTaskList` returns for `ts`. */
  function TaskListMessage(ts: seq<Task>): string
  {
    if |ts| == 0 then NoTasksMessage else Header(|ts|) + Entries(ts) + Footer
  }

  method FormatTaskList(tasks: seq<Task>) returns (message: string)
    ensures message == TaskListMessage(tasks)
  {
    if |tasks| == 0 {
      return NoTasksMessage;
    }
    message := Header(|tasks|);
    var index := 0;
    while index < |tasks|
      invariant 0 <= index <= |tasks|
      invariant message == Header(|tasks|) + Entries(tasks[..index])
    {
      EntriesStep(tasks, index);
      AppendAssoc(Header(|tasks|), Entries(tasks[..index]), Entry(index, tasks[index]));
      message := message + Entry(index, tasks[index]);
      index := index + 1;
    }
    assert tasks[..index] == tasks;
    message := message + Footer;
  }

  /** One more task appends its entry. */
  lemma EntriesStep(ts: seq<Task>, i: nat)
    requires i < |ts|
    ensures Entries(ts[..i + 1]) == Entries(ts[..i]) + Entry(i, ts[i])
  {
    assert ts[..i + 1][..i] == ts[..i];
  }

  lemma AppendAssoc(a: string, b: string, c: string)
    ensures (a + b) + c == a + (b + c)
  {
  }

  /** The empty list yields exactly the fixed message; any other list starts with
      the header carrying its length and ends with the footer. */
  lemma MessageShape(ts: seq<Task>)
    ensures ts == [] ==> TaskListMessage(ts) == NoTasksMessage
    ensures ts != [] ==> Header(|ts|) <= TaskListMessage(ts)
    ensures ts != [] ==> TaskListMessage(ts)[|TaskListMessage(ts)| - |Footer|..] == Footer
  {
    if ts != [] {
      var m := TaskListMessage(ts);
      assert m == (Header(|ts|) + Entries(ts)) + Footer;
    }
  }

  /** The entries of a prefix of the list are a prefix of the entries of the list. */
  lemma {:induction false} EntriesPrefix(ts: seq<Task>, j: nat)
    requires j <= |ts|
    ensures Entries(ts[..j]) <= Entries(ts)
    decreases |ts| - j
  {
    if j < |ts| {
      EntriesPrefix(ts, j + 1);
      assert ts[..j + 1][..j] == ts[..j];
      assert Entries(ts[..j + 1]) == Entries(ts[..j]) + Entry(j, ts[j]);
    } else {
      assert ts[..j] == ts;
    }
  }

  /** Task i contributes its own numbered entry, right after the entries of the
      tasks before it: the entries appear once each, in input order. */
  lemma EntryInOrder(ts: seq<Task>, i: nat)
    requires i < |ts|
    ensures var off := |Entries(ts[..i])|;
      off + |Entry(i, ts[i])| <= |Entries(ts)|
      && Entries(ts)[off..off + |Entry(i, ts[i])|] == Entry(i, ts[i])
  {
    EntriesStep(ts, i);
    EntriesPrefix(ts, i + 1);
    InfixOfPrefix(Entries(ts), Entries(ts[..i]), Entry(i, ts[i]));
  }

  /** When `pre + e` is a prefix of `all`, `e` sits in `all` right after `pre`. */
  lemma InfixOfPrefix(all: string, pre: string, e: string)
    requires pre + e <= all
    ensures |pre| + |e| <= |all| && all[|pre|..|pre| + |e|] == e
  {
    assert all[|pre|..|pre| + |e|] == (pre + e)[|pre|..];
  }

  /** Each entry starts with the task's number and carries its card title, text and id. */
  lemma EntryFields(index: nat, t: Task)
    ensures NatToString(index + 1) + ". " <= Entry(index, t)
    ensures var pre := NatToString(index + 1) + ". ";
      Entry(index, t)[|pre|..|pre| + |t.cardTitle|] == t.cardTitle
    ensures var pre := NatToString(index + 1) + ". " + t.cardTitle + "\n   └ ";
      Entry(index, t)[|pre|..|pre| + |t.text|] == t.text
    ensures var pre := NatToString(index + 1) + ". " + t.cardTitle + "\n   └ " + t.text + "\n   ID: ";
      Entry(index, t)[|pre|..|pre| + |t.id|] == t.id
  {
  }
}
