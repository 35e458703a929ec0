/** What a card tile derives from its record: the checklist counters, the
    de-duplicated assignee avatars, and each avatar's palette colour. */
module CardView {
  import opened Common

  /** The user an item is assigned to, as the board query includes it. */
  datatype Assignee = Assignee(id: Id, name: string, avatarUrl: Option<string>)

  /** A checklist item as the card tile receives it. */
  datatype ViewItem = ViewItem(id: Id, text: string, completed: bool, assignedTo: Option<Assignee>)

  // ---------------------------------------------------------------------------
  // completedCount / totalCount

  /** `checklists.filter((c) => c.completed).length`. */
  function CompletedCount(xs: seq<ViewItem>): nat
  {
    if xs == [] then 0 else CompletedCount(xs[..|xs| - 1]) + (if xs[|xs| - 1].completed then 1 else 0)
  }

  /** The completed count never exceeds the total, and reaches it exactly when
      every item is completed; it is 0 exactly when none is. */
  lemma {:induction false} CompletedCountBounds(xs: seq<ViewItem>)
    ensures CompletedCount(xs) <= |xs|
    ensures CompletedCount(xs) == |xs| <==> forall i :: 0 <= i < |xs| ==> xs[i].completed
    ensures CompletedCount(xs) == 0 <==> forall i :: 0 <= i < |xs| ==> !xs[i].completed
  {
    if xs != [] {
      var init := xs[..|xs| - 1];
      CompletedCountBounds(init);
      assert forall i :: 0 <= i < |init| ==> init[i] == xs[i];
    }
  }

  // ---------------------------------------------------------------------------
  // assignees

  /** `.filter((c) => c.assignedTo !== null).map((c) => c.assignedTo!)`. */
  function NonNullAssignees(xs: seq<ViewItem>): (r: seq<Assignee>)
    ensures forall a :: a in r <==> exists i :: 0 <= i < |xs| && xs[i].assignedTo == Some(a)
  {
    if xs == [] then []
    else
      var rest := NonNullAssignees(xs[1..]);
      assert forall i :: 1 <= i < |xs| ==> xs[i] == xs[1..][i - 1];
      if xs[0].assignedTo.Some? then [xs[0].assignedTo.value] + rest else rest
  }

  function AssigneeIds(as_: seq<Assignee>): (r: seq<Id>)
    ensures |r| == |as_| && forall i :: 0 <= i < |as_| ==> r[i] == as_[i].id
  {
    seq(|as_|, i requires 0 <= i < |as_| => as_[i].id)
  }

  /** Whether position i holds the first assignee with its id
      (`arr.findIndex((x) => x.id === a.id) === i`). */
  predicate IsFirst(as_: seq<Assignee>, i: nat)
    requires i < |as_|
  {
    IndexOf(AssigneeIds(as_), as_[i].id) == Some(i)
  }

  /** `arr.findIndex((x) => x.id === id)`: the first position carrying `id`, or -1. */
  function FindIndex(as_: seq<Assignee>, id: Id): int
  {
    match IndexOf(AssigneeIds(as_), id)
    case None => -1
    case Some(j) => j
  }

  /** `findIndex` gives -1 exactly when no assignee carries `id`, and otherwise a
      position carrying it with none before it. */
  lemma FindIndexSpec(as_: seq<Assignee>, id: Id)
    ensures FindIndex(as_, id) == -1 <==> id !in AssigneeIds(as_)
    ensures 0 <= FindIndex(as_, id) ==>
      FindIndex(as_, id) < |as_| && as_[FindIndex(as_, id)].id == id
      && forall j :: 0 <= j < FindIndex(as_, id) ==> as_[j].id != id
  {
  }

  /** `a` is the first assignee in `as_` with its id. */
  predicate FirstOccurrence(as_: seq<Assignee>, a: Assignee)
  {
    exists j :: 0 <= j < |as_| && IsFirst(as_, j) && as_[j] == a
  }

  /** The filter over the first `n` positions of `as_`. */
  function FirstOccurrences(as_: seq<Assignee>, n: nat): (r: seq<Assignee>)
    requires n <= |as_|
  {
    if n == 0 then []
    else FirstOccurrences(as_, n - 1) + (if IsFirst(as_, n - 1) then [as_[n - 1]] else [])
  }

  /** The kept assignees are exactly the first occurrences, with distinct ids. */
  lemma {:induction false} FirstOccurrencesProps(as_: seq<Assignee>, n: nat)
    requires n <= |as_|
    ensures forall a :: a in FirstOccurrences(as_, n) <==> exists j :: 0 <= j < n && IsFirst(as_, j) && as_[j] == a
    ensures NoDuplicates(AssigneeIds(FirstOccurrences(as_, n)))
  {
    if n > 0 {
      FirstOccurrencesProps(as_, n - 1);
      var prev := FirstOccurrences(as_, n - 1);
      var last := if IsFirst(as_, n - 1) then [as_[n - 1]] else [];
      assert FirstOccurrences(as_, n) == prev + last;
      forall a
        ensures a in prev + last <==> exists j :: 0 <= j < n && IsFirst(as_, j) && as_[j] == a
      {
        if a in last {
          assert IsFirst(as_, n - 1) && as_[n - 1] == a;
        }
        if exists j :: 0 <= j < n && IsFirst(as_, j) && as_[j] == a {
          var j :| 0 <= j < n && IsFirst(as_, j) && as_[j] == a;
          if j == n - 1 {
            assert a in last;
          } else {
            assert a in prev;
          }
        }
      }
      if IsFirst(as_, n - 1) {
        var a := as_[n - 1];
        var r := prev + [a];
        assert forall b :: b in prev ==> b.id != a.id by {
          forall b | b in prev
            ensures b.id != a.id
          {
            var j :| 0 <= j < n - 1 && IsFirst(as_, j) && as_[j] == b;
            assert IndexOf(AssigneeIds(as_), b.id) == Some(j);
          }
        }
        assert NoDuplicates(AssigneeIds(r)) by {
          forall i, k | 0 <= i < k < |r|
            ensures AssigneeIds(r)[i] != AssigneeIds(r)[k]
          {
            if k == |r| - 1 {
              assert r[i] in prev;
            } else {
              assert AssigneeIds(prev)[i] != AssigneeIds(prev)[k];
            }
          }
        }
      }
    }
  }

  /** The kept assignees stand in increasing order of the position where their
      id first occurs, and each of those positions lies below `n`. */
  lemma {:induction false} FirstOccurrencesOrder(as_: seq<Assignee>, n: nat)
    requires n <= |as_|
    ensures forall p :: 0 <= p < |FirstOccurrences(as_, n)| ==>
      0 <= FindIndex(as_, FirstOccurrences(as_, n)[p].id) < n
    ensures InFirstOccurrenceOrder(as_, FirstOccurrences(as_, n))
  {
    if n > 0 {
      FirstOccurrencesOrder(as_, n - 1);
      var prev := FirstOccurrences(as_, n - 1);
      var last := if IsFirst(as_, n - 1) then [as_[n - 1]] else [];
      assert FirstOccurrences(as_, n) == prev + last;
      AppendFirstInOrder(as_, prev, last, n - 1);
    }
  }

  /** Appending the first occurrence at position `m`, if it is one, to assignees
      that all first occur below `m`, in order, keeps them in order. */
  lemma AppendFirstInOrder(as_: seq<Assignee>, prev: seq<Assignee>, last: seq<Assignee>, m: nat)
    requires m < |as_| && last == if IsFirst(as_, m) then [as_[m]] else []
    requires forall p :: 0 <= p < |prev| ==> 0 <= FindIndex(as_, prev[p].id) < m
    requires InFirstOccurrenceOrder(as_, prev)
    ensures forall p :: 0 <= p < |prev + last| ==> 0 <= FindIndex(as_, (prev + last)[p].id) < m + 1
    ensures InFirstOccurrenceOrder(as_, prev + last)
  {
    var r := prev + last;
    if last != [] {
      assert FindIndex(as_, as_[m].id) == m;
    }
    forall p | 0 <= p < |r|
      ensures 0 <= FindIndex(as_, r[p].id) < m + 1
    {
      if p < |prev| {
        assert r[p] == prev[p];
      }
    }
    forall p, q | 0 <= p < q < |r|
      ensures 0 <= FindIndex(as_, r[p].id) < FindIndex(as_, r[q].id)
    {
      assert r[p] == prev[p];
      if q < |prev| {
        assert r[q] == prev[q];
      }
    }
  }

  /** `[...].filter(first occurrence by id)`, keeping checklist order. */
  function Dedup(as_: seq<Assignee>): seq<Assignee>
  {
    FirstOccurrences(as_, |as_|)
  }

  /** The avatars shown on a card: the distinct non-null assignees, first
      occurrence kept, at most 3. */
  function Assignees(xs: seq<ViewItem>): seq<Assignee>
  {
    var d := Dedup(NonNullAssignees(xs));
    if |d| <= 3 then d else d[..3]
  }

  /** The avatars of `shown` stand in increasing order of the position where their
      id first occurs in `as_`. */
  predicate InFirstOccurrenceOrder(as_: seq<Assignee>, shown: seq<Assignee>)
  {
    forall i, j :: 0 <= i < j < |shown| ==> 0 <= FindIndex(as_, shown[i].id) < FindIndex(as_, shown[j].id)
  }

  /** Every id of `as_` that `shown` leaves out first occurs after every shown one. */
  predicate LeftOutOccurLater(as_: seq<Assignee>, shown: seq<Assignee>)
  {
    forall k, i :: 0 <= k < |as_| && IsFirst(as_, k) && as_[k].id !in AssigneeIds(shown) && 0 <= i < |shown| ==>
      FindIndex(as_, shown[i].id) < k
  }

  /** At most three avatars, each a non-null assignee of some item, no two with the
      same id; each is the first assignee in checklist order carrying its id. */
  lemma AssigneesProps(xs: seq<ViewItem>)
    ensures |Assignees(xs)| <= 3
    ensures NoDuplicates(AssigneeIds(Assignees(xs)))
    ensures forall a :: a in Assignees(xs) ==> exists i :: 0 <= i < |xs| && xs[i].assignedTo == Some(a)
    ensures forall a :: a in Assignees(xs) ==> FirstOccurrence(NonNullAssignees(xs), a)
  {
    var nn := NonNullAssignees(xs);
    var d := Dedup(nn);
    FirstOccurrencesProps(nn, |nn|);
    var n := if |d| <= 3 then |d| else 3;
    assert Assignees(xs) == d[..n];
    PrefixKeepsDistinct(d, n);
    forall a | a in Assignees(xs)
      ensures FirstOccurrence(nn, a)
    {
      assert a in d;
    }
  }

  /** The avatars are shown in the order their ids first occur among the non-null
      assignees, and an id left out first occurs after every shown one: the shown
      avatars are the first (up to) three distinct ids in checklist order. */
  lemma AssigneesOrder(xs: seq<ViewItem>)
    ensures InFirstOccurrenceOrder(NonNullAssignees(xs), Assignees(xs))
    ensures LeftOutOccurLater(NonNullAssignees(xs), Assignees(xs))
  {
    AssigneesPrefix(xs);
    PrefixInOrder(NonNullAssignees(xs), Assignees(xs));
    PrefixLeftOutLater(NonNullAssignees(xs), Assignees(xs));
  }

  /** The avatars are a prefix of the de-duplicated assignees. */
  lemma AssigneesPrefix(xs: seq<ViewItem>)
    ensures |Assignees(xs)| <= |Dedup(NonNullAssignees(xs))|
    ensures Assignees(xs) == Dedup(NonNullAssignees(xs))[..|Assignees(xs)|]
  {
    var d := Dedup(NonNullAssignees(xs));
    assert d == d[..|d|];
  }

  /** A prefix of the kept assignees is in first-occurrence order. */
  lemma PrefixInOrder(as_: seq<Assignee>, shown: seq<Assignee>)
    requires |shown| <= |Dedup(as_)| && shown == Dedup(as_)[..|shown|]
    ensures InFirstOccurrenceOrder(as_, shown)
  {
    FirstOccurrencesOrder(as_, |as_|);
    forall i, j | 0 <= i < j < |shown|
      ensures 0 <= FindIndex(as_, shown[i].id) < FindIndex(as_, shown[j].id)
    {
      assert shown[i] == Dedup(as_)[i] && shown[j] == Dedup(as_)[j];
    }
  }

  /** A prefix of the kept assignees leaves out only ids that first occur after it. */
  lemma PrefixLeftOutLater(as_: seq<Assignee>, shown: seq<Assignee>)
    requires |shown| <= |Dedup(as_)| && shown == Dedup(as_)[..|shown|]
    ensures LeftOutOccurLater(as_, shown)
  {
    forall k, i | 0 <= k < |as_| && IsFirst(as_, k) && as_[k].id !in AssigneeIds(shown) && 0 <= i < |shown|
      ensures FindIndex(as_, shown[i].id) < k
    {
      LeftOutComesLater(as_, shown, k, i);
    }
  }

  /** A first occurrence whose id a prefix of the kept assignees leaves out comes
      after every assignee in that prefix. */
  lemma LeftOutComesLater(as_: seq<Assignee>, shown: seq<Assignee>, k: int, i: int)
    requires |shown| <= |Dedup(as_)| && shown == Dedup(as_)[..|shown|]
    requires 0 <= k < |as_| && IsFirst(as_, k) && as_[k].id !in AssigneeIds(shown)
    requires 0 <= i < |shown|
    ensures FindIndex(as_, shown[i].id) < k
  {
    var d := Dedup(as_);
    FirstOccurrencesProps(as_, |as_|);
    FirstOccurrencesOrder(as_, |as_|);
    PrefixIds(d, |shown|);
    assert as_[k] in d;
    var p :| 0 <= p < |d| && d[p] == as_[k];
    assert FindIndex(as_, d[p].id) == k;
    assert |shown| <= p;
    assert shown[i] == d[i];
  }

  /** Every assignee in the first `n` positions has its id among theirs. */
  lemma PrefixIds(d: seq<Assignee>, n: nat)
    requires n <= |d|
    ensures forall p :: 0 <= p < n ==> d[p].id in AssigneeIds(d[..n])
  {
    forall p | 0 <= p < n
      ensures d[p].id in AssigneeIds(d[..n])
    {
      assert AssigneeIds(d[..n])[p] == d[p].id;
    }
  }

  lemma PrefixKeepsDistinct(d: seq<Assignee>, n: nat)
    requires n <= |d| && NoDuplicates(AssigneeIds(d))
    ensures forall a :: a in d[..n] ==> a in d
    ensures NoDuplicates(AssigneeIds(d[..n]))
  {
    forall i, k | 0 <= i < k < n
      ensures AssigneeIds(d[..n])[i] != AssigneeIds(d[..n])[k]
    {
      assert AssigneeIds(d)[i] != AssigneeIds(d)[k];
    }
  }

  /** Fewer than three distinct assignees are all shown: every non-null
      assignee's id then appears among the avatars. */
  lemma AssigneesComplete(xs: seq<ViewItem>)
    requires |Dedup(NonNullAssignees(xs))| <= 3
    ensures forall i :: 0 <= i < |xs| && xs[i].assignedTo.Some? ==>
      xs[i].assignedTo.value.id in AssigneeIds(Assignees(xs))
  {
    var nn := NonNullAssignees(xs);
    FirstOccurrencesProps(nn, |nn|);
    forall i | 0 <= i < |xs| && xs[i].assignedTo.Some?
      ensures xs[i].assignedTo.value.id in AssigneeIds(Assignees(xs))
    {
      var a := xs[i].assignedTo.value;
      assert a in nn;
      var j :| 0 <= j < |nn| && nn[j] == a;
      assert AssigneeIds(nn)[j] == a.id;
      var f := IndexOf(AssigneeIds(nn), a.id).value;
      assert IsFirst(nn, f);
      assert nn[f] in Dedup(nn);
      var d := Dedup(nn);
      var p :| 0 <= p < |d| && d[p] == nn[f];
      assert AssigneeIds(Assignees(xs))[p] == a.id;
    }
  }

  // ---------------------------------------------------------------------------
  // stringToColor

  /** The avatar palette. */
  const Palette: seq<string> := ["#7DD3FC", "#86EFAC", "#FDE68A", "#D8B4FE", "#FCA5A5", "#5EEAD4", "#A5B4FC", "#F9A8D4"]

  /** The UTF-16 code units of `s`, which `charCodeAt` reads one at a time. */
  function Utf16(s: string): (r: seq<nat>)
    ensures forall i :: 0 <= i < |r| ==> r[i] < 0x1_0000
  {
    if s == [] then []
    else
      var c := s[0] as int;
      (if c < 0x1_0000 then [c] else [0xD800 + (c - 0x1_0000) / 0x400, 0xDC00 + (c - 0x1_0000) % 0x400]) + Utf16(s[1..])
  }

  /** ECMAScript ToInt32 of an integral number. */
  function ToInt32(x: int): (r: int)
    ensures -0x8000_0000 <= r < 0x8000_0000
    ensures (r - x) % 0x1_0000_0000 == 0
  {
    (x + 0x8000_0000) % 0x1_0000_0000 - 0x8000_0000
  }

  /** One step `hash = code + ((hash << 5) - hash)`: the shift works on the 32-bit
      value, the additions on the (integral) number. */
  function HashStep(hash: int, code: nat): int
  {
    code + (ToInt32(ToInt32(hash) * 32) - hash)
  }

  /** `hash` after the loop has read the code units `us`. */
  function Hash(us: seq<nat>): int
  {
    if us == [] then 0 else HashStep(Hash(us[..|us| - 1]), us[|us| - 1])
  }

  /** `Math.abs(hash) % palette.length`. */
  function ColorIndex(hash: int): (i: nat)
    ensures i < |Palette|
  {
    (if hash < 0 then -hash else hash) % |Palette|
  }

  method StringToColor(str: string) returns (color: string)
    ensures color == Palette[ColorIndex(Hash(Utf16(str)))]
    ensures color in Palette
  {
    var units := Utf16(str);
    var hash := 0;
    var i := 0;
    while i < |units|
      invariant 0 <= i <= |units|
      invariant hash == Hash(units[..i])
    {
      assert units[..i + 1][..i] == units[..i];
      hash := units[i] + (ToInt32(ToInt32(hash) * 32) - hash);
      i := i + 1;
    }
    assert units[..i] == units;
    color := Palette[ColorIndex(hash)];
  }

  /** The hash grows by at most 2^31 + 2^16 per code unit, so it stays an exact
      double (below 2^53) for strings of fewer than 4,000,000 code units. */
  lemma {:induction false} HashBound(us: seq<nat>)
    requires forall i :: 0 <= i < |us| ==> us[i] < 0x1_0000
    ensures -|us| * 0x8001_0000 <= Hash(us) <= |us| * 0x8001_0000
  {
    if us != [] {
      var init := us[..|us| - 1];
      HashBound(init);
      var h := Hash(init);
      var w := ToInt32(ToInt32(h) * 32);
      assert Hash(us) == us[|us| - 1] + w - h;
    }
  }

  /** The empty name gets the first palette entry. */
  lemma EmptyNameColor()
    ensures Palette[ColorIndex(Hash(Utf16("")))] == "#7DD3FC"
  {
  }
}
