/**
  The schedule view's clean-up of the list it receives: items whose key
  string repeats an earlier key are dropped, the first occurrence wins, and
  the summary tiles are computed from what is left.
 */
module Normalizer {
  import opened Tasks

  /** The identity of an item: its description and times joined by dashes. */
  function Key(t: Task): string {
    t.description + "-" + t.startTime + "-" + t.endTime
  }

  /** The set of keys of a list. */
  function KeysOf(s: seq<Task>): set<string> {
    set i | 0 <= i < |s| :: Key(s[i])
  }

  /** Item i is the first one with its key. */
  predicate FirstOfKey(s: seq<Task>, i: int) {
    0 <= i < |s| && forall j :: 0 <= j < i ==> Key(s[j]) != Key(s[i])
  }

  /** No two items share a key. */
  predicate DistinctKeys(s: seq<Task>) {
    forall i, j :: 0 <= i < j < |s| ==> Key(s[i]) != Key(s[j])
  }

  lemma KeysOfSnoc(s: seq<Task>, t: Task)
    ensures KeysOf(s + [t]) == KeysOf(s) + {Key(t)}
  {
    var s' := s + [t];
    forall k | k in KeysOf(s')
      ensures k in KeysOf(s) + {Key(t)}
    {
      var i :| 0 <= i < |s'| && Key(s'[i]) == k;
      if i < |s| {
        assert s'[i] == s[i];
      }
    }
    forall k | k in KeysOf(s) + {Key(t)}
      ensures k in KeysOf(s')
    {
      if k == Key(t) {
        assert Key(s'[|s|]) == k;
      } else {
        var i :| 0 <= i < |s| && Key(s[i]) == k;
        assert Key(s'[i]) == k;
      }
    }
  }

  /** A key occurs before position |p| exactly when some earlier item has it. */
  lemma InPrefixKeys(s: seq<Task>)
    requires |s| > 0
    ensures Key(s[|s| - 1]) in KeysOf(s[..|s| - 1]) <==> !FirstOfKey(s, |s| - 1)
  {
    var p := s[..|s| - 1];
    if Key(s[|s| - 1]) in KeysOf(p) {
      var j :| 0 <= j < |p| && Key(p[j]) == Key(s[|s| - 1]);
      assert Key(s[j]) == Key(s[|s| - 1]);
    } else {
      forall j | 0 <= j < |s| - 1
        ensures Key(s[j]) != Key(s[|s| - 1])
      {
        assert Key(p[j]) in KeysOf(p);
      }
    }
  }

  /**
    The deduplicated list, item by item from the front: an item is kept
    unless an earlier item has the same key.
   */
  function Dedup(s: seq<Task>): (r: seq<Task>)
    ensures |r| <= |s|
    ensures KeysOf(r) == KeysOf(s)
  {
    if |s| == 0 then []
    else
      var p := s[..|s| - 1];
      var t := s[|s| - 1];
      assert s == p + [t];
      var d := Dedup(p);
      KeysOfSnoc(p, t);
      KeysOfSnoc(d, t);
      assert d + [] == d;
      d + (if Key(t) in KeysOf(p) then [] else [t])
  }

  /**
    The filter with a seen-set: the key of each item is looked up in the set
    of keys met so far; a new key is recorded and its item kept.
   */
  method Deduplicate(items: seq<Task>) returns (kept: seq<Task>)
    ensures kept == Dedup(items)
  {
    var seen: set<string> := {};
    kept := [];
    var i := 0;
    while i < |items|
      invariant 0 <= i <= |items|
      invariant kept == Dedup(items[..i])
      invariant seen == KeysOf(items[..i])
    {
      var item := items[i];
      var key := Key(item);
      assert items[..i + 1][..i] == items[..i];
      KeysOfSnoc(items[..i], item);
      assert items[..i] + [item] == items[..i + 1];
      if key !in seen {
        seen := seen + {key};
        kept := kept + [item];
      }
      i := i + 1;
    }
    assert items[..|items|] == items;
  }

  /**
    The indices of the kept items in the input, in increasing order; a
    reference for what the filter keeps.
   */
  function Origins(s: seq<Task>): seq<nat> {
    if |s| == 0 then []
    else
      var p := s[..|s| - 1];
      Origins(p) + (if Key(s[|s| - 1]) in KeysOf(p) then [] else [|s| - 1])
  }

  /**
    Deduplication keeps an item exactly when no earlier item has its key,
    and keeps the kept items in their input order: the k-th kept item is
    the input item at the k-th index of Origins, and these indices increase.
   */
  lemma {:induction false} DedupKeepsFirstOccurrences(s: seq<Task>)
    ensures |Origins(s)| == |Dedup(s)|
    ensures forall k :: 0 <= k < |Origins(s)| ==>
              Origins(s)[k] < |s| && Dedup(s)[k] == s[Origins(s)[k]]
    ensures forall k1, k2 :: 0 <= k1 < k2 < |Origins(s)| ==> Origins(s)[k1] < Origins(s)[k2]
    ensures forall i :: 0 <= i < |s| ==> (i in Origins(s) <==> FirstOfKey(s, i))
  {
    if |s| > 0 {
      var p := s[..|s| - 1];
      DedupKeepsFirstOccurrences(p);
      InPrefixKeys(s);
      forall i | 0 <= i < |p|
        ensures FirstOfKey(s, i) <==> FirstOfKey(p, i)
      {
        assert forall j :: 0 <= j <= i ==> s[j] == p[j];
      }
    }
  }

  /** The deduplicated list is a subsequence of the input. */
  lemma DedupIsSubsequence(s: seq<Task>)
    ensures exists idx: seq<nat> ::
              |idx| == |Dedup(s)|
              && (forall k :: 0 <= k < |idx| ==> idx[k] < |s| && Dedup(s)[k] == s[idx[k]])
              && (forall k1, k2 :: 0 <= k1 < k2 < |idx| ==> idx[k1] < idx[k2])
  {
    DedupKeepsFirstOccurrences(s);
    var idx := Origins(s);
    assert |idx| == |Dedup(s)|;
  }

  /** The first item of a non-empty list always survives, in front. */
  lemma {:induction false} DedupKeepsHead(s: seq<Task>)
    requires |s| > 0
    ensures |Dedup(s)| > 0 && Dedup(s)[0] == s[0]
  {
    DedupKeepsFirstOccurrences(s);
    assert FirstOfKey(s, 0);
    var k :| 0 <= k < |Origins(s)| && Origins(s)[k] == 0;
    assert Origins(s)[0] <= Origins(s)[k];
  }

  /** No two kept items share a key. */
  lemma {:induction false} DedupDistinct(s: seq<Task>)
    ensures DistinctKeys(Dedup(s))
  {
    if |s| > 0 {
      var p := s[..|s| - 1];
      DedupDistinct(p);
      var d := Dedup(p);
      if Key(s[|s| - 1]) !in KeysOf(p) {
        assert KeysOf(d) == KeysOf(p);
        forall i | 0 <= i < |d|
          ensures Key(d[i]) != Key(s[|s| - 1])
        {
          assert Key(d[i]) in KeysOf(d);
        }
      }
    }
  }

  /** A list whose keys are already distinct is left as it is. */
  lemma {:induction false} DedupOfDistinct(s: seq<Task>)
    requires DistinctKeys(s)
    ensures Dedup(s) == s
  {
    if |s| > 0 {
      var p := s[..|s| - 1];
      assert DistinctKeys(p);
      DedupOfDistinct(p);
      InPrefixKeys(s);
      assert FirstOfKey(s, |s| - 1);
      assert p + [s[|s| - 1]] == s;
    }
  }

  /** Deduplicating twice is the same as once. */
  lemma DedupIdempotent(s: seq<Task>)
    ensures Dedup(Dedup(s)) == Dedup(s)
  {
    DedupDistinct(s);
    DedupOfDistinct(Dedup(s));
  }

  /** Every item of the input has its key among the kept items. */
  lemma DedupCoversInput(s: seq<Task>, i: int)
    requires 0 <= i < |s|
    ensures exists k :: 0 <= k < |Dedup(s)| && Key(Dedup(s)[k]) == Key(s[i])
  {
    var d := Dedup(s);
    assert Key(s[i]) in KeysOf(d);
    var k :| 0 <= k < |d| && Key(d[k]) == Key(s[i]);
  }

  /** A string with no dash. */
  predicate DashFree(x: string) {
    forall i :: 0 <= i < |x| ==> x[i] != '-'
  }

  /**
    When neither time contains a dash, as for times of the form HH:MM, the
    key determines the description and both times.
   */
  lemma {:induction false} KeyInjective(a: Task, b: Task)
    requires DashFree(a.startTime) && DashFree(a.endTime)
    requires DashFree(b.startTime) && DashFree(b.endTime)
    requires Key(a) == Key(b)
    ensures a.description == b.description
    ensures a.startTime == b.startTime && a.endTime == b.endTime
  {
    var k := Key(a);
    var tailA := "-" + a.startTime + "-" + a.endTime;
    var tailB := "-" + b.startTime + "-" + b.endTime;
    assert k == a.description + tailA && k == b.description + tailB;
    TailSplit(a.description, a.startTime, a.endTime, b.description, b.startTime, b.endTime);
  }

  /**
    d1 + "-" + s1 + "-" + e1 == d2 + "-" + s2 + "-" + e2 with dash-free
    s and e forces equal parts: the last dash is at the same place, and so
    is the one before it.
   */
  lemma {:induction false} TailSplit(d1: string, s1: string, e1: string, d2: string, s2: string, e2: string)
    requires DashFree(s1) && DashFree(e1) && DashFree(s2) && DashFree(e2)
    requires d1 + "-" + s1 + "-" + e1 == d2 + "-" + s2 + "-" + e2
    ensures d1 == d2 && s1 == s2 && e1 == e2
  {
    var x := d1 + "-" + s1 + "-" + e1;
    LastDash(d1 + "-" + s1, e1);
    LastDash(d2 + "-" + s2, e2);
    assert e1 == e2;
    var y1 := d1 + "-" + s1;
    var y2 := d2 + "-" + s2;
    assert x == y1 + "-" + e1 && x == y2 + "-" + e2;
    assert y1 == x[..|x| - |e1| - 1] == y2;
    LastDash(d1, s1);
    LastDash(d2, s2);
  }

  /** In x + "-" + e with dash-free e, e is everything after the last dash. */
  lemma LastDash(x: string, e: string)
    requires DashFree(e)
    ensures var w := x + "-" + e;
      |w| == |x| + 1 + |e| && w[|x|] == '-' && w[|x| + 1..] == e && w[..|x|] == x
  {
  }

  /** Moving a dash-separated piece from one field to the next keeps the key. */
  lemma DashShift(x: string, y: string, z: string, e: string)
    ensures (x + "-" + y) + "-" + z + "-" + e == x + "-" + (y + "-" + z) + "-" + e
  {
  }

  /** Two items with the same key: the second is dropped. */
  lemma SameKeyDropped(a: Task, b: Task)
    requires Key(a) == Key(b)
    ensures Dedup([a, b]) == [a]
  {
    assert [a, b][..1] == [a];
    assert Key([a][0]) in KeysOf([a]);
  }

  /**
    The key is a string, not a tuple: a dash inside a field can make two
    different items share a key, and then the later one is dropped.
   */
  lemma KeyCollision(a: Task, b: Task)
    requires a == Task("a-09:00", "10:00", "11:00", true, "Urgent & Important")
    requires b == Task("a", "09:00-10:00", "11:00", true, "Urgent & Important")
    ensures a != b && Key(a) == Key(b)
    ensures Dedup([a, b]) == [a]
  {
    assert a.description != b.description by {
      assert |a.description| == 7 && |b.description| == 1;
    }
    assert a.description == "a" + "-" + "09:00";
    assert b.startTime == "09:00" + "-" + "10:00";
    DashShift("a", "09:00", "10:00", "11:00");
    SameKeyDropped(a, b);
  }

  /** `deduplicatedSchedule.filter(item => item.isUserTask)`. */
  function UserTasks(s: seq<Task>): (r: seq<Task>)
    ensures |r| <= |s|
    ensures forall t :: t in r <==> t in s && t.isUserTask
  {
    if |s| == 0 then []
    else
      var p := s[..|s| - 1];
      var t := s[|s| - 1];
      assert s == p + [t];
      UserTasks(p) + (if t.isUserTask then [t] else [])
  }

  /** Each user task is kept as often as it occurs, every other item never. */
  lemma {:induction false} UserTasksMultiset(s: seq<Task>)
    ensures forall t :: multiset(UserTasks(s))[t] == if t.isUserTask then multiset(s)[t] else 0
  {
    if |s| > 0 {
      var p := s[..|s| - 1];
      var t := s[|s| - 1];
      UserTasksMultiset(p);
      assert s == p + [t];
      assert multiset(s) == multiset(p) + multiset{t};
    }
  }

  lemma UserTasksSnoc(s: seq<Task>, t: Task)
    ensures UserTasks(s + [t]) == UserTasks(s) + (if t.isUserTask then [t] else [])
  {
    assert (s + [t])[..|s|] == s;
  }

  /** The positions of the user tasks in a list, in increasing order. */
  function UserPositions(s: seq<Task>): seq<nat> {
    if |s| == 0 then []
    else UserPositions(s[..|s| - 1]) + (if s[|s| - 1].isUserTask then [|s| - 1] else [])
  }

  /**
    The filter keeps the user tasks in their input order: the k-th kept
    item is the input item at the k-th user-task position, and these
    positions increase and are exactly those of the user tasks.
   */
  lemma UserTasksInOrder(s: seq<Task>)
    ensures |UserPositions(s)| == |UserTasks(s)|
    ensures forall k :: 0 <= k < |UserPositions(s)| ==>
              UserPositions(s)[k] < |s| && UserTasks(s)[k] == s[UserPositions(s)[k]]
    ensures forall k1, k2 :: 0 <= k1 < k2 < |UserPositions(s)| ==> UserPositions(s)[k1] < UserPositions(s)[k2]
    ensures forall i :: 0 <= i < |s| ==> (i in UserPositions(s) <==> s[i].isUserTask)
  {
    UserPositionsIncrease(s);
    UserPositionsExact(s);
    UserTasksAt(s);
  }

  lemma {:induction false} UserPositionsIncrease(s: seq<Task>)
    ensures forall k :: 0 <= k < |UserPositions(s)| ==> UserPositions(s)[k] < |s|
    ensures forall k1, k2 :: 0 <= k1 < k2 < |UserPositions(s)| ==> UserPositions(s)[k1] < UserPositions(s)[k2]
  {
    if |s| > 0 {
      var p := s[..|s| - 1];
      UserPositionsIncrease(p);
      var q := UserPositions(p);
      var q' := UserPositions(s);
      assert forall k :: 0 <= k < |q| ==> q'[k] == q[k];
    }
  }

  lemma {:induction false} UserPositionsExact(s: seq<Task>)
    ensures forall i :: 0 <= i < |s| ==> (i in UserPositions(s) <==> s[i].isUserTask)
  {
    if |s| > 0 {
      var p := s[..|s| - 1];
      var n := |s| - 1;
      UserPositionsExact(p);
      UserPositionsIncrease(p);
      var q := UserPositions(p);
      assert UserPositions(s) == q + (if s[n].isUserTask then [n] else []);
      assert forall k :: 0 <= k < |q| ==> q[k] != n;
      assert n !in q;
      forall i | 0 <= i < n
        ensures i in UserPositions(s) <==> s[i].isUserTask
      {
        assert s[i] == p[i];
      }
    }
  }

  lemma {:induction false} UserTasksAt(s: seq<Task>)
    ensures |UserPositions(s)| == |UserTasks(s)|
    ensures forall k :: 0 <= k < |UserPositions(s)| ==> UserPositions(s)[k] < |s| && UserTasks(s)[k] == s[UserPositions(s)[k]]
  {
    if |s| > 0 {
      var p := s[..|s| - 1];
      UserTasksAt(p);
      var q := UserPositions(p);
      var q' := UserPositions(s);
      var r := UserTasks(s);
      forall k | 0 <= k < |q'|
        ensures q'[k] < |s| && r[k] == s[q'[k]]
      {
        if k < |q| {
          assert q'[k] == q[k] && r[k] == UserTasks(p)[k] && s[q[k]] == p[q[k]];
        }
      }
    }
  }

  /** The empty-list defaults of the first-start and last-end tiles. */
  const DefaultFirstTime := "09:00"
  const DefaultLastTime := "17:00"

  /** The four summary tiles of the schedule view. */
  datatype Summary = Summary(totalItems: nat, userTaskCount: nat, firstTime: string, lastTime: string)

  /**
    The tiles, computed from the deduplicated list: its length, its number
    of user tasks, the start of its first item and the end of its last item.
    Nothing is sorted: first and last are positions, not earliest and latest.
   */
  function Summarize(schedule: seq<Task>): (r: Summary)
    ensures r.totalItems == |KeysOf(schedule)|
    ensures r.userTaskCount <= r.totalItems <= |schedule|
    ensures r.totalItems == 0 <==> |schedule| == 0
    ensures |schedule| == 0 ==> r.firstTime == DefaultFirstTime && r.lastTime == DefaultLastTime
    ensures |schedule| > 0 ==> r.firstTime == schedule[0].startTime
  {
    var d := Dedup(schedule);
    var users := UserTasks(d);
    KeptKeyCount(schedule);
    if |schedule| > 0 then DedupKeepsHead(schedule); Summary(|d|, |users|, d[0].startTime, d[|d| - 1].endTime)
    else Summary(0, 0, DefaultFirstTime, DefaultLastTime)
  }

  /** The deduplicated list has one item per distinct key of the input. */
  lemma {:induction false} KeptKeyCount(s: seq<Task>)
    ensures |Dedup(s)| == |KeysOf(s)|
  {
    if |s| > 0 {
      var p := s[..|s| - 1];
      var t := s[|s| - 1];
      KeptKeyCount(p);
      assert s == p + [t];
      KeysOfSnoc(p, t);
      if Key(t) in KeysOf(p) {
        assert KeysOf(s) == KeysOf(p);
        assert Dedup(s) == Dedup(p) + [];
      } else {
        assert |KeysOf(s)| == |KeysOf(p)| + 1;
        assert Dedup(s) == Dedup(p) + [t];
      }
    }
  }

  /**
    The last-end tile shows the end of the latest item that is the first
    with its key.
   */
  lemma SummaryLastTime(schedule: seq<Task>)
    requires |schedule| > 0
    ensures exists i :: FirstOfKey(schedule, i) && Summarize(schedule).lastTime == schedule[i].endTime
              && forall j :: i < j < |schedule| ==> !FirstOfKey(schedule, j)
  {
    DedupKeepsFirstOccurrences(schedule);
    DedupKeepsHead(schedule);
    var o := Origins(schedule);
    var i := o[|o| - 1];
    assert i in o;
  }

  /**
    The user-task tile counts the input positions that hold a user task
    which is the first item with its key; every task it counts is an
    input user task.
   */
  lemma SummaryUserTasks(schedule: seq<Task>)
    ensures Summarize(schedule).userTaskCount == |FirstUsers(schedule)|
    ensures forall t :: t in UserTasks(Dedup(schedule)) ==> t in schedule && t.isUserTask
  {
    KeptUserCount(schedule);
    DedupKeepsFirstOccurrences(schedule);
    forall t | t in Dedup(schedule)
      ensures t in schedule
    {
      var k :| 0 <= k < |Dedup(schedule)| && Dedup(schedule)[k] == t;
    }
  }

  /** The positions holding a user task that is the first item with its key. */
  function FirstUsers(s: seq<Task>): set<int> {
    set i | 0 <= i < |s| && FirstOfKey(s, i) && s[i].isUserTask
  }

  /** Being first of its key does not depend on the items after. */
  lemma FirstOfKeyPrefix(s: seq<Task>, i: int)
    requires 0 <= i < |s| - 1
    ensures FirstOfKey(s, i) <==> FirstOfKey(s[..|s| - 1], i)
  {
    assert forall j :: 0 <= j <= i ==> s[j] == s[..|s| - 1][j];
  }

  lemma FirstUsersSnoc(s: seq<Task>)
    requires |s| > 0
    ensures var n := |s| - 1;
      FirstUsers(s) == FirstUsers(s[..n]) + (if FirstOfKey(s, n) && s[n].isUserTask then {n} else {})
      && n !in FirstUsers(s[..n])
  {
    var n := |s| - 1;
    var p := s[..n];
    var C := FirstUsers(p) + (if FirstOfKey(s, n) && s[n].isUserTask then {n} else {});
    forall i | i in FirstUsers(s)
      ensures i in C
    {
      if i < n {
        FirstOfKeyPrefix(s, i);
        assert s[i] == p[i];
      }
    }
    forall i | i in C
      ensures i in FirstUsers(s)
    {
      if i < n {
        FirstOfKeyPrefix(s, i);
        assert s[i] == p[i];
      }
    }
  }

  /** One more item: it is kept exactly when it is the first with its key. */
  lemma DedupStep(s: seq<Task>)
    requires |s| > 0
    ensures Dedup(s) == Dedup(s[..|s| - 1]) + (if FirstOfKey(s, |s| - 1) then [s[|s| - 1]] else [])
  {
    InPrefixKeys(s);
    assert Dedup(s[..|s| - 1]) + [] == Dedup(s[..|s| - 1]);
  }

  lemma {:induction false} KeptUserCount(s: seq<Task>)
    ensures |UserTasks(Dedup(s))| == |FirstUsers(s)|
  {
    if |s| == 0 {
      assert FirstUsers(s) == {};
    } else {
      var n := |s| - 1;
      var p := s[..n];
      var t := s[n];
      KeptUserCount(p);
      DedupStep(s);
      FirstUsersSnoc(s);
      var d := Dedup(p);
      var kept := if FirstOfKey(s, n) then [t] else [];
      UserTasksSnoc(d, t);
      assert UserTasks(d + kept) == UserTasks(d) + (if FirstOfKey(s, n) && t.isUserTask then [t] else []) by {
        if !FirstOfKey(s, n) {
          assert d + kept == d;
        }
      }
    }
  }

  /** The tiles are positional: a late item listed first gives a first time after the last one. */
  lemma SummaryIsPositional(late: Task, early: Task)
    requires late == Task("Review", "15:00", "16:00", true, "Urgent & Important")
    requires early == Task("Standup", "08:00", "08:30", false, "")
    ensures Summarize([late, early]).firstTime == "15:00"
    ensures Summarize([late, early]).lastTime == "08:30"
  {
    assert Key(late) != Key(early) by {
      assert Key(late)[0] == 'R' && Key(early)[0] == 'S';
    }
    assert DistinctKeys([late, early]);
    DedupOfDistinct([late, early]);
  }
}
