/** Tasks and the priority order `PlannerAgent.schedule` processes them in.

    The source sorts its task list in place with a comparator on a
    three-level key (high before medium before low). The sort is stable, so
    its result is fixed: the high tasks in input order, then the medium
    ones, then the low ones. `ByPriority` states that result; the in-place
    insertion sort `SortByPriority` is proved to produce it.
 */
module TaskOrder {
  import opened Seqs

  datatype Priority = High | Medium | Low

  /** The key the comparator subtracts: high 0, medium 1, low 2. */
  function Rank(p: Priority): nat {
    match p
    case High => 0
    case Medium => 1
    case Low => 2
  }

  /** A task to place; its duration is in whole minutes. */
  datatype Task = Task(id: string, title: string, durationMinutes: nat, priority: Priority, providerId: string)

  predicate RankSorted(ts: seq<Task>) {
    forall i, j :: 0 <= i < j < |ts| ==> Rank(ts[i].priority) <= Rank(ts[j].priority)
  }

  /** The tasks of priority `p`, in input order. */
  function OfPriority(ts: seq<Task>, p: Priority): (r: seq<Task>)
    ensures |r| <= |ts|
    decreases |ts|
  {
    if ts == [] then []
    else OfPriority(ts[..|ts| - 1], p) + (if ts[|ts| - 1].priority == p then [ts[|ts| - 1]] else [])
  }

  /** The outcome of a stable sort of `ts` by priority. */
  function ByPriority(ts: seq<Task>): seq<Task> {
    OfPriority(ts, High) + OfPriority(ts, Medium) + OfPriority(ts, Low)
  }

  /** The selection holds tasks of priority `p` only. */
  lemma {:induction false} OfPriorityOnly(ts: seq<Task>, p: Priority)
    ensures forall k :: 0 <= k < |OfPriority(ts, p)| ==> OfPriority(ts, p)[k].priority == p
    decreases |ts|
  {
    if ts != [] {
      OfPriorityOnly(ts[..|ts| - 1], p);
    }
  }

  lemma {:induction false} OfPriorityAppend(a: seq<Task>, b: seq<Task>, p: Priority)
    ensures OfPriority(a + b, p) == OfPriority(a, p) + OfPriority(b, p)
    decreases |b|
  {
    if b == [] {
      assert a + b == a;
    } else {
      var n := |b| - 1;
      assert (a + b)[..|a + b| - 1] == a + b[..n];
      OfPriorityAppend(a, b[..n], p);
    }
  }

  /** Adding a task at the end of the input adds it at the end of its own
      priority's selection and nowhere else. */
  lemma OfPriorityPush(ts: seq<Task>, x: Task, p: Priority)
    ensures x.priority == p ==> OfPriority(ts + [x], p) == OfPriority(ts, p) + [x]
    ensures x.priority != p ==> OfPriority(ts + [x], p) == OfPriority(ts, p)
  {
    assert (ts + [x])[..|ts|] == ts;
    assert OfPriority(ts, p) + [] == OfPriority(ts, p);
  }

  /** Selecting priority `p` keeps a sequence made of `p` tasks whole and
      empties one without any. */
  lemma {:induction false} OfPriorityUniform(ts: seq<Task>, q: Priority, p: Priority)
    requires forall k :: 0 <= k < |ts| ==> ts[k].priority == q
    ensures OfPriority(ts, p) == if p == q then ts else []
    decreases |ts|
  {
    if ts != [] {
      var n := |ts| - 1;
      OfPriorityUniform(ts[..n], q, p);
      assert ts == ts[..n] + [ts[n]];
    }
  }

  /** The priority order is a permutation of the input. */
  lemma {:induction false} ByPriorityPermutes(ts: seq<Task>)
    ensures multiset(ByPriority(ts)) == multiset(ts)
    decreases |ts|
  {
    if ts != [] {
      var n := |ts| - 1;
      var init, x := ts[..n], ts[n];
      ByPriorityPermutes(init);
      assert ts == init + [x];
      OfPriorityPush(init, x, High);
      OfPriorityPush(init, x, Medium);
      OfPriorityPush(init, x, Low);
    }
  }

  /** Tasks of equal priority keep their input order. */
  lemma ByPriorityStable(ts: seq<Task>, p: Priority)
    ensures OfPriority(ByPriority(ts), p) == OfPriority(ts, p)
  {
    var h, m, l := OfPriority(ts, High), OfPriority(ts, Medium), OfPriority(ts, Low);
    OfPriorityOnly(ts, High);
    OfPriorityOnly(ts, Medium);
    OfPriorityOnly(ts, Low);
    OfPriorityAppend(h + m, l, p);
    OfPriorityAppend(h, m, p);
    var sh, sm, sl := OfPriority(h, p), OfPriority(m, p), OfPriority(l, p);
    assert OfPriority(ByPriority(ts), p) == sh + sm + sl;
    OfPriorityUniform(h, High, p);
    OfPriorityUniform(m, Medium, p);
    OfPriorityUniform(l, Low, p);
    match p
    case High => assert sm == [] && sl == [] && sh + sm + sl == sh;
    case Medium => assert sh == [] && sl == [] && sh + sm + sl == sm;
    case Low => assert sh == [] && sm == [] && sh + sm + sl == sl;
  }

  /** Where each rank sits in the priority order. */
  lemma ByPriorityLayout(ts: seq<Task>)
    ensures var h, m := |OfPriority(ts, High)|, |OfPriority(ts, Medium)|;
      forall k :: 0 <= k < |ByPriority(ts)| ==>
        Rank(ByPriority(ts)[k].priority) == if k < h then 0 else if k < h + m then 1 else 2
  {
    var h, m, l := OfPriority(ts, High), OfPriority(ts, Medium), OfPriority(ts, Low);
    var s := ByPriority(ts);
    OfPriorityOnly(ts, High);
    OfPriorityOnly(ts, Medium);
    OfPriorityOnly(ts, Low);
    forall k | 0 <= k < |s|
      ensures Rank(s[k].priority) == if k < |h| then 0 else if k < |h| + |m| then 1 else 2
    {
      if k < |h| { assert s[k] == h[k]; }
      else if k < |h| + |m| { assert s[k] == m[k - |h|]; }
      else { assert s[k] == l[k - |h| - |m|]; }
    }
  }

  /** The priority order is sorted by rank. */
  lemma ByPriorityRankSorted(ts: seq<Task>)
    ensures RankSorted(ByPriority(ts))
  {
    ByPriorityLayout(ts);
  }

  /** How many tasks of `ts` rank at or above `p`: where a new task of
      priority `p` joins the priority order. */
  function Cut(ts: seq<Task>, p: Priority): nat {
    match p
    case High => |OfPriority(ts, High)|
    case Medium => |OfPriority(ts, High)| + |OfPriority(ts, Medium)|
    case Low => |ByPriority(ts)|
  }

  lemma AppendAtCut(ts: seq<Task>, x: Task)
    ensures Cut(ts, x.priority) <= |ByPriority(ts)|
    ensures ByPriority(ts + [x]) == ByPriority(ts)[..Cut(ts, x.priority)] + [x] + ByPriority(ts)[Cut(ts, x.priority)..]
  {
    match x.priority
    case High => AppendHigh(ts, x);
    case Medium => AppendMedium(ts, x);
    case Low => AppendLow(ts, x);
  }

  lemma AppendHigh(ts: seq<Task>, x: Task)
    requires x.priority == High
    ensures ByPriority(ts + [x]) == (OfPriority(ts, High) + [x]) + (OfPriority(ts, Medium) + OfPriority(ts, Low))
  {
    var h, m, l := OfPriority(ts, High), OfPriority(ts, Medium), OfPriority(ts, Low);
    OfPriorityPush(ts, x, High);
    OfPriorityPush(ts, x, Medium);
    OfPriorityPush(ts, x, Low);
    assert ByPriority(ts + [x]) == (h + [x]) + m + l;
    AppendAssoc(h + [x], m, l);
  }

  lemma AppendMedium(ts: seq<Task>, x: Task)
    requires x.priority == Medium
    ensures ByPriority(ts + [x]) == (OfPriority(ts, High) + OfPriority(ts, Medium) + [x]) + OfPriority(ts, Low)
  {
    var h, m, l := OfPriority(ts, High), OfPriority(ts, Medium), OfPriority(ts, Low);
    OfPriorityPush(ts, x, High);
    OfPriorityPush(ts, x, Medium);
    OfPriorityPush(ts, x, Low);
    assert ByPriority(ts + [x]) == h + (m + [x]) + l;
    AppendAssoc(h, m, [x]);
  }

  lemma AppendLow(ts: seq<Task>, x: Task)
    requires x.priority == Low
    ensures ByPriority(ts + [x]) == ByPriority(ts) + [x]
  {
    var h, m, l := OfPriority(ts, High), OfPriority(ts, Medium), OfPriority(ts, Low);
    OfPriorityPush(ts, x, High);
    OfPriorityPush(ts, x, Medium);
    OfPriorityPush(ts, x, Low);
    assert ByPriority(ts + [x]) == h + m + (l + [x]);
  }

  /** The only place where everything before ranks at or above `x` and
      everything after ranks strictly below it is the cut. */
  lemma CutIsUnique(ts: seq<Task>, x: Task, j: nat)
    requires j <= |ByPriority(ts)|
    requires j == 0 || Rank(ByPriority(ts)[j - 1].priority) <= Rank(x.priority)
    requires forall k :: j <= k < |ByPriority(ts)| ==> Rank(ByPriority(ts)[k].priority) > Rank(x.priority)
    ensures j == Cut(ts, x.priority)
  {
    ByPriorityLayout(ts);
    assert j < |ByPriority(ts)| ==> Rank(ByPriority(ts)[j].priority) > Rank(x.priority);
  }

  /** Adding one task at the end of the input inserts it into the priority
      order right after every task of its rank or better. */
  lemma ByPriorityInsert(ts: seq<Task>, x: Task, j: nat)
    requires j <= |ByPriority(ts)|
    requires j == 0 || Rank(ByPriority(ts)[j - 1].priority) <= Rank(x.priority)
    requires forall k :: j <= k < |ByPriority(ts)| ==> Rank(ByPriority(ts)[k].priority) > Rank(x.priority)
    ensures ByPriority(ts + [x]) == ByPriority(ts)[..j] + [x] + ByPriority(ts)[j..]
  {
    CutIsUnique(ts, x, j);
    AppendAtCut(ts, x);
  }

  /** Moves `a[i]` left past every earlier task of a strictly worse rank:
      the insertion step of the sort. */
  method InsertBack(a: array<Task>, i: nat) returns (j: nat)
    requires i < a.Length
    modifies a
    ensures j <= i
    ensures a[..i + 1] == old(a[..i])[..j] + [old(a[i])] + old(a[..i])[j..]
    ensures a[i + 1..] == old(a[i + 1..])
    ensures j == 0 || Rank(old(a[j - 1]).priority) <= Rank(old(a[i]).priority)
    ensures forall k :: j <= k < i ==> Rank(old(a[k]).priority) > Rank(old(a[i]).priority)
  {
    var x := a[i];
    ghost var prefix := a[..i];
    j := i;
    while j > 0 && Rank(a[j - 1].priority) > Rank(x.priority)
      invariant j <= i
      invariant forall k :: 0 <= k < j ==> a[k] == prefix[k]
      invariant forall k :: j < k <= i ==> a[k] == prefix[k - 1]
      invariant forall k :: i < k < a.Length ==> a[k] == old(a[k])
      invariant forall k :: j <= k < i ==> Rank(prefix[k].priority) > Rank(x.priority)
    {
      a[j] := a[j - 1];
      j := j - 1;
    }
    a[j] := x;
    InsertedAt(a[..], prefix, x, j, i);
  }

  /** A sequence that agrees with `prefix` before `j`, holds `x` at `j` and
      `prefix` shifted by one up to `i`, begins with `x` inserted at `j`. */
  lemma InsertedAt(b: seq<Task>, prefix: seq<Task>, x: Task, j: nat, i: nat)
    requires j <= i == |prefix| < |b| && b[j] == x
    requires forall k :: 0 <= k < j ==> b[k] == prefix[k]
    requires forall k :: j < k <= i ==> b[k] == prefix[k - 1]
    ensures b[..i + 1] == prefix[..j] + [x] + prefix[j..]
  {
    var r := prefix[..j] + [x] + prefix[j..];
    assert |r| == i + 1;
    forall k | 0 <= k <= i
      ensures b[k] == r[k]
    {
      if k > j { assert r[k] == prefix[k - 1]; }
    }
  }

  /** `tasks.sort(...)` by priority: a stable insertion sort in place. */
  method SortByPriority(a: array<Task>)
    modifies a
    ensures a[..] == ByPriority(old(a[..]))
  {
    ghost var input := a[..];
    var i := 0;
    while i < a.Length
      invariant 0 <= i <= a.Length
      invariant a[..i] == ByPriority(input[..i])
      invariant a[i..] == input[i..]
    {
      assert a[i] == input[i] && input[..i + 1] == input[..i] + [input[i]];
      var j := InsertBack(a, i);
      ByPriorityInsert(input[..i], input[i], j);
      i := i + 1;
    }
    assert input[..a.Length] == input;
  }
}
