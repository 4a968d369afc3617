/**
 * The start-up runner of gzconsole/command.go: commands register with a
 * priority, and the root command runs them from the highest priority down,
 * keeping registration order among equal priorities, until one fails.
 *
 * A command is represented by its name and by the error its `RunE`
 * returns (`None` for nil); registering it with the cobra root command is
 * not modelled.
 */
module Console {
  import opened Wrappers
  import Sequences

  /** `startupTask`, with the command reduced to the outcome of running it. */
  datatype Task = Task(priority: int, name: string, outcome: Option<string>)

  /** Non-increasing priorities, neighbour by neighbour. */
  ghost predicate SortedDesc(ts: seq<Task>)
  {
    forall i | 0 < i < |ts| :: ts[i - 1].priority >= ts[i].priority
  }

  /** Neighbourly order is order between any two positions. */
  lemma {:induction false} SortedDescPairwise(ts: seq<Task>, i: nat, j: nat)
    requires SortedDesc(ts) && i <= j < |ts|
    ensures ts[i].priority >= ts[j].priority
    decreases j - i
  {
    if i < j {
      SortedDescPairwise(ts, i + 1, j);
    }
  }

  /** `t` placed before the first task whose priority is not above its own. */
  function InsertStable(t: Task, ts: seq<Task>): seq<Task>
  {
    if ts == [] then [t]
    else if ts[0].priority > t.priority then [ts[0]] + InsertStable(t, ts[1..])
    else [t] + ts
  }

  /**
   * `sort.SliceStable` with "greater priority first": each task is inserted
   * into the sorted tasks registered after it, ahead of any of equal
   * priority.
   */
  function SortStable(ts: seq<Task>): (r: seq<Task>)
    ensures multiset(r) == multiset(ts)
  {
    if ts == [] then []
    else
      InsertStablePermutes(ts[0], SortStable(ts[1..]));
      assert ts == [ts[0]] + ts[1..];
      InsertStable(ts[0], SortStable(ts[1..]))
  }

  /** The tasks of priority `p`, in order. */
  function WithPriority(ts: seq<Task>, p: int): seq<Task>
  {
    if ts == [] then [] else (if ts[0].priority == p then [ts[0]] else []) + WithPriority(ts[1..], p)
  }

  /** Inserting adds exactly `t`. */
  lemma {:induction false} InsertStablePermutes(t: Task, ts: seq<Task>)
    ensures multiset(InsertStable(t, ts)) == multiset(ts) + multiset{t}
    ensures forall x :: x in InsertStable(t, ts) <==> x == t || x in ts
  {
    if ts != [] && ts[0].priority > t.priority {
      InsertStablePermutes(t, ts[1..]);
      assert ts == [ts[0]] + ts[1..];
    }
  }

  lemma {:induction false} InsertStableSorted(t: Task, ts: seq<Task>)
    requires SortedDesc(ts)
    ensures SortedDesc(InsertStable(t, ts))
  {
    if ts != [] && ts[0].priority > t.priority {
      var rest := InsertStable(t, ts[1..]);
      InsertStableSorted(t, ts[1..]);
      assert rest[0] == t || rest[0] == ts[1];
      var r := [ts[0]] + rest;
      forall i | 0 < i < |r| ensures r[i - 1].priority >= r[i].priority {
        if i > 1 {
          assert r[i - 1] == rest[i - 2] && r[i] == rest[i - 1];
        }
      }
    }
  }

  /** Inserting `t` leaves the tasks of each priority in their order, with `t` first among its own. */
  lemma {:induction false} InsertStableKeepsEqualOrder(t: Task, ts: seq<Task>, p: int)
    ensures WithPriority(InsertStable(t, ts), p) == (if t.priority == p then [t] else []) + WithPriority(ts, p)
  {
    if ts == [] {
      WithPriorityCons(t, [], p);
    } else if ts[0].priority > t.priority {
      InsertStableKeepsEqualOrder(t, ts[1..], p);
      InsertBehindHead(t, ts, p);
    } else {
      WithPriorityCons(t, ts, p);
    }
  }

  /** The step of `InsertStableKeepsEqualOrder` where `t` goes behind the head of `ts`. */
  lemma InsertBehindHead(t: Task, ts: seq<Task>, p: int)
    requires ts != [] && ts[0].priority > t.priority
    requires WithPriority(InsertStable(t, ts[1..]), p) == (if t.priority == p then [t] else []) + WithPriority(ts[1..], p)
    ensures WithPriority(InsertStable(t, ts), p) == (if t.priority == p then [t] else []) + WithPriority(ts, p)
  {
    var own := if t.priority == p then [t] else [];
    var head := if ts[0].priority == p then [ts[0]] else [];
    var w1 := WithPriority(ts[1..], p);
    var rest := InsertStable(t, ts[1..]);
    assert WithPriority(InsertStable(t, ts), p) == head + (own + w1) by {
      assert InsertStable(t, ts) == [ts[0]] + rest;
      WithPriorityCons(ts[0], rest, p);
    }
    assert WithPriority(ts, p) == head + w1 by {
      WithPriorityCons(ts[0], ts[1..], p);
      assert [ts[0]] + ts[1..] == ts;
    }
    if t.priority == p {
      assert head == [];
      Sequences.AppendEmpty(own + w1);
      Sequences.AppendEmpty(w1);
    } else {
      assert own == [];
      Sequences.AppendEmpty(w1);
      Sequences.AppendEmpty(head + w1);
    }
  }

  /** The tasks of priority `p` after a first task `x`. */
  lemma WithPriorityCons(x: Task, rest: seq<Task>, p: int)
    ensures WithPriority([x] + rest, p) == (if x.priority == p then [x] else []) + WithPriority(rest, p)
  {
    assert ([x] + rest)[0] == x && ([x] + rest)[1..] == rest;
  }

  /** The stable sort orders by priority, greatest first. */
  lemma {:induction false} SortStableSorted(ts: seq<Task>)
    ensures SortedDesc(SortStable(ts))
    ensures multiset(SortStable(ts)) == multiset(ts)
  {
    if ts != [] {
      SortStableSorted(ts[1..]);
      InsertStableSorted(ts[0], SortStable(ts[1..]));
      InsertStablePermutes(ts[0], SortStable(ts[1..]));
      assert ts == [ts[0]] + ts[1..];
    }
  }

  /** Stability: the tasks of each priority keep their registration order. */
  lemma {:induction false} SortStableIsStable(ts: seq<Task>, p: int)
    ensures WithPriority(SortStable(ts), p) == WithPriority(ts, p)
  {
    if ts != [] {
      SortStableIsStable(ts[1..], p);
      SortStableSorted(ts[1..]);
      InsertStableKeepsEqualOrder(ts[0], SortStable(ts[1..]), p);
    }
  }

  /** The package-level `startupTasks` slice. */
  class Registry {
    var startupTasks: seq<Task>

    constructor ()
      ensures startupTasks == []
    {
      startupTasks := [];
    }

    /** `Register(priority, cmd)`: one task appended at the end. */
    method Register(priority: int, name: string, outcome: Option<string>)
      modifies this
      ensures startupTasks == old(startupTasks) + [Task(priority, name, outcome)]
    {
      startupTasks := startupTasks + [Task(priority, name, outcome)];
    }

    /**
     * `runStartupTasks`: the slice is sorted in place, then the tasks run in
     * that order; `ran` of them run, and the first error ends the run and is
     * returned.
     */
    method RunStartupTasks() returns (err: Option<string>, ran: nat)
      modifies this
      ensures startupTasks == SortStable(old(startupTasks))
      ensures ran <= |startupTasks|
      ensures forall i | 0 <= i < ran - 1 :: startupTasks[i].outcome == None
      ensures err.None? <==> forall i | 0 <= i < |startupTasks| :: startupTasks[i].outcome == None
      ensures err.None? ==> ran == |startupTasks|
      ensures err.Some? ==> ran > 0 && err == startupTasks[ran - 1].outcome
    {
      startupTasks := SortStable(startupTasks);
      ran := 0;
      while ran < |startupTasks|
        invariant ran <= |startupTasks|
        invariant forall i | 0 <= i < ran :: startupTasks[i].outcome == None
      {
        var task := startupTasks[ran];
        ran := ran + 1;
        if task.outcome.Some? {
          return task.outcome, ran;
        }
      }
      return None, ran;
    }
  }
}
