/**
 * `InMemoryHistoryManager`: the list of items looked up, oldest first, bounded
 * by `MAX_TASK_HISTORY_SIZE`. When the list is full, adding drops the oldest
 * entry first. Adding does not look for an earlier copy of the item.
 */
module HistoryManager {
  import opened Model

  /** `Constants.MAX_TASK_HISTORY_SIZE`. */
  const MaxTaskHistorySize: nat := 10

  /** The history after `add(t)`: the head is dropped when the history is full, then `t` goes at the tail. */
  function AppendBounded(h: seq<Task>, t: Task): (r: seq<Task>)
    ensures |r| >= 1 && r[|r| - 1] == t
    ensures |h| < MaxTaskHistorySize ==> |r| == |h| + 1 && r[..|h|] == h
    ensures |h| >= MaxTaskHistorySize ==> |r| == |h| && r[..|r| - 1] == h[1..]
  {
    (if |h| >= MaxTaskHistorySize then h[1..] else h) + [t]
  }

  /** The last `n` elements of `xs`, or all of them when there are fewer. */
  function LastN<T>(xs: seq<T>, n: nat): (r: seq<T>)
    ensures |r| == if |xs| <= n then |xs| else n
    ensures forall i :: 0 <= i < |r| ==> r[i] == xs[|xs| - |r| + i]
  {
    if |xs| <= n then xs else xs[|xs| - n..]
  }

  /** The history after adding every item of `ts`, in order. */
  function AddAll(h: seq<Task>, ts: seq<Task>): seq<Task>
    decreases |ts|
  {
    if ts == [] then h else AddAll(AppendBounded(h, ts[0]), ts[1..])
  }

  /** A history never grows past the bound. */
  lemma AppendBoundedStaysBounded(h: seq<Task>, t: Task)
    requires |h| <= MaxTaskHistorySize
    ensures |AppendBounded(h, t)| <= MaxTaskHistorySize
  {
  }

  /** One add keeps the latest `MaxTaskHistorySize` items. */
  lemma AppendBoundedIsLatest(h: seq<Task>, t: Task)
    requires |h| <= MaxTaskHistorySize
    ensures AppendBounded(h, t) == LastN(h + [t], MaxTaskHistorySize)
  {
  }

  /** Keeping the last `n` of `xs` and then the last `n` of that followed by `ys` keeps the last `n` of all of it. */
  lemma LastNOfLastN<T>(xs: seq<T>, ys: seq<T>, n: nat)
    ensures LastN(LastN(xs, n) + ys, n) == LastN(xs + ys, n)
  {
    var a := LastN(LastN(xs, n) + ys, n);
    var b := LastN(xs + ys, n);
    assert |a| == |b|;
    forall i | 0 <= i < |a| ensures a[i] == b[i] {
    }
  }

  /**
   * After any sequence of adds, the history holds the latest
   * `MaxTaskHistorySize` items of everything added, oldest first: older
   * entries are evicted in the order they came in.
   */
  lemma {:induction false} HistoryKeepsLatest(h: seq<Task>, ts: seq<Task>)
    requires |h| <= MaxTaskHistorySize
    ensures AddAll(h, ts) == LastN(h + ts, MaxTaskHistorySize)
    decreases |ts|
  {
    if ts == [] {
      assert h + ts == h;
    } else {
      var h1 := AppendBounded(h, ts[0]);
      calc {
        AddAll(h, ts);
        AddAll(h1, ts[1..]);
        { HistoryKeepsLatest(h1, ts[1..]); }
        LastN(h1 + ts[1..], MaxTaskHistorySize);
        { AppendBoundedIsLatest(h, ts[0]); }
        LastN(LastN(h + [ts[0]], MaxTaskHistorySize) + ts[1..], MaxTaskHistorySize);
        { LastNOfLastN(h + [ts[0]], ts[1..], MaxTaskHistorySize); }
        LastN((h + [ts[0]]) + ts[1..], MaxTaskHistorySize);
        { assert (h + [ts[0]]) + ts[1..] == h + ts; }
        LastN(h + ts, MaxTaskHistorySize);
      }
    }
  }

  /**
   * Adding an item already in the history adds another copy of it and leaves
   * every other entry where it was, as long as the history is not full.
   */
  lemma NoDeduplication(h: seq<Task>, t: Task)
    requires |h| < MaxTaskHistorySize
    ensures multiset(AppendBounded(h, t))[t] == multiset(h)[t] + 1
    ensures AppendBounded(h, t) == h + [t]
  {
  }

  /** The history with every entry of the given id dropped. */
  function RemoveId(h: seq<Task>, id: int): (r: seq<Task>)
    ensures |r| <= |h|
    ensures forall i :: 0 <= i < |r| ==> r[i].id != id
  {
    if h == [] then []
    else (if h[0].id == id then [] else [h[0]]) + RemoveId(h[1..], id)
  }

  /** An entry stays exactly when its id is not the removed one; a history without the id is unchanged. */
  lemma {:induction false} RemoveIdMembers(h: seq<Task>, id: int)
    ensures forall t :: t in RemoveId(h, id) <==> t in h && t.id != id
    ensures (forall i :: 0 <= i < |h| ==> h[i].id != id) ==> RemoveId(h, id) == h
  {
    if h != [] {
      RemoveIdMembers(h[1..], id);
      assert h == [h[0]] + h[1..];
    }
  }

  /**
   * Removing an id works piece by piece: the entries that stay keep their
   * order relative to each other.
   */
  lemma {:induction false} RemoveIdOfConcat(a: seq<Task>, b: seq<Task>, id: int)
    ensures RemoveId(a + b, id) == RemoveId(a, id) + RemoveId(b, id)
  {
    if a != [] {
      RemoveIdOfConcat(a[1..], b, id);
      var head := if a[0].id == id then [] else [a[0]];
      assert (a + b)[0] == a[0] && (a + b)[1..] == a[1..] + b;
      assert RemoveId(a + b, id) == head + RemoveId(a[1..] + b, id);
      assert RemoveId(a, id) == head + RemoveId(a[1..], id);
    } else {
      assert a + b == b;
    }
  }

  /** Removing the same id twice is the same as removing it once. */
  lemma RemoveIdIdempotent(h: seq<Task>, id: int)
    ensures RemoveId(RemoveId(h, id), id) == RemoveId(h, id)
  {
    RemoveIdMembers(RemoveId(h, id), id);
  }

  class InMemoryHistoryManager {
    /** `taskHistory`, oldest first. */
    var taskHistory: seq<Task>

    predicate Valid()
      reads this
    {
      |taskHistory| <= MaxTaskHistorySize
    }

    /** A fresh history is empty. */
    constructor()
      ensures Valid() && taskHistory == []
    {
      taskHistory := [];
    }

    /** `add`: drop the oldest entry when the history is full, then append `t`. */
    method Add(t: Task)
      requires Valid()
      modifies this
      ensures Valid()
      ensures taskHistory == AppendBounded(old(taskHistory), t)
    {
      if |taskHistory| >= MaxTaskHistorySize {
        taskHistory := taskHistory[1..];
      }
      taskHistory := taskHistory + [t];
    }

    /** `getHistory`: the entries, oldest first, never more than the bound. */
    method GetHistory() returns (r: seq<Task>)
      requires Valid()
      ensures r == taskHistory && |r| <= MaxTaskHistorySize
    {
      r := taskHistory;
    }

    /** `remove(id)`: every entry of that id leaves the history. */
    method Remove(id: int)
      requires Valid()
      modifies this
      ensures Valid()
      ensures taskHistory == RemoveId(old(taskHistory), id)
    {
      taskHistory := RemoveId(taskHistory, id);
    }
  }
}
