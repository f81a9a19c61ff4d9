/**
 * `prioritizedTasksByStartTime`, the `TreeSet` of the repository, as a
 * sequence kept strictly ascending under its comparator. Elements that
 * compare equal count as the same element: adding one is ignored, and
 * removing by one removes the other.
 */
module PrioritySet {
  import opened Model

  /** `Integer.compare`, and the sign of `LocalDateTime.compareTo`. */
  function IntCompare(a: int, b: int): (r: int)
    ensures r < 0 <==> a < b
    ensures r == 0 <==> a == b
  {
    if a < b then -1 else if a == b then 0 else 1
  }

  /**
   * The comparator: two undated items compare by id, an undated item comes
   * after a dated one, and two dated items compare by start time.
   */
  function Compare(a: Task, b: Task): int
  {
    if a.startTime == DefaultNullTaskStartTime && b.startTime == DefaultNullTaskStartTime then IntCompare(a.id, b.id)
    else if a.startTime == DefaultNullTaskStartTime then 1
    else if b.startTime == DefaultNullTaskStartTime then -1
    else IntCompare(a.startTime.value, b.startTime.value)
  }

  /** Strictly ascending under the comparator, as a `TreeSet` iterates. */
  predicate Sorted(s: seq<Task>)
  {
    forall i, j :: 0 <= i < j < |s| ==> Compare(s[i], s[j]) < 0
  }

  /** `TreeSet.add`: ignored when an element compares equal to `x`, otherwise `x` goes in its place. */
  function Insert(s: seq<Task>, x: Task): seq<Task>
  {
    if s == [] then [x]
    else
      var c := Compare(x, s[0]);
      if c == 0 then s
      else if c < 0 then [x] + s
      else [s[0]] + Insert(s[1..], x)
  }

  /** `TreeSet.remove`: drops the element that compares equal to `x`, whichever item it is. */
  function Remove(s: seq<Task>, x: Task): seq<Task>
  {
    if s == [] then []
    else if Compare(s[0], x) == 0 then s[1..]
    else [s[0]] + Remove(s[1..], x)
  }

  /** `remove` for each element of `c` in turn. */
  function RemoveEach(s: seq<Task>, c: seq<Task>): seq<Task>
    decreases |c|
  {
    if c == [] then s else RemoveEach(Remove(s, c[0]), c[1..])
  }

  /** `c.contains(e)` on a `List`: some element of `c` is `equals` to `e`. */
  predicate ContainsEqual(c: seq<Task>, e: Task)
  {
    exists i :: 0 <= i < |c| && TaskEquals(e, c[i])
  }

  /** The elements of `s` that `c` does not contain, in order. */
  function FilterOut(s: seq<Task>, c: seq<Task>): seq<Task>
  {
    if s == [] then []
    else if ContainsEqual(c, s[0]) then FilterOut(s[1..], c)
    else [s[0]] + FilterOut(s[1..], c)
  }

  /**
   * `AbstractSet.removeAll`, which `TreeSet` inherits: when the set is larger
   * than `c`, `remove` each element of `c`; otherwise drop every element
   * that `c` contains by `equals`.
   */
  function RemoveAll(s: seq<Task>, c: seq<Task>): seq<Task>
  {
    if |s| > |c| then RemoveEach(s, c) else FilterOut(s, c)
  }

  /**
   * The comparator orders dated items by start, puts every undated item after
   * every dated one and orders undated items by id; two dated items with the
   * same start compare equal. It is a strict order with equality as its
   * equivalence.
   */
  lemma CompareLaws(a: Task, b: Task, c: Task)
    ensures a.startTime.Some? && b.startTime.None? ==> Compare(a, b) < 0
    ensures a.startTime.None? && b.startTime.None? ==> (Compare(a, b) < 0 <==> a.id < b.id)
    ensures a.startTime.Some? && b.startTime.Some? ==> (Compare(a, b) < 0 <==> a.startTime.value < b.startTime.value)
    ensures Compare(a, b) == 0 <==> a.startTime == b.startTime && (a.startTime.None? ==> a.id == b.id)
    ensures Compare(a, a) == 0
    ensures Compare(a, b) < 0 <==> Compare(b, a) > 0
    ensures Compare(a, b) < 0 && Compare(b, c) < 0 ==> Compare(a, c) < 0
    ensures Compare(a, b) == 0 && Compare(b, c) == 0 ==> Compare(a, c) == 0
  {
  }

  /** Some element of `s` compares equal to `x`. */
  predicate HasEqual(s: seq<Task>, x: Task)
  {
    exists i :: 0 <= i < |s| && Compare(s[i], x) == 0
  }

  /** An element that comes before every element of an ordered sequence can be put in front of it. */
  lemma SortedCons(x: Task, s: seq<Task>)
    requires Sorted(s)
    requires forall j :: 0 <= j < |s| ==> Compare(x, s[j]) < 0
    ensures Sorted([x] + s)
  {
    var r := [x] + s;
    forall i, j | 0 <= i < j < |r| ensures Compare(r[i], r[j]) < 0 {
      assert r[j] == s[j - 1];
      if i > 0 {
        assert r[i] == s[i - 1];
      }
    }
  }

  /** Adding keeps the order; it changes nothing when an equal element is present, and adds exactly `x` otherwise. */
  lemma {:induction false} InsertProperties(s: seq<Task>, x: Task)
    requires Sorted(s)
    ensures Sorted(Insert(s, x))
    ensures forall e :: e in Insert(s, x) ==> e in s || e == x
    ensures HasEqual(s, x) ==> Insert(s, x) == s
    ensures !HasEqual(s, x) ==> |Insert(s, x)| == |s| + 1
    ensures !HasEqual(s, x) ==> forall e :: e in Insert(s, x) <==> e in s || e == x
    decreases |s|, 1
  {
    if s == [] {
      return;
    }
    var c := Compare(x, s[0]);
    CompareLaws(x, s[0], x);
    if c == 0 {
      assert Compare(s[0], x) == 0;
    } else if c < 0 {
      forall j | 0 <= j < |s| ensures Compare(x, s[j]) < 0 && Compare(s[j], x) != 0 {
        CompareLaws(x, s[0], s[j]);
        CompareLaws(s[j], x, s[j]);
      }
      SortedCons(x, s);
    } else {
      InsertGreater(s, x);
    }
  }

  /** The case of `InsertProperties` where `x` goes after the first element. */
  lemma {:induction false} InsertGreater(s: seq<Task>, x: Task)
    requires Sorted(s) && s != [] && Compare(x, s[0]) > 0
    ensures Sorted(Insert(s, x))
    ensures forall e :: e in Insert(s, x) ==> e in s || e == x
    ensures HasEqual(s, x) ==> Insert(s, x) == s
    ensures !HasEqual(s, x) ==> |Insert(s, x)| == |s| + 1
    ensures !HasEqual(s, x) ==> forall e :: e in Insert(s, x) <==> e in s || e == x
    decreases |s|, 0
  {
    var rest := s[1..];
    InsertProperties(rest, x);
    var r := Insert(rest, x);
    assert Insert(s, x) == [s[0]] + r;
    CompareLaws(s[0], x, s[0]);
    HasEqualTail(s, x);
    HeadBelowAll(s, x, r);
    SortedCons(s[0], r);
    assert s == [s[0]] + rest;
    ConsMembers(s[0], rest, r, x);
  }

  /** Membership in `[h] + r` against `[h] + rest`, from membership in `r` against `rest`. */
  lemma ConsMembers(h: Task, rest: seq<Task>, r: seq<Task>, x: Task)
    requires forall e :: e in r ==> e in rest || e == x
    ensures forall e :: e in [h] + r ==> e in [h] + rest || e == x
    ensures (forall e :: e in r <==> e in rest || e == x) ==> forall e :: e in [h] + r <==> e in [h] + rest || e == x
  {
    assert forall e :: e in [h] + r <==> e == h || e in r;
    assert forall e :: e in [h] + rest <==> e == h || e in rest;
  }

  /** When the first element does not compare equal to `x`, an equal element is in the tail if anywhere. */
  lemma HasEqualTail(s: seq<Task>, x: Task)
    requires s != [] && Compare(s[0], x) != 0
    ensures HasEqual(s, x) <==> HasEqual(s[1..], x)
  {
    var rest := s[1..];
    if HasEqual(s, x) {
      var i :| 0 <= i < |s| && Compare(s[i], x) == 0;
      assert rest[i - 1] == s[i];
    }
    if HasEqual(rest, x) {
      var i :| 0 <= i < |rest| && Compare(rest[i], x) == 0;
      assert s[i + 1] == rest[i];
    }
  }

  /** The first element of an ordered sequence precedes whatever is built from its tail and a greater `x`. */
  lemma HeadBelowAll(s: seq<Task>, x: Task, r: seq<Task>)
    requires Sorted(s) && s != [] && Compare(s[0], x) < 0
    requires forall e :: e in r ==> e in s[1..] || e == x
    ensures forall j :: 0 <= j < |r| ==> Compare(s[0], r[j]) < 0
  {
    forall j | 0 <= j < |r| ensures Compare(s[0], r[j]) < 0 {
      assert r[j] in r;
      if r[j] != x {
        var k :| 0 <= k < |s[1..]| && s[1..][k] == r[j];
        assert s[k + 1] == r[j];
      }
    }
  }

  /**
   * Removing keeps the order and only drops elements: afterwards nothing
   * compares equal to `x`, and every element that did not is still there.
   */
  lemma {:induction false} RemoveProperties(s: seq<Task>, x: Task)
    requires Sorted(s)
    ensures Sorted(Remove(s, x))
    ensures forall e :: e in Remove(s, x) ==> e in s
    ensures forall e :: e in Remove(s, x) ==> Compare(e, x) != 0
    ensures forall e :: e in s && Compare(e, x) != 0 ==> e in Remove(s, x)
    ensures x !in Remove(s, x)
  {
    if s != [] {
      var rest := s[1..];
      RemoveProperties(rest, x);
      if Compare(s[0], x) == 0 {
        HeadEqualRestUnequal(s, x);
      } else {
        var r := Remove(rest, x);
        forall j | 0 <= j < |r| ensures Compare(s[0], r[j]) < 0 {
          assert r[j] in rest;
        }
      }
      CompareLaws(x, x, x);
      assert forall e :: e in s <==> e == s[0] || e in rest;
    }
  }

  /** When the head compares equal to `x`, no later element of an ordered sequence does. */
  lemma HeadEqualRestUnequal(s: seq<Task>, x: Task)
    requires Sorted(s) && s != [] && Compare(s[0], x) == 0
    ensures forall e :: e in s[1..] ==> Compare(e, x) != 0
  {
    forall e | e in s[1..] ensures Compare(e, x) != 0 {
      var j :| 0 <= j < |s[1..]| && s[1..][j] == e;
      assert Compare(s[0], s[j + 1]) < 0;
      CompareLaws(s[0], x, e);
      CompareLaws(e, x, s[0]);
      CompareLaws(s[0], e, x);
    }
  }

  /** Removing each element of `c` keeps the order and leaves nothing that compares equal to one of them. */
  lemma {:induction false} RemoveEachProperties(s: seq<Task>, c: seq<Task>)
    requires Sorted(s)
    ensures Sorted(RemoveEach(s, c))
    ensures forall e :: e in RemoveEach(s, c) ==> e in s
    ensures forall e, i :: e in RemoveEach(s, c) && 0 <= i < |c| ==> Compare(e, c[i]) != 0
    ensures forall e :: e in s && (forall i :: 0 <= i < |c| ==> Compare(e, c[i]) != 0) ==> e in RemoveEach(s, c)
    decreases |c|
  {
    if c != [] {
      RemoveProperties(s, c[0]);
      RemoveEachProperties(Remove(s, c[0]), c[1..]);
      forall e, i | e in RemoveEach(s, c) && 0 <= i < |c| ensures Compare(e, c[i]) != 0 {
        if i > 0 {
          assert c[i] == c[1..][i - 1];
        }
      }
      forall e | e in s && (forall i :: 0 <= i < |c| ==> Compare(e, c[i]) != 0) ensures e in RemoveEach(s, c) {
        assert Compare(e, c[0]) != 0;
        forall i | 0 <= i < |c[1..]| ensures Compare(e, c[1..][i]) != 0 {
          assert c[1..][i] == c[i + 1];
        }
      }
    }
  }

  /** Filtering keeps the order, drops every element `c` contains and keeps every other. */
  lemma {:induction false} FilterOutProperties(s: seq<Task>, c: seq<Task>)
    requires Sorted(s)
    ensures Sorted(FilterOut(s, c))
    ensures forall e :: e in FilterOut(s, c) <==> e in s && !ContainsEqual(c, e)
  {
    if s != [] {
      var rest := s[1..];
      FilterOutProperties(rest, c);
      var r := FilterOut(rest, c);
      forall j | 0 <= j < |r| ensures Compare(s[0], r[j]) < 0 {
        assert r[j] in rest;
      }
      assert forall e :: e in s <==> e == s[0] || e in rest;
    }
  }

  /**
   * `removeAll` keeps the set ordered, only drops elements, and no element of
   * `c` is left in it, whichever of its two strategies it takes.
   */
  lemma RemoveAllProperties(s: seq<Task>, c: seq<Task>)
    requires Sorted(s)
    ensures Sorted(RemoveAll(s, c))
    ensures forall e :: e in RemoveAll(s, c) ==> e in s
    ensures forall i :: 0 <= i < |c| ==> c[i] !in RemoveAll(s, c)
  {
    if |s| > |c| {
      RemoveEachProperties(s, c);
      forall i | 0 <= i < |c| ensures c[i] !in RemoveAll(s, c) {
        CompareLaws(c[i], c[i], c[i]);
      }
    } else {
      FilterOutProperties(s, c);
      forall i | 0 <= i < |c| ensures c[i] !in RemoveAll(s, c) {
        assert TaskEquals(c[i], c[i]);
      }
    }
  }

  /** Two dated items with the same start cannot both be in the set: the later one is not added. */
  lemma SameStartKeepsFirst(s: seq<Task>, a: Task, b: Task)
    requires Sorted(s) && a in s
    requires a.startTime.Some? && b.startTime == a.startTime && b != a
    ensures Insert(s, b) == s && b !in Insert(s, b)
  {
    var i :| 0 <= i < |s| && s[i] == a;
    assert Compare(s[i], b) == 0;
    assert HasEqual(s, b);
    InsertProperties(s, b);
    forall j | 0 <= j < |s| ensures s[j] != b {
      if j != i {
        DistinctUnderCompare(s, i, j);
      }
    }
  }

  /** Two different members of an ordered sequence never compare equal. */
  lemma DistinctMembers(s: seq<Task>, a: Task, b: Task)
    requires Sorted(s) && a in s && b in s && a != b
    ensures Compare(a, b) != 0
  {
    var i :| 0 <= i < |s| && s[i] == a;
    var j :| 0 <= j < |s| && s[j] == b;
    DistinctUnderCompare(s, i, j);
  }

  /**
   * `removeAll` keeps a member that is not among the removed items, when
   * every removed item is another member and none `equals` it, whichever of
   * its two strategies it takes.
   */
  lemma RemoveAllKeeps(s: seq<Task>, c: seq<Task>, e: Task)
    requires Sorted(s) && e in s
    requires forall i :: 0 <= i < |c| ==> c[i] in s && c[i] != e && !TaskEquals(e, c[i])
    ensures e in RemoveAll(s, c)
  {
    if |s| > |c| {
      RemoveEachProperties(s, c);
      forall i | 0 <= i < |c| ensures Compare(e, c[i]) != 0 {
        DistinctMembers(s, e, c[i]);
      }
    } else {
      FilterOutProperties(s, c);
    }
  }

  /** Two positions of an ordered sequence never hold elements that compare equal. */
  lemma DistinctUnderCompare(s: seq<Task>, i: int, j: int)
    requires Sorted(s) && 0 <= i < |s| && 0 <= j < |s| && i != j
    ensures Compare(s[i], s[j]) != 0
  {
    if j < i {
      CompareLaws(s[j], s[i], s[j]);
    }
  }
}
