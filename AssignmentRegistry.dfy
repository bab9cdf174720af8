/**
 * The status-to-state assignment registry, as the rows of its table: one
 * (status, state) pair per row. Queries are filters over the rows, and the
 * check accepts a pair when exactly one row remains.
 */
module AssignmentRegistry {

  /** One registered assignment of a status to a state. */
  datatype Assignment = Assignment(status: string, state: string)

  /** How many rows of the registry hold this assignment. */
  function Occurrences(registry: seq<Assignment>, a: Assignment): nat
  {
    multiset(registry)[a]
  }

  /** The rows whose status is `statusCode`, in registry order. */
  function StateCollectionForStatus(registry: seq<Assignment>, statusCode: string): (rows: seq<Assignment>)
    ensures |rows| <= |registry|
    ensures forall i :: 0 <= i < |rows| ==> rows[i].status == statusCode
    ensures forall a: Assignment :: a.status == statusCode ==> multiset(rows)[a] == multiset(registry)[a]
  {
    if registry == [] then []
    else
      assert registry == [registry[0]] + registry[1..];
      (if registry[0].status == statusCode then [registry[0]] else [])
      + StateCollectionForStatus(registry[1..], statusCode)
  }

  /** The rows of a collection whose state is `stateCode`, in order. */
  function AddStateFilter(rows: seq<Assignment>, stateCode: string): (kept: seq<Assignment>)
    ensures |kept| <= |rows|
    ensures forall i :: 0 <= i < |kept| ==> kept[i].state == stateCode
    ensures forall a: Assignment :: a.state == stateCode ==> multiset(kept)[a] == multiset(rows)[a]
  {
    if rows == [] then []
    else
      assert rows == [rows[0]] + rows[1..];
      (if rows[0].state == stateCode then [rows[0]] else [])
      + AddStateFilter(rows[1..], stateCode)
  }

  /** A sequence whose every element is `a` has as many elements as occurrences of `a`. */
  lemma {:induction false} UniformLength(s: seq<Assignment>, a: Assignment)
    requires forall i :: 0 <= i < |s| ==> s[i] == a
    ensures |s| == multiset(s)[a]
  {
    if s != [] {
      assert s == [s[0]] + s[1..];
      UniformLength(s[1..], a);
    }
  }

  /**
   * The status is assigned to the state when the registry holds exactly one
   * row for the pair: none and several are both rejected.
   */
  function IsStatusAssignedToState(registry: seq<Assignment>, statusCode: string, stateCode: string): (accepted: bool)
    ensures accepted <==> Occurrences(registry, Assignment(statusCode, stateCode)) == 1
    ensures accepted ==> Assignment(statusCode, stateCode) in registry
  {
    var rows := AddStateFilter(StateCollectionForStatus(registry, statusCode), stateCode);
    UniformLength(rows, Assignment(statusCode, stateCode));
    |rows| == 1
  }

  /** No two rows of the registry are the same assignment. */
  predicate NoDuplicateRows(registry: seq<Assignment>)
  {
    forall i, j :: 0 <= i < j < |registry| ==> registry[i] != registry[j]
  }

  /** In a registry without duplicate rows an assignment occurs at most once. */
  lemma {:induction false} OccurrencesAtMostOne(registry: seq<Assignment>, a: Assignment)
    requires NoDuplicateRows(registry)
    ensures Occurrences(registry, a) <= 1
  {
    if registry != [] {
      assert registry == [registry[0]] + registry[1..];
      OccurrencesAtMostOne(registry[1..], a);
      if registry[0] == a {
        assert a !in registry[1..] by {
          forall k | 0 <= k < |registry[1..]| ensures registry[1..][k] != a {
            assert registry[1..][k] == registry[k + 1];
          }
        }
      }
    }
  }

  /** Over a registry without duplicate rows, a pair is accepted iff it is registered. */
  lemma AssignedIffRegistered(registry: seq<Assignment>, statusCode: string, stateCode: string)
    requires NoDuplicateRows(registry)
    ensures IsStatusAssignedToState(registry, statusCode, stateCode) <==> Assignment(statusCode, stateCode) in registry
  {
    OccurrencesAtMostOne(registry, Assignment(statusCode, stateCode));
  }

  /** Two distinct rows holding the pair make it ambiguous, and the pair is rejected. */
  lemma {:induction false} DuplicateRowsRejected(registry: seq<Assignment>, i: nat, j: nat)
    requires i < j < |registry| && registry[i] == registry[j]
    ensures !IsStatusAssignedToState(registry, registry[i].status, registry[i].state)
  {
    var a := registry[i];
    assert registry == registry[..i] + [a] + registry[i + 1..j] + [a] + registry[j + 1..];
    assert Occurrences(registry, a) >= 2;
  }

  /** The pair occurs at exactly one row: some index holds it and no other does. */
  ghost predicate UniqueRow(registry: seq<Assignment>, a: Assignment)
  {
    exists i :: OnlyAt(registry, a, i)
  }

  /** Row `i` holds the pair and no other row does. */
  ghost predicate OnlyAt(registry: seq<Assignment>, a: Assignment, i: int)
  {
    && 0 <= i < |registry| && registry[i] == a
    && forall j :: 0 <= j < |registry| && j != i ==> registry[j] != a
  }

  /** Accepted iff exactly one row of the registry links the status to the state. */
  lemma {:induction false} AssignedIffUniqueRow(registry: seq<Assignment>, statusCode: string, stateCode: string)
    ensures IsStatusAssignedToState(registry, statusCode, stateCode) <==> UniqueRow(registry, Assignment(statusCode, stateCode))
  {
    OccursOnceIffUniqueRow(registry, Assignment(statusCode, stateCode));
  }

  lemma {:induction false} OccursOnceIffUniqueRow(registry: seq<Assignment>, a: Assignment)
    ensures Occurrences(registry, a) == 1 <==> UniqueRow(registry, a)
  {
    if registry != [] {
      if registry[0] == a {
        UniqueRowAtHead(registry, a);
      } else {
        OccursOnceIffUniqueRow(registry[1..], a);
        UniqueRowPastHead(registry, a);
      }
    }
  }

  /** When the first row holds the pair, it is unique iff the rest never holds it. */
  lemma UniqueRowAtHead(registry: seq<Assignment>, a: Assignment)
    requires registry != [] && registry[0] == a
    ensures Occurrences(registry, a) == 1 <==> UniqueRow(registry, a)
  {
    var tail := registry[1..];
    assert registry == [a] + tail;
    assert Occurrences(registry, a) == 1 + multiset(tail)[a];
    if multiset(tail)[a] == 0 {
      forall j | 0 <= j < |registry| && j != 0 ensures registry[j] != a {
        assert registry[j] == tail[j - 1];
        assert registry[j] in multiset(tail);
      }
      assert OnlyAt(registry, a, 0);
    } else {
      assert a in tail;
      var k :| 0 <= k < |tail| && tail[k] == a;
      assert registry[k + 1] == a;
      assert !OnlyAt(registry, a, 0) && !OnlyAt(registry, a, k + 1);
    }
  }

  /** When the first row does not hold the pair, uniqueness is decided by the rest. */
  lemma UniqueRowPastHead(registry: seq<Assignment>, a: Assignment)
    requires registry != [] && registry[0] != a
    ensures Occurrences(registry, a) == multiset(registry[1..])[a]
    ensures UniqueRow(registry, a) <==> UniqueRow(registry[1..], a)
  {
    assert registry == [registry[0]] + registry[1..];
    if UniqueRow(registry[1..], a) {
      var i :| OnlyAt(registry[1..], a, i);
      OnlyAtShifted(registry, a, i + 1);
    }
    if UniqueRow(registry, a) {
      var i :| OnlyAt(registry, a, i);
      OnlyAtShifted(registry, a, i);
    }
  }

  /** Past a first row that does not hold the pair, row `i` of the registry is row `i - 1` of the rest. */
  lemma OnlyAtShifted(registry: seq<Assignment>, a: Assignment, i: int)
    requires registry != [] && registry[0] != a && 0 < i
    ensures OnlyAt(registry, a, i) <==> OnlyAt(registry[1..], a, i - 1)
  {
    var tail := registry[1..];
    if OnlyAt(registry, a, i) {
      forall j | 0 <= j < |tail| && j != i - 1 ensures tail[j] != a {
        assert tail[j] == registry[j + 1];
      }
    }
    if OnlyAt(tail, a, i - 1) {
      forall j | 0 <= j < |registry| && j != i ensures registry[j] != a {
        if j > 0 {
          assert registry[j] == tail[j - 1];
        }
      }
    }
  }
}
