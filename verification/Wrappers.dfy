/** Small datatypes shared by every module. */
module Wrappers {
  datatype Option<+T> = None | Some(value: T) {
    function GetOr(default: T): T {
      if Some? then value else default
    }
  }

  datatype Result<+T, +R> = Success(value: T) | Failure(error: R)

  ghost predicate Ascending(numbers: seq<nat>) {
    forall i, j :: 0 <= i < j < |numbers| ==> numbers[i] < numbers[j]
  }

  predicate IsLeast(numbers: set<nat>, n: nat) {
    n in numbers && forall m :: m in numbers ==> n <= m
  }

  lemma {:induction false} LeastExists(numbers: set<nat>) returns (n: nat)
    requires numbers != {}
    ensures IsLeast(numbers, n)
    decreases |numbers|
  {
    n :| n in numbers;
    var rest := numbers - {n};
    assert numbers == rest + {n};
    if rest != {} {
      var m := LeastExists(rest);
      n := if m < n then m else n;
    }
  }

  /** The numbers of a set, ascending. */
  method Sorted(numbers: set<nat>) returns (listed: seq<nat>)
    ensures Ascending(listed)
    ensures forall n :: n in listed <==> n in numbers
  {
    listed := [];
    var rest := numbers;
    while rest != {}
      invariant Ascending(listed)
      invariant forall n :: n in numbers <==> n in rest || n in listed
      invariant forall i, m :: 0 <= i < |listed| && m in rest ==> listed[i] < m
      decreases |rest|
    {
      ghost var least' := LeastExists(rest);
      assert least' in rest && forall m :: m in rest ==> least' <= m;
      var least: nat :| least in rest && forall m :: m in rest ==> least <= m;
      listed := listed + [least];
      rest := rest - {least};
    }
  }
}
