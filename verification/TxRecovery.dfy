/**
  What recovery computes: the marked records are skipped, the others are applied again in log order.
*/
module TxRecovery {
  import opened Wrappers
  import opened LogProtocol
  import opened TxRecords

  type Marks = set<nat>

  /** The records without a marker, applied in log order to `c`. */
  function ReplayUnmarked(c: Contents, log: TxLog, marks: Marks): Contents {
    if log == [] then c
    else
      var before := ReplayUnmarked(c, log[..|log| - 1], marks);
      if |log| in marks then before else ApplyOps(before, OpsOfEntries(log[|log| - 1].entries))
  }

  /** Keys that some record without a marker writes. */
  function UnmarkedWrites(log: TxLog, marks: Marks): set<Key> {
    if log == [] then {}
    else UnmarkedWrites(log[..|log| - 1], marks) + if |log| in marks then {} else WritesOf(log[|log| - 1])
  }

  /** The mutations of one record up to `upTo`, or all of them. */
  function Reached(commit: Commit<TxEvent>, upTo: nat): seq<Op> {
    var ops := OpsOfEntries(commit.entries);
    if upTo <= |ops| then ops[..upTo] else ops
  }

  /** The mutations that landed when of record `n` the first `progress[n-1]` did. */
  function ReachedOps(log: TxLog, progress: seq<nat>): seq<Op>
    requires |progress| == |log|
  {
    if log == [] then []
    else ReachedOps(log[..|log| - 1], progress[..|log| - 1]) + Reached(log[|log| - 1], progress[|log| - 1])
  }

  /** A store whose appliers stopped anywhere. */
  function Crashed(base: Contents, log: TxLog, progress: seq<nat>): Contents
    requires |progress| == |log|
  {
    ApplyOps(base, ReachedOps(log, progress))
  }

  /** Markers are truthful: a marked record was applied in full. */
  ghost predicate Truthful(log: TxLog, progress: seq<nat>, marks: Marks)
    requires |progress| == |log|
  {
    forall i :: 0 <= i < |log| && i + 1 in marks ==> progress[i] >= |OpsOfEntries(log[i].entries)|
  }

  /** No record without a marker shares a written key with a later record that has one. */
  ghost predicate NoneOvertaken(log: TxLog, marks: Marks) {
    forall i, j :: 0 <= i < j < |log| && i + 1 !in marks && j + 1 in marks ==> WritesOf(log[i]) !! WritesOf(log[j])
  }

  lemma {:induction false} NoneOvertakenPrefix(log: TxLog, marks: Marks)
    requires log != [] && NoneOvertaken(log, marks)
    ensures NoneOvertaken(log[..|log| - 1], marks)
  {
  }

  /** Recovery leaves keys alone that only marked records write. */
  lemma {:induction false} ReplayLeavesMarkedKeys(c: Contents, log: TxLog, marks: Marks, k: Key)
    requires k !in UnmarkedWrites(log, marks)
    ensures Lookup(ReplayUnmarked(c, log, marks), k) == Lookup(c, k)
    decreases |log|
  {
    if log != [] {
      var last := |log| - 1;
      ReplayLeavesMarkedKeys(c, log[..last], marks, k);
      if |log| !in marks {
        WritesAreKeysOfOps(log[last]);
        Untouched(ReplayUnmarked(c, log[..last], marks), OpsOfEntries(log[last].entries), k);
      }
    }
  }

  /** Keys that only marked records write are right already. */
  lemma {:induction false} MarkedKeysAreSettled(base: Contents, log: TxLog, progress: seq<nat>, marks: Marks, k: Key)
    requires |progress| == |log| && Truthful(log, progress, marks) && k !in UnmarkedWrites(log, marks)
    ensures Lookup(Crashed(base, log, progress), k) == Lookup(StoreAt(base, log), k)
    decreases |log|
  {
    if log != [] {
      var last := |log| - 1;
      var shorter := log[..last];
      MarkedKeysAreSettled(base, shorter, progress[..last], marks, k);
      ApplyOpsAppend(base, ReachedOps(shorter, progress[..last]), Reached(log[last], progress[last]));
      ApplyOpsAppend(base, OpsOfLog(shorter), OpsOfEntries(log[last].entries));
      if |log| in marks {
        assert progress[last] >= |OpsOfEntries(log[last].entries)|;
        assert Reached(log[last], progress[last]) == OpsOfEntries(log[last].entries);
        SameUnder(Crashed(base, shorter, progress[..last]), StoreAt(base, shorter), OpsOfEntries(log[last].entries), k);
      } else {
        PartIsUntouched(Crashed(base, shorter, progress[..last]), log[last], progress[last], k);
        WritesAreKeysOfOps(log[last]);
        Untouched(StoreAt(base, shorter), OpsOfEntries(log[last].entries), k);
      }
    }
  }

  lemma {:induction false} PartIsUntouched(c: Contents, commit: Commit<TxEvent>, upTo: nat, k: Key)
    requires k !in WritesOf(commit)
    ensures Lookup(ApplyOps(c, Reached(commit, upTo)), k) == Lookup(c, k)
  {
    var ops, reached := OpsOfEntries(commit.entries), Reached(commit, upTo);
    WritesAreKeysOfOps(commit);
    assert ops == reached + ops[|reached|..];
    KeysOfConcat(reached, ops[|reached|..]);
    Untouched(c, reached, k);
  }

  /** Equal under `k` before, equal under `k` after the same mutations. */
  lemma {:induction false} SameUnder(c: Contents, d: Contents, ops: seq<Op>, k: Key)
    requires Lookup(c, k) == Lookup(d, k)
    ensures Lookup(ApplyOps(c, ops), k) == Lookup(ApplyOps(d, ops), k)
  {
    if k in KeysOf(ops) {
      Overwritten(c, d, ops, k);
    } else {
      Untouched(c, ops, k);
      Untouched(d, ops, k);
    }
  }

  lemma {:induction false} MarkedDoesNotOvertake(log: TxLog, marks: Marks, k: Key)
    requires log != [] && |log| in marks && NoneOvertaken(log, marks)
    requires k in UnmarkedWrites(log[..|log| - 1], marks)
    ensures k !in WritesOf(log[|log| - 1])
  {
    UnmarkedWriter(log[..|log| - 1], marks, k);
    var i :| 0 <= i < |log| - 1 && i + 1 !in marks && k in WritesOf(log[..|log| - 1][i]);
    assert log[i] == log[..|log| - 1][i];
  }

  lemma {:induction false} UnmarkedWriter(log: TxLog, marks: Marks, k: Key)
    requires k in UnmarkedWrites(log, marks)
    ensures exists i :: 0 <= i < |log| && i + 1 !in marks && k in WritesOf(log[i])
    decreases |log|
  {
    var last := |log| - 1;
    if |log| in marks || k !in WritesOf(log[last]) {
      UnmarkedWriter(log[..last], marks, k);
      var i :| 0 <= i < last && i + 1 !in marks && k in WritesOf(log[..last][i]);
      assert log[i] == log[..last][i];
    }
  }

  /** The mutations of the records without a marker, in log order. */
  function UnmarkedOps(log: TxLog, marks: Marks): seq<Op> {
    if log == [] then []
    else UnmarkedOps(log[..|log| - 1], marks) + if |log| in marks then [] else OpsOfEntries(log[|log| - 1].entries)
  }

  lemma {:induction false} ReplayIsUnmarkedOps(c: Contents, log: TxLog, marks: Marks)
    ensures ReplayUnmarked(c, log, marks) == ApplyOps(c, UnmarkedOps(log, marks))
    decreases |log|
  {
    if log != [] {
      var last := |log| - 1;
      ReplayIsUnmarkedOps(c, log[..last], marks);
      if |log| !in marks {
        ApplyOpsAppend(c, UnmarkedOps(log[..last], marks), OpsOfEntries(log[last].entries));
      } else {
        assert UnmarkedOps(log, marks) == UnmarkedOps(log[..last], marks);
      }
    }
  }

  /** A key that an unmarked record writes has a last mutation, among the unmarked ones and in the log. */
  lemma {:induction false} UnmarkedKeysHaveLast(log: TxLog, marks: Marks, k: Key)
    ensures LastOn(UnmarkedOps(log, marks), k).Some? <==> k in UnmarkedWrites(log, marks)
    ensures k in UnmarkedWrites(log, marks) ==> LastOn(OpsOfLog(log), k).Some?
    decreases |log|
  {
    if log != [] {
      var last := |log| - 1;
      var ops := OpsOfEntries(log[last].entries);
      UnmarkedKeysHaveLast(log[..last], marks, k);
      WritesAreKeysOfOps(log[last]);
      LastOnNamed(ops, k);
      LastOfConcat(OpsOfLog(log[..last]), ops, k);
      LastOfConcat(UnmarkedOps(log[..last], marks), if |log| in marks then [] else ops, k);
    }
  }

  /** Under every key of an unmarked record, the last unmarked mutation leaves what the last of all does. */
  ghost predicate LastWritesAgree(log: TxLog, marks: Marks) {
    forall k :: k in UnmarkedWrites(log, marks) ==> LastOn(UnmarkedOps(log, marks), k) == LastOn(OpsOfLog(log), k)
  }

  lemma {:induction false} RestoredIffLastAgrees(base: Contents, c: Contents, log: TxLog, marks: Marks, k: Key)
    requires k in UnmarkedWrites(log, marks)
    ensures Lookup(ReplayUnmarked(c, log, marks), k) == Lookup(StoreAt(base, log), k)
       <==> LastOn(UnmarkedOps(log, marks), k) == LastOn(OpsOfLog(log), k)
  {
    ReplayIsUnmarkedOps(c, log, marks);
    LookupIsLast(c, UnmarkedOps(log, marks), k);
    LookupIsLast(base, OpsOfLog(log), k);
    UnmarkedKeysHaveLast(log, marks, k);
  }

  /**
    Exactly when recovery is right, whatever the appliers left: for every key that a record without a
    marker writes, the last of its unmarked mutations leaves what the last of all its mutations in the
    log leaves. (Overtaking breaks this: see `OvertakenRecordIsResurrected`.)
  */
  lemma {:induction false} RecoveryExactly(base: Contents, log: TxLog, progress: seq<nat>, marks: Marks)
    requires |progress| == |log| && Truthful(log, progress, marks)
    ensures ReplayUnmarked(Crashed(base, log, progress), log, marks) == StoreAt(base, log) <==> LastWritesAgree(log, marks)
  {
    var c := Crashed(base, log, progress);
    forall k
      ensures Lookup(ReplayUnmarked(c, log, marks), k) == Lookup(StoreAt(base, log), k)
         <==> (k in UnmarkedWrites(log, marks) ==> LastOn(UnmarkedOps(log, marks), k) == LastOn(OpsOfLog(log), k))
    {
      if k in UnmarkedWrites(log, marks) {
        RestoredIffLastAgrees(base, c, log, marks, k);
      } else {
        ReplayLeavesMarkedKeys(c, log, marks, k);
        MarkedKeysAreSettled(base, log, progress, marks, k);
      }
    }
    if LastWritesAgree(log, marks) {
      SameEverywhere(ReplayUnmarked(c, log, marks), StoreAt(base, log));
    }
  }

  /** When no unmarked record was overtaken by a marked one, the last writes agree. */
  lemma {:induction false} NotOvertakenAgrees(log: TxLog, marks: Marks, k: Key)
    requires NoneOvertaken(log, marks) && k in UnmarkedWrites(log, marks)
    ensures LastOn(UnmarkedOps(log, marks), k) == LastOn(OpsOfLog(log), k)
    decreases |log|
  {
    var last := |log| - 1;
    var shorter, ops := log[..last], OpsOfEntries(log[last].entries);
    NoneOvertakenPrefix(log, marks);
    WritesAreKeysOfOps(log[last]);
    LastOnNamed(ops, k);
    LastOfConcat(OpsOfLog(shorter), ops, k);
    if k in UnmarkedWrites(shorter, marks) {
      NotOvertakenAgrees(shorter, marks, k);
    }
    if |log| in marks {
      MarkedDoesNotOvertake(log, marks, k);
      assert UnmarkedOps(log, marks) == UnmarkedOps(shorter, marks);
    } else {
      LastOfConcat(UnmarkedOps(shorter, marks), ops, k);
    }
  }

  lemma {:induction false} NoneOvertakenAgrees(log: TxLog, marks: Marks)
    requires NoneOvertaken(log, marks)
    ensures LastWritesAgree(log, marks)
  {
    forall k | k in UnmarkedWrites(log, marks)
      ensures LastOn(UnmarkedOps(log, marks), k) == LastOn(OpsOfLog(log), k)
    {
      NotOvertakenAgrees(log, marks, k);
    }
  }

  /**
    Crash recovery: from a store whose appliers stopped anywhere, with truthful markers and no
    unmarked record overtaken by a marked one, replaying the unmarked records gives the fold of the
    whole log.
  */
  lemma {:induction false} RecoveryRestoresFold(base: Contents, log: TxLog, progress: seq<nat>, marks: Marks)
    requires |progress| == |log| && Truthful(log, progress, marks) && NoneOvertaken(log, marks)
    ensures ReplayUnmarked(Crashed(base, log, progress), log, marks) == StoreAt(base, log)
  {
    NoneOvertakenAgrees(log, marks);
    RecoveryExactly(base, log, progress, marks);
  }

  /** A marked prefix is the main case: nothing unmarked is followed by anything marked. */
  lemma {:induction false} MarkedPrefixIsNeverOvertaken(log: TxLog, marks: Marks, m: nat)
    requires forall n: nat :: 1 <= n <= |log| ==> (n in marks <==> n <= m)
    ensures NoneOvertaken(log, marks)
  {
  }

  /** How far each record got when the first `at` mutations of the log were applied in order. */
  function Progress(log: TxLog, at: nat): (progress: seq<nat>)
    ensures |progress| == |log|
  {
    if log == [] then []
    else
      var early := |OpsOfLog(log[..|log| - 1])|;
      if at <= early then Progress(log[..|log| - 1], at) + [0]
      else Progress(log[..|log| - 1], early) + [at - early]
  }

  lemma {:induction false} PrefixAcross(early: seq<Op>, ops: seq<Op>, at: nat, upTo: nat)
    requires at <= |early| + |ops| && upTo == if at <= |early| then at else |early|
    ensures early[..upTo] + ops[..at - upTo] == (early + ops)[..at]
  {
  }

  /** Of the first `at` mutations, as many as there are belong to the records before the last one. */
  function InFront(log: TxLog, at: nat): nat
    requires log != []
  {
    var early := |OpsOfLog(log[..|log| - 1])|;
    if at <= early then at else early
  }

  lemma {:induction false} ProgressOfLast(log: TxLog, at: nat)
    requires log != [] && at <= |OpsOfLog(log)|
    ensures InFront(log, at) <= at && InFront(log, at) <= |OpsOfLog(log[..|log| - 1])|
    ensures Progress(log, at)[..|log| - 1] == Progress(log[..|log| - 1], InFront(log, at))
    ensures Progress(log, at)[|log| - 1] == at - InFront(log, at)
    ensures at <= |OpsOfLog(log[..|log| - 1])| + |OpsOfEntries(log[|log| - 1].entries)|
  {
  }

  lemma {:induction false} ReachedInOrder(log: TxLog, at: nat)
    requires at <= |OpsOfLog(log)|
    ensures ReachedOps(log, Progress(log, at)) == OpsOfLog(log)[..at]
    decreases |log|
  {
    if log != [] {
      ProgressOfLast(log, at);
      ReachedInOrder(log[..|log| - 1], InFront(log, at));
      PrefixAcross(OpsOfLog(log[..|log| - 1]), OpsOfEntries(log[|log| - 1].entries), at, InFront(log, at));
    }
  }

  /** A store to which the log was applied in order up to any mutation is a crashed store. */
  lemma {:induction false} InOrderIsCrashed(base: Contents, log: TxLog, at: nat)
    requires at <= |OpsOfLog(log)|
    ensures Crashed(base, log, Progress(log, at)) == ApplyOps(base, OpsOfLog(log)[..at])
  {
    ReachedInOrder(log, at);
  }

  lemma {:induction false} OpsOfPrefixes(log: TxLog, n: nat, m: nat)
    requires n <= m <= |log|
    ensures |OpsOfLog(log[..n])| <= |OpsOfLog(log[..m])|
  {
    OpsOfLongerLog(log[..n], log[..m]);
  }

  /** The marked records before the last one are reached by what is in front of it. */
  lemma {:induction false} MarkedInFront(log: TxLog, at: nat, n: nat)
    requires log != [] && 1 <= n < |log| && at >= |OpsOfLog(log[..n])|
    ensures InFront(log, at) >= |OpsOfLog(log[..|log| - 1][..n])|
  {
    assert log[..|log| - 1][..n] == log[..n];
    OpsOfPrefixes(log, n, |log| - 1);
  }

  /** Markers are put after the last mutation, so in-order appliers keep them truthful. */
  lemma {:induction false} InOrderIsTruthful(log: TxLog, at: nat, marks: Marks)
    requires at <= |OpsOfLog(log)|
    requires forall n :: n in marks && 1 <= n <= |log| ==> at >= |OpsOfLog(log[..n])|
    ensures Truthful(log, Progress(log, at), marks)
    decreases |log|
  {
    if log != [] {
      ProgressOfLast(log, at);
      forall n | n in marks && 1 <= n <= |log| - 1
        ensures InFront(log, at) >= |OpsOfLog(log[..|log| - 1][..n])|
      {
        MarkedInFront(log, at, n);
      }
      InOrderIsTruthful(log[..|log| - 1], InFront(log, at), marks);
      LastIsTruthful(log, Progress(log, at), at, marks);
    }
  }

  lemma {:induction false} LastIsTruthful(log: TxLog, progress: seq<nat>, at: nat, marks: Marks)
    requires log != [] && |progress| == |log| && Truthful(log[..|log| - 1], progress[..|log| - 1], marks)
    requires |log| in marks ==> at >= |OpsOfLog(log[..|log|])|
    requires progress[|log| - 1] == at - InFront(log, at) && at <= |OpsOfLog(log)|
    ensures Truthful(log, progress, marks)
  {
    assert log[..|log|] == log;
    assert forall i :: 0 <= i < |log| - 1 ==> log[..|log| - 1][i] == log[i] && progress[..|log| - 1][i] == progress[i];
  }

  /**
    The condition on overtaking is needed: a record that wrote a key and crashed before its marker,
    and was overwritten by a later, marked record, comes back when it is recovered.
  */
  lemma {:induction false} OvertakenRecordIsResurrected(base: Contents, first: Commit<TxEvent>, second: Commit<TxEvent>,
      k: Key)
    requires k in WritesOf(first) && k in WritesOf(second)
    requires Lookup(StoreAt(base, [first]), k) != Lookup(StoreAt(base, [first, second]), k)
    ensures !NoneOvertaken([first, second], {2})
    ensures Lookup(ReplayUnmarked(StoreAt(base, [first, second]), [first, second], {2}), k) == Lookup(StoreAt(base, [first]), k)
    ensures ReplayUnmarked(StoreAt(base, [first, second]), [first, second], {2}) != StoreAt(base, [first, second])
  {
    var log := [first, second];
    assert k in WritesOf(log[0]) && k in WritesOf(log[1]);
    assert log[..1] == [first];
    var ops := OpsOfEntries(first.entries);
    WritesAreKeysOfOps(first);
    OneRecord(base, first);
    OneRecord(StoreAt(base, log), first);
    assert ReplayUnmarked(StoreAt(base, log), [first], {2}) == ApplyOps(StoreAt(base, log), ops) by {
      assert [first][..0] == [];
    }
    Overwritten(StoreAt(base, log), base, ops, k);
  }

  lemma {:induction false} OneRecord(base: Contents, commit: Commit<TxEvent>)
    ensures StoreAt(base, [commit]) == ApplyOps(base, OpsOfEntries(commit.entries))
  {
    assert [commit][..0] == [];
    assert OpsOfLog([]) + OpsOfEntries(commit.entries) == OpsOfEntries(commit.entries);
  }
}
