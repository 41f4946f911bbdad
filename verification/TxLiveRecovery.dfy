/**
  Recovery next to live commits.

  Recovery works from one listing of the markers. Records that are applied and marked after the listing
  are applied once more, the earlier ones first: until it gets to the end of the log, recovery takes
  objects back.
*/
module TxLiveRecovery {
  import opened Wrappers
  import opened TxRecords
  import opened TxRecovery
  import opened ObjectStore
  import opened Transactions

  /** The objects after these writes, by whatever clients. */
  function ObjectsAfter(c: Contents, deeds: seq<Deed>): Contents {
    if deeds == [] then c
    else
      var before, last := ObjectsAfter(c, deeds[..|deeds| - 1]), deeds[|deeds| - 1];
      if last.Wrote? then ApplyOp(before, last.op) else before
  }

  function MarkersAfter(deeds: seq<Deed>): set<nat> {
    set i | 0 <= i < |deeds| && deeds[i].Marked? :: deeds[i].number
  }

  lemma {:induction false} AfterAppend(c: Contents, a: seq<Deed>, b: seq<Deed>)
    ensures ObjectsAfter(c, a + b) == ObjectsAfter(ObjectsAfter(c, a), b)
    decreases |b|
  {
    if b == [] {
      assert a + b == a;
    } else {
      AfterAppend(c, a, b[..|b| - 1]);
      assert (a + b)[..|a + b| - 1] == a + b[..|b| - 1];
    }
  }

  lemma {:induction false} AfterWrites(c: Contents, ops: seq<Op>)
    ensures ObjectsAfter(c, Writes(ops)) == ApplyOps(c, ops)
    decreases |ops|
  {
    if ops != [] {
      AfterWrites(c, ops[..|ops| - 1]);
      assert Writes(ops)[..|Writes(ops)| - 1] == Writes(ops[..|ops| - 1]);
    }
  }

  lemma {:induction false} AfterApplication(c: Contents, log: TxLog, number: nat)
    requires 1 <= number <= |log|
    ensures ObjectsAfter(c, Application(log[number - 1], number)) == ApplyOps(c, OpsOfEntries(log[number - 1].entries))
  {
    var ops := OpsOfEntries(log[number - 1].entries);
    AfterWrites(c, ops);
    AfterAppend(c, Writes(ops), [Marked(number)]);
    assert [Marked(number)][..0] == [];
  }

  lemma {:induction false} AfterRewrites(c: Contents, log: TxLog, marks: set<nat>, number: nat)
    requires 1 <= number <= |log|
    ensures ObjectsAfter(c, Rewrites(log, marks, number)) == Replayed(c, log, marks, number)
  {
    if number !in marks {
      AfterApplication(c, log, number);
    }
  }

  lemma {:induction false} AfterOneMore(c: Contents, before: seq<Deed>, log: TxLog, marks: set<nat>, number: nat)
    requires 1 <= number <= |log|
    ensures ObjectsAfter(c, before + Rewrites(log, marks, number)) == Replayed(ObjectsAfter(c, before), log, marks, number)
  {
    AfterAppend(c, before, Rewrites(log, marks, number));
    AfterRewrites(ObjectsAfter(c, before), log, marks, number);
  }

  /** Recovery that works from the listing `marks` applies to the objects what the listing lacks. */
  lemma {:induction false} AfterReapplied(c: Contents, log: TxLog, marks: set<nat>, upTo: nat)
    requires upTo <= |log|
    ensures ObjectsAfter(c, Reapplied([], log, marks, upTo)) == ReplayUpTo(c, log, marks, upTo)
    decreases upTo
  {
    if upTo > 0 {
      AfterReapplied(c, log, marks, upTo - 1);
      AfterOneMore(c, Reapplied([], log, marks, upTo - 1), log, marks, upTo);
    }
  }

  lemma {:induction false} MarkersStay(a: seq<Deed>, b: seq<Deed>, n: nat)
    requires n in MarkersAfter(a)
    ensures n in MarkersAfter(a + b)
  {
    var i :| 0 <= i < |a| && a[i].Marked? && a[i].number == n;
    assert (a + b)[i] == a[i];
  }

  lemma {:induction false} RewritesEndMarked(d0: seq<Deed>, log: TxLog, marks: set<nat>, n: nat)
    requires 1 <= n <= |log| && n !in marks
    ensures var deeds := Reapplied(d0, log, marks, n);
      deeds != [] && deeds[|deeds| - 1] == Marked(n)
  {
  }

  lemma {:induction false} PrefixOfMore(a: seq<Deed>, b: seq<Deed>, more: seq<Deed>)
    requires a <= b
    ensures a <= b + more
  {
  }

  lemma {:induction false} ReappliedGrows(d0: seq<Deed>, log: TxLog, marks: set<nat>, n: nat, upTo: nat)
    requires n <= upTo <= |log|
    ensures Reapplied(d0, log, marks, n) <= Reapplied(d0, log, marks, upTo)
    decreases upTo
  {
    if n < upTo {
      ReappliedGrows(d0, log, marks, n, upTo - 1);
      PrefixOfMore(Reapplied(d0, log, marks, n), Reapplied(d0, log, marks, upTo - 1), Rewrites(log, marks, upTo));
    }
  }

  /** Where the marker of an unmarked record `n` is among the writes. */
  lemma {:induction false} MarkedAt(d0: seq<Deed>, log: TxLog, marks: set<nat>, upTo: nat, n: nat) returns (i: nat)
    requires 1 <= n <= upTo <= |log| && n !in marks
    ensures i < |Reapplied(d0, log, marks, upTo)| && Reapplied(d0, log, marks, upTo)[i] == Marked(n)
  {
    RewritesEndMarked(d0, log, marks, n);
    ReappliedGrows(d0, log, marks, n, upTo);
    i := |Reapplied(d0, log, marks, n)| - 1;
  }

  lemma {:induction false} MarkedAfter(log: TxLog, upTo: nat, n: nat)
    requires 1 <= n <= upTo <= |log|
    ensures n in MarkersAfter(Reapplied([], log, {}, upTo))
  {
    var i := MarkedAt([], log, {}, upTo, n);
  }

  /** All appliers are done: every record is applied, in log order, and has its marker. */
  lemma {:induction false} AllApplied(base: Contents, log: TxLog)
    ensures ObjectsAfter(base, Reapplied([], log, {}, |log|)) == StoreAt(base, log)
    ensures forall n :: 1 <= n <= |log| ==> n in MarkersAfter(Reapplied([], log, {}, |log|))
  {
    AfterReapplied(base, log, {}, |log|);
    ReplayUpToIsReplay(base, log, {}, |log|);
    assert log[..|log|] == log;
    ReplayIsUnmarkedOps(base, log, {});
    AllUnmarked(log);
    forall n | 1 <= n <= |log|
      ensures n in MarkersAfter(Reapplied([], log, {}, |log|))
    {
      MarkedAfter(log, |log|, n);
    }
  }

  lemma {:induction false} AllUnmarked(log: TxLog)
    ensures UnmarkedOps(log, {}) == OpsOfLog(log)
    decreases |log|
  {
    if log != [] {
      AllUnmarked(log[..|log| - 1]);
    }
  }

  /** The last mutations of record `n` are the last of the log under all its keys. */
  ghost predicate NotOverwritten(log: TxLog, n: nat)
    requires 1 <= n <= |log|
  {
    forall k :: k in WritesOf(log[n - 1]) ==> LastOn(OpsOfEntries(log[n - 1].entries), k) == LastOn(OpsOfLog(log), k)
  }

  lemma {:induction false} NamedInPart(all: seq<Op>, early: seq<Op>, ops: seq<Op>, k: Key)
    requires early + ops <= all && k in KeysOf(ops)
    ensures k in KeysOf(all)
  {
    var i :| 0 <= i < |ops| && ops[i].key == k;
    assert (early + ops)[|early| + i] == ops[i] && all[|early| + i] == (early + ops)[|early| + i];
  }

  lemma {:induction false} OpsOfMember(log: TxLog, n: nat, k: Key)
    requires 1 <= n <= |log| && k in WritesOf(log[n - 1])
    ensures k in KeysOf(OpsOfEntries(log[n - 1].entries)) && k in KeysOf(OpsOfLog(log))
  {
    WritesAreKeysOfOps(log[n - 1]);
    RecordIsAt(log, n);
    OpsOfLongerLog(log[..n], log);
    NamedInPart(OpsOfLog(log), OpsOfLog(log[..n - 1]), OpsOfEntries(log[n - 1].entries), k);
  }

  /** Applying a record once more is harmless exactly when no later record overwrote it with something else. */
  lemma {:induction false} ReapplyingExactly(base: Contents, log: TxLog, n: nat)
    requires 1 <= n <= |log|
    ensures ApplyOps(StoreAt(base, log), OpsOfEntries(log[n - 1].entries)) == StoreAt(base, log) <==> NotOverwritten(log, n)
  {
    var ops, all := OpsOfEntries(log[n - 1].entries), StoreAt(base, log);
    WritesAreKeysOfOps(log[n - 1]);
    forall k
      ensures Lookup(ApplyOps(all, ops), k) == Lookup(all, k)
         <==> (k in WritesOf(log[n - 1]) ==> LastOn(ops, k) == LastOn(OpsOfLog(log), k))
    {
      LookupIsLast(all, ops, k);
      LookupIsLast(base, OpsOfLog(log), k);
      LastOnNamed(ops, k);
      LastOnNamed(OpsOfLog(log), k);
      if k in WritesOf(log[n - 1]) {
        OpsOfMember(log, n, k);
      }
    }
    if NotOverwritten(log, n) {
      SameEverywhere(ApplyOps(all, ops), all);
    }
  }

  /** Going on to the end of the log, recovery from a listing of a marked prefix restores the fold. */
  lemma {:induction false} WholeRecoveryRestores(base: Contents, log: TxLog, m: nat, listed: set<nat>)
    requires forall i: nat :: 1 <= i <= |log| ==> (i in listed <==> i <= m)
    ensures ReplayUpTo(StoreAt(base, log), log, listed, |log|) == StoreAt(base, log)
  {
    var at := |OpsOfLog(log)|;
    assert OpsOfLog(log)[..at] == OpsOfLog(log) && log[..|log|] == log;
    ReplayUpToIsReplay(StoreAt(base, log), log, listed, |log|);
    forall i | i in listed && 1 <= i <= |log|
      ensures at >= |OpsOfLog(log[..i])|
    {
      OpsOfLongerLog(log[..i], log);
    }
    InOrderIsCrashed(base, log, at);
    InOrderIsTruthful(log, at, listed);
    MarkedPrefixIsNeverOvertaken(log, listed, m);
    RecoveryRestoresFold(base, log, Progress(log, at), listed);
  }

  /** The first record that recovery applies. */
  lemma {:induction false} FirstReapplied(c: Contents, log: TxLog, n: nat, listed: set<nat>)
    requires 1 <= n <= |log| && n !in listed && forall i: nat :: 1 <= i < n ==> i in listed
    ensures ObjectsAfter(c, Reapplied([], log, listed, n)) == ApplyOps(c, OpsOfEntries(log[n - 1].entries))
  {
    PrefixNeedsNoReplay(c, [], log, listed, n - 1);
    AfterOneMore(c, [], log, listed, n);
  }

  /** Every record has its marker, so nothing is left for another recovery. */
  lemma {:induction false} NothingLeft(base: Contents, log: TxLog, more: seq<Deed>)
    ensures var marks := MarkersAfter(Reapplied([], log, {}, |log|) + more);
            (forall i :: 1 <= i <= |log| ==> i in marks) && Reapplied([], log, marks, |log|) == []
  {
    var live := Reapplied([], log, {}, |log|);
    AllApplied(base, log);
    forall i | 1 <= i <= |log|
      ensures i in MarkersAfter(live + more)
    {
      MarkersStay(live, more, i);
    }
    PrefixNeedsNoReplay(base, [], log, MarkersAfter(live + more), |log|);
  }

  lemma {:induction false} OneMoreExactly(base: Contents, log: TxLog, n: nat, listed: set<nat>)
    requires 1 <= n <= |log| && n !in listed && forall i: nat :: 1 <= i < n ==> i in listed
    ensures ObjectsAfter(base, Reapplied([], log, {}, |log|) + Reapplied([], log, listed, n)) == StoreAt(base, log)
       <==> NotOverwritten(log, n)
  {
    AllApplied(base, log);
    AfterAppend(base, Reapplied([], log, {}, |log|), Reapplied([], log, listed, n));
    FirstReapplied(StoreAt(base, log), log, n, listed);
    ReapplyingExactly(base, log, n);
  }

  lemma {:induction false} AllOnceMore(base: Contents, log: TxLog, m: nat, listed: set<nat>)
    requires forall i: nat :: 1 <= i <= |log| ==> (i in listed <==> i <= m)
    ensures ObjectsAfter(base, Reapplied([], log, {}, |log|) + Reapplied([], log, listed, |log|)) == StoreAt(base, log)
  {
    AllApplied(base, log);
    AfterAppend(base, Reapplied([], log, {}, |log|), Reapplied([], log, listed, |log|));
    AfterReapplied(StoreAt(base, log), log, listed, |log|);
    WholeRecoveryRestores(base, log, m, listed);
  }

  /**
    Recovery lists the markers when record `n` is the first without one. Then all appliers finish: every
    record is applied and marked. Recovery applies record `n` again, and the objects are what the log
    says exactly when no later record overwrote it with something else. Otherwise an object is taken
    back although every record has its marker, and if recovery ends there, a later one does nothing
    about it. Going on to the end of the log makes it good.
  */
  lemma {:induction false} LiveRecoveryExactly(base: Contents, log: TxLog, n: nat, listed: set<nat>)
    requires 1 <= n <= |log| && forall i: nat :: 1 <= i <= |log| ==> (i in listed <==> i < n)
    ensures var live, again := Reapplied([], log, {}, |log|), Reapplied([], log, listed, n);
            && ObjectsAfter(base, live) == StoreAt(base, log)
            && (ObjectsAfter(base, live + again) == StoreAt(base, log) <==> NotOverwritten(log, n))
            && (forall i :: 1 <= i <= |log| ==> i in MarkersAfter(live + again))
            && Reapplied([], log, MarkersAfter(live + again), |log|) == []
    ensures ObjectsAfter(base, Reapplied([], log, {}, |log|) + Reapplied([], log, listed, |log|)) == StoreAt(base, log)
  {
    AllApplied(base, log);
    OneMoreExactly(base, log, n, listed);
    NothingLeft(base, log, Reapplied([], log, listed, n));
    AllOnceMore(base, log, n - 1, listed);
  }
}
