/**
  The three conflict checks of a transaction, and why together they leave no gap.

  A transaction begins at tail `b`. Its reads are compared with the store, the log is scanned from
  `b + 1` to a tail `s`, and the committer's hook is shown every commit from the first number it
  tries up to the one before the number it wins.
*/
module TxChecks {
  import opened Wrappers
  import opened LogProtocol
  import opened Revalidation
  import opened Cas
  import opened TxRecords

  function ReadKeys(event: TxEvent): set<Key> {
    if event.Record? then event.readSet.Keys else {}
  }

  function InterleavedWrites(commits: TxLog): set<Key> {
    set i, k | 0 <= i < |commits| && k in WritesOf(commits[i]) :: k
  }

  /** The revalidate hook of the transaction manager: rejects records that read what was written. */
  function RevalidateTx(events: seq<TxEvent>, interleaved: TxLog): Option<seq<Option<TxEvent>>> {
    Some(seq(|events|, i requires 0 <= i < |events| =>
      if ReadKeys(events[i]) * InterleavedWrites(interleaved) != {} then None else Some(events[i])))
  }

  ghost predicate IsTxHook(hook: Option<Hook<TxEvent>>) {
    hook.Some? && forall events, interleaved :: hook.value(events, interleaved) == RevalidateTx(events, interleaved)
  }

  /** None of these commits writes a key of `keys`. */
  ghost predicate Clear(commits: TxLog, keys: set<Key>) {
    forall i :: 0 <= i < |commits| ==> WritesOf(commits[i]) * keys == {}
  }

  lemma {:induction false} ClearIffNoOverlap(commits: TxLog, keys: set<Key>)
    ensures Clear(commits, keys) <==> keys * InterleavedWrites(commits) == {}
  {
  }

  lemma {:induction false} RaceOfOne(hook: Option<Hook<TxEvent>>, entry: Entry<TxEvent>, interleaved: TxLog)
    requires IsTxHook(hook)
    ensures Answers(hook.value, [entry], interleaved) && Answers(hook.value, [], interleaved)
    ensures Leaves(hook, [entry], interleaved, if Clear(interleaved, ReadKeys(entry.event)) then [entry] else [])
    ensures Leaves(hook, [], interleaved, [])
  {
    ClearIffNoOverlap(interleaved, ReadKeys(entry.event));
    var one: seq<Entry<TxEvent>> := [entry];
    var decisions := RevalidateTx(Events(one), interleaved).value;
    assert hook.value(Events(one), interleaved) == Some(decisions);
    assert Events(one)[0] == entry.event && entry.(event := entry.event) == entry;
    assert one[..0] == [] && decisions[..0] == [];
    assert Keep(one, decisions) == if decisions[0].None? then [] else [entry];
    assert decisions[0].None? <==> !Clear(interleaved, ReadKeys(entry.event));
    assert hook.value(Events<TxEvent>([]), interleaved) == RevalidateTx(Events<TxEvent>([]), interleaved);
  }

  lemma {:induction false} LeftOfOne(hook: Option<Hook<TxEvent>>, entry: Entry<TxEvent>, pending: seq<Entry<TxEvent>>,
      interleaved: TxLog, left: seq<Entry<TxEvent>>)
    requires IsTxHook(hook) && (pending == [entry] || pending == []) && Leaves(hook, pending, interleaved, left)
    ensures left == if pending == [entry] && Clear(interleaved, ReadKeys(entry.event)) then [entry] else []
  {
    RaceOfOne(hook, entry, interleaved);
  }

  /** A record survives all lost races exactly when no commit it was shown wrote what it read. */
  lemma {:induction false} SurvivesIffClear(hook: Option<Hook<TxEvent>>, entry: Entry<TxEvent>, course: Course<TxEvent>)
    requires IsTxHook(hook) && RunsThrough(hook, [entry], course)
    ensures course.Last() == if Clear(Shown(course.rounds), ReadKeys(entry.event)) then [entry] else []
    decreases |course.rounds|
  {
    if course.rounds != [] {
      var last := |course.rounds| - 1;
      var before := Course(course.rounds[..last], course.waves[..last + 1]);
      SurvivesIffClear(hook, entry, before);
      LeftOfOne(hook, entry, before.Last(), course.rounds[last], course.Last());
      ClearConcat(Shown(before.rounds), course.rounds[last], ReadKeys(entry.event));
    }
  }

  /** The hook of the manager never fails. */
  lemma {:induction false} HookHolds(hook: Option<Hook<TxEvent>>, entry: Entry<TxEvent>, course: Course<TxEvent>)
    requires IsTxHook(hook)
    ensures !FailsLast(hook, [entry], course)
  {
  }

  lemma {:induction false} ClearConcat(a: TxLog, b: TxLog, keys: set<Key>)
    ensures Clear(a + b, keys) <==> Clear(a, keys) && Clear(b, keys)
  {
    if Clear(a + b, keys) {
      forall i | 0 <= i < |a|
        ensures WritesOf(a[i]) * keys == {}
      {
        assert (a + b)[i] == a[i];
      }
      forall i | 0 <= i < |b|
        ensures WritesOf(b[i]) * keys == {}
      {
        assert (a + b)[|a| + i] == b[i];
      }
    }
  }

  function FoldedValue(base: Contents, ops: seq<Op>, at: nat, k: Key): Option<Data>
    requires at <= |ops|
  {
    Lookup(ApplyOps(base, ops[..at]), k)
  }

  /** The value is what the first `at` mutations of the log leave under `k`. */
  ghost predicate WasFold(base: Contents, log: TxLog, k: Key, value: Option<Data>, at: nat) {
    at <= |OpsOfLog(log)| && value == FoldedValue(base, OpsOfLog(log), at, k)
  }

  /** The mutations from place `at` on leave `value` under `k`, if it was there before them. */
  ghost predicate Agrees(ops: seq<Op>, at: nat, k: Key, value: Option<Data>) {
    at <= |ops| ==> LastOn(ops[at..], k).GetOr(value) == value
  }

  lemma {:induction false} WasFoldOnLongerLog(base: Contents, log: TxLog, longer: TxLog, k: Key, value: Option<Data>,
      at: nat)
    requires log <= longer && WasFold(base, log, k, value, at)
    ensures WasFold(base, longer, k, value, at)
  {
    OpsOfLongerLog(log, longer);
    assert OpsOfLog(longer)[..at] == OpsOfLog(log)[..at];
  }

  /** A mutation of the log puts its key where the log was right after it. */
  lemma {:induction false} MutationIsFold(base: Contents, ops: seq<Op>, upTo: nat)
    requires 0 < upTo <= |ops|
    ensures FoldedValue(base, ops, upTo, ops[upTo - 1].key) == Effect(ops[upTo - 1])
  {
    assert ops[..upTo][..upTo - 1] == ops[..upTo - 1];
  }

  lemma {:induction false} ClearIsQuiet(log: TxLog, b: nat, keys: set<Key>, k: Key)
    requires b <= |log| && Clear(log[b..], keys) && k in keys
    ensures Quiet(log, b, k)
  {
    forall i | b <= i < |log|
      ensures k !in WritesOf(log[i])
    {
      assert log[b..][i - b] == log[i];
      var written := WritesOf(log[i]);
      assert k in written ==> k in written * keys;
    }
  }

  /** What the records after the first `b` do to a key that they do not write: nothing. */
  lemma {:induction false} ClearReadIsStable(base: Contents, log: TxLog, b: nat, keys: set<Key>, k: Key)
    requires b <= |log| && Clear(log[b..], keys) && k in keys
    ensures Lookup(StoreAt(base, log), k) == Lookup(StoreAt(base, log[..b]), k)
  {
    ClearIsQuiet(log, b, keys, k);
    OpsOfLongerLog(log[..b], log);
    QuietKeyIsStable(base, log, b, k, |OpsOfLog(log)|);
    assert OpsOfLog(log)[..|OpsOfLog(log)|] == OpsOfLog(log);
  }

  /**
    Exactly when a transaction with a clear window may be placed at the end of the log, whoever wrote
    whatever to the store: when it read what the records up to its begin point leave.
  */
  lemma {:induction false} ClearWindowExactly(base: Contents, log: TxLog, b: nat, event: TxEvent)
    requires b <= |log| && Clear(log[b..], ReadKeys(event))
    ensures ReadsFold(base, log, event) <==> ReadsFold(base, log[..b], event)
  {
    if event.Record? {
      forall k | k in event.readSet
        ensures Lookup(StoreAt(base, log), k) == Lookup(StoreAt(base, log[..b]), k)
      {
        ClearReadIsStable(base, log, b, ReadKeys(event), k);
      }
    }
  }

  /** The last of these mutations on `k` is among the early ones, from any place on. */
  lemma {:induction false} LastIsEarly(early: seq<Op>, rest: seq<Op>, at: nat, k: Key)
    requires k !in KeysOf(rest) && at <= |early + rest|
    ensures LastOn((early + rest)[at..], k) == if at <= |early| then LastOn(early[at..], k) else None
  {
    LastOnNamed(rest, k);
    if at <= |early| {
      assert (early + rest)[at..] == early[at..] + rest;
      LastOfConcat(early[at..], rest, k);
    } else {
      var late := rest[at - |early|..];
      assert (early + rest)[at..] == late;
      assert rest == rest[..at - |early|] + late;
      LastOfConcat(rest[..at - |early|], late, k);
    }
  }

  /**
    Exactly when a value that the key once had is the value the whole log leaves, if no record after
    the first `b` writes the key: the mutations of these records that had not reached the key when it
    was read leave that value too.
  */
  lemma {:induction false} ReadIsSerialExactly(base: Contents, log: TxLog, b: nat, keys: set<Key>, k: Key,
      value: Option<Data>, at: nat)
    requires b <= |log| && WasFold(base, log, k, value, at) && Clear(log[b..], keys) && k in keys
    ensures value == Lookup(StoreAt(base, log), k) <==> Agrees(OpsOfLog(log[..b]), at, k, value)
  {
    var ops := OpsOfLog(log);
    ClearIsQuiet(log, b, keys, k);
    var rest := QuietMutations(log, b, k);
    assert ops[..at] + ops[at..] == ops;
    ApplyOpsAppend(base, ops[..at], ops[at..]);
    LookupIsLast(ApplyOps(base, ops[..at]), ops[at..], k);
    LastIsEarly(OpsOfLog(log[..b]), rest, at, k);
  }

  /** The same for the place before record `n + 1`. */
  lemma {:induction false} ReadIsSerialBefore(base: Contents, log: TxLog, n: nat, b: nat, keys: set<Key>, k: Key,
      value: Option<Data>, at: nat)
    requires b <= n <= |log| && WasFold(base, log[..n], k, value, at) && Clear(log[b..n], keys) && k in keys
    ensures value == Lookup(StoreAt(base, log[..n]), k) <==> Agrees(OpsOfLog(log[..b]), at, k, value)
  {
    assert log[..n][b..] == log[b..n] && log[..n][..b] == log[..b];
    ReadIsSerialExactly(base, log[..n], b, keys, k, value, at);
  }

  lemma {:induction false} ClearWindowBefore(base: Contents, log: TxLog, n: nat, b: nat, event: TxEvent)
    requires b <= n <= |log| && Clear(log[b..n], ReadKeys(event))
    ensures ReadsFold(base, log[..n], event) <==> ReadsFold(base, log[..b], event)
  {
    assert log[..n][b..] == log[b..n] && log[..n][..b] == log[..b];
    ClearWindowExactly(base, log[..n], b, event);
  }

  /**
    An unapplied record is seen by no check: with one committed before the transaction began, a read
    passes the tag comparison (the store has not changed), the scan and the hook (nothing was committed
    since), and is still not what the log says.
  */
  lemma {:induction false} UnappliedRecordIsMissed(base: Contents, log: TxLog, k: Key)
    requires Lookup(StoreAt(base, log), k) != Lookup(base, k)
    ensures WasFold(base, log, k, Lookup(base, k), 0) && !Agrees(OpsOfLog(log), 0, k, Lookup(base, k))
    ensures Clear(log[|log|..], {k})
    ensures !ReadsFold(base, log, Record(map[k := if k in base then Some(Tag(0, base[k])) else None], [], []))
  {
    assert OpsOfLog(log)[..0] == [] && OpsOfLog(log)[0..] == OpsOfLog(log);
    LookupIsLast(base, OpsOfLog(log), k);
    var event := Record(map[k := if k in base then Some(Tag(0, base[k])) else None], [], []);
    assert k in event.readSet;
  }
}
