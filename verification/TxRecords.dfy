/**
  Transaction records and the store they fold to.

  The commit point of a transaction is its record in the log; the object store is the fold of the
  mutations of all records in log order.
*/
module TxRecords {
  import opened Wrappers
  import opened LogProtocol
  import opened Cas

  type Key = string
  type Data = string

  datatype Op = Put(key: Key, data: Data) | Delete(key: Key)

  /** What a transaction saw of a key: the tag of the object, or that there was none. */
  type Seen = Option<Tag<Data>>

  datatype TxEvent =
    | Record(readSet: map<Key, Seen>, ops: seq<Op>, notes: seq<string>)
    | OtherEvent

  type Contents = map<Key, Data>
  type TxLog = seq<Commit<TxEvent>>

  function Lookup(c: Contents, k: Key): Option<Data> {
    if k in c then Some(c[k]) else None
  }

  function ContentOf(seen: Seen): Option<Data> {
    if seen.Some? then Some(seen.value.content) else None
  }

  function SeenOf(found: Option<Stored<Data>>): Seen {
    if found.Some? then Some(found.value.tag) else None
  }

  function DataOf(found: Option<Stored<Data>>): Option<Data> {
    if found.Some? then Some(found.value.data) else None
  }

  function ApplyOp(c: Contents, op: Op): Contents {
    match op
    case Put(k, data) => c[k := data]
    case Delete(k) => c - {k}
  }

  /** What a mutation leaves under its key. */
  function Effect(op: Op): Option<Data> {
    if op.Put? then Some(op.data) else None
  }

  function ApplyOps(c: Contents, ops: seq<Op>): Contents {
    if ops == [] then c else ApplyOp(ApplyOps(c, ops[..|ops| - 1]), ops[|ops| - 1])
  }

  function OpsOf(event: TxEvent): seq<Op> {
    if event.Record? then event.ops else []
  }

  function OpsOfEntries(entries: seq<Entry<TxEvent>>): seq<Op> {
    if entries == [] then []
    else OpsOfEntries(entries[..|entries| - 1]) + OpsOf(entries[|entries| - 1].event)
  }

  /** All mutations of a log, in log order. */
  function OpsOfLog(log: TxLog): seq<Op> {
    if log == [] then [] else OpsOfLog(log[..|log| - 1]) + OpsOfEntries(log[|log| - 1].entries)
  }

  /** The store once exactly these records have been applied to `base`. */
  function StoreAt(base: Contents, log: TxLog): Contents {
    ApplyOps(base, OpsOfLog(log))
  }

  /** Keys a record mutates. */
  function WriteSet(event: TxEvent): set<Key> {
    set i | 0 <= i < |OpsOf(event)| :: OpsOf(event)[i].key
  }

  function WritesOf(commit: Commit<TxEvent>): set<Key> {
    set i, k | 0 <= i < |commit.entries| && k in WriteSet(commit.entries[i].event) :: k
  }

  function KeysOf(ops: seq<Op>): set<Key> {
    set i | 0 <= i < |ops| :: ops[i].key
  }

  lemma {:induction false} ApplyOpsAppend(c: Contents, a: seq<Op>, b: seq<Op>)
    ensures ApplyOps(c, a + b) == ApplyOps(ApplyOps(c, a), b)
    decreases |b|
  {
    if b == [] {
      assert a + b == a;
    } else {
      ApplyOpsAppend(c, a, b[..|b| - 1]);
      assert (a + b)[..|a + b| - 1] == a + b[..|b| - 1];
    }
  }

  /** Mutations leave keys they do not name alone. */
  lemma {:induction false} Untouched(c: Contents, ops: seq<Op>, k: Key)
    requires k !in KeysOf(ops)
    ensures Lookup(ApplyOps(c, ops), k) == Lookup(c, k)
    decreases |ops|
  {
    if ops != [] {
      var last := ops[|ops| - 1];
      assert last.key in KeysOf(ops);
      forall j | j in KeysOf(ops[..|ops| - 1])
        ensures j in KeysOf(ops)
      {
        var i :| 0 <= i < |ops| - 1 && ops[..|ops| - 1][i].key == j;
        assert ops[i].key == j;
      }
      Untouched(c, ops[..|ops| - 1], k);
    }
  }

  lemma {:induction false} SameEverywhere(c: Contents, d: Contents)
    requires forall k :: Lookup(c, k) == Lookup(d, k)
    ensures c == d
  {
    forall k: Key
      ensures k in c <==> k in d
      ensures k in c ==> c[k] == d[k]
    {
      assert Lookup(c, k) == Lookup(d, k);
    }
  }

  /** What mutations leave under a key they name does not depend on what was there before. */
  lemma {:induction false} Overwritten(c: Contents, d: Contents, ops: seq<Op>, k: Key)
    requires k in KeysOf(ops)
    ensures Lookup(ApplyOps(c, ops), k) == Lookup(ApplyOps(d, ops), k)
    decreases |ops|
  {
    var last := |ops| - 1;
    if ops[last].key != k {
      var i :| 0 <= i < |ops| && ops[i].key == k;
      assert ops[..last][i].key == k;
      Overwritten(c, d, ops[..last], k);
    }
  }

  /** What the last of the mutations that name `k` leaves there; `None` when none names it. */
  function LastOn(ops: seq<Op>, k: Key): Option<Option<Data>> {
    if ops == [] then None
    else
      var last := ops[|ops| - 1];
      if last.key == k then Some(Effect(last)) else LastOn(ops[..|ops| - 1], k)
  }

  /** A key holds what its last mutation left, whatever else was written. */
  lemma {:induction false} LookupIsLast(c: Contents, ops: seq<Op>, k: Key)
    ensures Lookup(ApplyOps(c, ops), k) == LastOn(ops, k).GetOr(Lookup(c, k))
    decreases |ops|
  {
    if ops != [] {
      LookupIsLast(c, ops[..|ops| - 1], k);
    }
  }

  lemma {:induction false} LastOfConcat(a: seq<Op>, b: seq<Op>, k: Key)
    ensures LastOn(a + b, k) == if LastOn(b, k).Some? then LastOn(b, k) else LastOn(a, k)
    decreases |b|
  {
    if b == [] {
      assert a + b == a;
    } else {
      LastOfConcat(a, b[..|b| - 1], k);
      assert (a + b)[..|a + b| - 1] == a + b[..|b| - 1];
    }
  }

  lemma {:induction false} LastOnNamed(ops: seq<Op>, k: Key)
    ensures LastOn(ops, k).Some? <==> k in KeysOf(ops)
    decreases |ops|
  {
    if ops != [] {
      var front, last := ops[..|ops| - 1], ops[|ops| - 1];
      LastOnNamed(front, k);
      KeysOfConcat(front, [last]);
      assert front + [last] == ops;
      assert KeysOf([last]) == {last.key} by {
        assert [last][0].key == last.key;
      }
    }
  }

  lemma {:induction false} OpsOfLongerLog(log: TxLog, longer: TxLog)
    requires log <= longer
    ensures OpsOfLog(log) <= OpsOfLog(longer)
    decreases |longer|
  {
    if log != longer {
      OpsOfLongerLog(log, longer[..|longer| - 1]);
    } else {
      assert log == longer;
    }
  }

  lemma {:induction false} KeysOfEntries(entries: seq<Entry<TxEvent>>, k: Key)
    ensures k in KeysOf(OpsOfEntries(entries)) <==> exists i :: 0 <= i < |entries| && k in WriteSet(entries[i].event)
    decreases |entries|
  {
    if entries != [] {
      var last := |entries| - 1;
      KeysOfEntries(entries[..last], k);
      KeysOfConcat(OpsOfEntries(entries[..last]), OpsOf(entries[last].event));
      assert KeysOf(OpsOf(entries[last].event)) == WriteSet(entries[last].event);
      LastOrEarlier(entries, entries[..last], k);
    }
  }

  lemma {:induction false} LastOrEarlier(entries: seq<Entry<TxEvent>>, front: seq<Entry<TxEvent>>, k: Key)
    requires entries != [] && front == entries[..|entries| - 1]
    ensures (exists i :: 0 <= i < |entries| && k in WriteSet(entries[i].event))
       <==> k in WriteSet(entries[|entries| - 1].event) || exists i :: 0 <= i < |front| && k in WriteSet(front[i].event)
  {
  }

  lemma {:induction false} KeysOfConcat(a: seq<Op>, b: seq<Op>)
    ensures KeysOf(a + b) == KeysOf(a) + KeysOf(b)
  {
    forall k | k in KeysOf(a + b)
      ensures k in KeysOf(a) + KeysOf(b)
    {
      var i :| 0 <= i < |a + b| && (a + b)[i].key == k;
      assert i < |a| ==> a[i].key == k;
      assert i >= |a| ==> b[i - |a|].key == k;
    }
    forall k | k in KeysOf(a) + KeysOf(b)
      ensures k in KeysOf(a + b)
    {
      if i :| 0 <= i < |a| && a[i].key == k {
        assert (a + b)[i].key == k;
      } else {
        var j :| 0 <= j < |b| && b[j].key == k;
        assert (a + b)[|a| + j].key == k;
      }
    }
  }

  lemma {:induction false} WritesAreKeysOfOps(commit: Commit<TxEvent>)
    ensures WritesOf(commit) == KeysOf(OpsOfEntries(commit.entries))
  {
    forall k
      ensures k in WritesOf(commit) <==> k in KeysOf(OpsOfEntries(commit.entries))
    {
      KeysOfEntries(commit.entries, k);
    }
  }

  /** The mutations of a commit that holds one event are those of the event. */
  lemma {:induction false} OpsOfOneEntry(commit: Commit<TxEvent>)
    requires |commit.entries| == 1
    ensures OpsOfEntries(commit.entries) == OpsOf(commit.entries[0].event)
  {
    assert commit.entries[..0] == [];
    assert OpsOfEntries([]) + OpsOf(commit.entries[0].event) == OpsOf(commit.entries[0].event);
  }

  lemma {:induction false} StoreOneMore(base: Contents, log: TxLog, commit: Commit<TxEvent>)
    ensures OpsOfLog(log + [commit]) == OpsOfLog(log) + OpsOfEntries(commit.entries)
    ensures StoreAt(base, log + [commit]) == ApplyOps(StoreAt(base, log), OpsOfEntries(commit.entries))
  {
    assert (log + [commit])[..|log|] == log;
    ApplyOpsAppend(base, OpsOfLog(log), OpsOfEntries(commit.entries));
  }

  lemma {:induction false} OpsPrefix(log: TxLog, n: nat)
    requires n < |log|
    ensures OpsOfLog(log[..n + 1]) == OpsOfLog(log[..n]) + OpsOfEntries(log[n].entries)
  {
    assert log[..n + 1][..n] == log[..n];
  }

  /** Every mutation of every record is in the log, after those of the entries and records before it. */
  lemma {:induction false} MutationIsInLog(log: TxLog, n: nat, i: nat, j: nat)
    requires n < |log| && i < |log[n].entries| && j < |OpsOf(log[n].entries[i].event)|
    ensures var at := |OpsOfLog(log[..n])| + |OpsOfEntries(log[n].entries[..i])| + j;
      at < |OpsOfLog(log)| && OpsOfLog(log)[at] == OpsOf(log[n].entries[i].event)[j]
  {
    var early, ops, all := OpsOfLog(log[..n]), OpsOfEntries(log[n].entries), OpsOfLog(log);
    var k := |OpsOfEntries(log[n].entries[..i])| + j;
    assert early + ops <= all by {
      OpsPrefix(log, n);
      OpsOfLongerLog(log[..n + 1], log);
    }
    assert k < |ops| && ops[k] == OpsOf(log[n].entries[i].event)[j] by {
      MutationIsInEntries(log[n].entries, i, j);
    }
    InPrefix(early, ops, all, k);
  }

  lemma {:induction false} InPrefix<T>(early: seq<T>, piece: seq<T>, all: seq<T>, k: nat)
    requires early + piece <= all && k < |piece|
    ensures |early| + k < |all| && all[|early| + k] == piece[k]
  {
    assert (early + piece)[|early| + k] == piece[k];
  }

  lemma {:induction false} MutationIsInEntries(entries: seq<Entry<TxEvent>>, i: nat, j: nat)
    requires i < |entries| && j < |OpsOf(entries[i].event)|
    ensures |OpsOfEntries(entries[..i])| + j < |OpsOfEntries(entries)|
    ensures OpsOfEntries(entries)[|OpsOfEntries(entries[..i])| + j] == OpsOf(entries[i].event)[j]
    decreases |entries|
  {
    var last := |entries| - 1;
    if i < last {
      MutationIsInEntries(entries[..last], i, j);
      assert entries[..last][..i] == entries[..i];
    }
  }

  lemma {:induction false} StorePrefix(base: Contents, log: TxLog, n: nat)
    requires n < |log|
    ensures StoreAt(base, log[..n + 1]) == ApplyOps(StoreAt(base, log[..n]), OpsOfEntries(log[n].entries))
  {
    StoreOneMore(base, log[..n], log[n]);
    assert log[..n] + [log[n]] == log[..n + 1];
  }

  /** No record after the first `b` writes `k`. */
  ghost predicate Quiet(log: TxLog, b: nat, k: Key) {
    forall i :: b <= i < |log| ==> k !in WritesOf(log[i])
  }

  lemma {:induction false} UnnamedByBoth(ops: seq<Op>, commit: Commit<TxEvent>, k: Key)
    requires k !in KeysOf(ops) && k !in WritesOf(commit)
    ensures k !in KeysOf(ops + OpsOfEntries(commit.entries))
  {
    WritesAreKeysOfOps(commit);
    KeysOfConcat(ops, OpsOfEntries(commit.entries));
  }

  /** The mutations of the records after the first `b` do not name a quiet key. */
  lemma {:induction false} Associates(a: seq<Op>, b: seq<Op>, c: seq<Op>)
    ensures (a + b) + c == a + (b + c)
  {
  }

  lemma {:induction false} QuietStep(log: TxLog, early: seq<Op>, most: seq<Op>, n: nat, k: Key)
    requires n < |log| && OpsOfLog(log[..n]) == early + most && k !in KeysOf(most) && k !in WritesOf(log[n])
    ensures OpsOfLog(log[..n + 1]) == early + (most + OpsOfEntries(log[n].entries))
    ensures k !in KeysOf(most + OpsOfEntries(log[n].entries))
  {
    OpsPrefix(log, n);
    UnnamedByBoth(most, log[n], k);
    Associates(early, most, OpsOfEntries(log[n].entries));
  }

  lemma {:induction false} QuietUpTo(log: TxLog, b: nat, upTo: nat, k: Key) returns (rest: seq<Op>)
    requires b <= upTo <= |log| && Quiet(log, b, k)
    ensures OpsOfLog(log[..upTo]) == OpsOfLog(log[..b]) + rest && k !in KeysOf(rest)
    decreases upTo
  {
    if b == upTo {
      rest := [];
    } else {
      var most := QuietUpTo(log, b, upTo - 1, k);
      rest := most + OpsOfEntries(log[upTo - 1].entries);
      QuietStep(log, OpsOfLog(log[..b]), most, upTo - 1, k);
    }
  }

  lemma {:induction false} QuietMutations(log: TxLog, b: nat, k: Key) returns (rest: seq<Op>)
    requires b <= |log| && Quiet(log, b, k)
    ensures OpsOfLog(log) == OpsOfLog(log[..b]) + rest && k !in KeysOf(rest)
  {
    rest := QuietUpTo(log, b, |log|, k);
    assert log[..|log|] == log;
  }

  /**
    A key that no record after the first `b` writes has one value from the moment those are
    applied, however far the rest has been applied.
  */
  lemma {:induction false} QuietKeyIsStable(base: Contents, log: TxLog, b: nat, k: Key, at: nat)
    requires b <= |log| && Quiet(log, b, k)
    requires |OpsOfLog(log[..b])| <= at <= |OpsOfLog(log)|
    ensures Lookup(ApplyOps(base, OpsOfLog(log)[..at]), k) == Lookup(StoreAt(base, log[..b]), k)
  {
    var early := OpsOfLog(log[..b]);
    var rest := QuietMutations(log, b, k);
    var some := rest[..at - |early|];
    assert OpsOfLog(log)[..at] == early + some;
    ApplyOpsAppend(base, early, some);
    assert rest == some + rest[|some|..];
    KeysOfConcat(some, rest[|some|..]);
    Untouched(ApplyOps(base, early), some, k);
  }

  /** The record read what `before`, the records before it, leave in the store. */
  ghost predicate ReadsFold(base: Contents, before: TxLog, event: TxEvent) {
    event.Record? ==> forall k :: k in event.readSet ==> ContentOf(event.readSet[k]) == Lookup(StoreAt(base, before), k)
  }
}
