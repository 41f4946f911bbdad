/**
  Transactions over the object store and the transaction log.

  A transaction reads and stages; the manager validates, scans, appends the record and applies it.
  Nothing is assumed of the other clients: the theorems say which discipline they need, as
  conditions on the log (`floor`) and on the store (`lawful`, `reached`).
*/
module Transactions {
  import opened Wrappers
  import opened LogProtocol
  import opened LogBucket
  import opened Revalidation
  import opened Committer
  import opened Cas
  import opened TxRecords
  import opened TxPrograms
  import opened TxChecks
  import opened TxRecovery
  import opened ObjectStore

  class Transaction {
    const me: nat
    const store: Store
    var readSet: map<Key, Seen>
    var ops: seq<Op>
    var staged: map<Key, Option<Data>>
    var notes: seq<string>
    var beginTail: Option<nat>
    var sequence: Option<nat>
    ghost var answers: seq<Option<Data>>
    ghost var sightings: seq<Sighting>

    /** What the transaction holds, as its program knows it. */
    ghost function Held(): Local
      reads this
    {
      Local(answers, readSet.Keys, staged, ops, notes)
    }

    ghost predicate Valid()
      reads this, store, store.log
    {
      ValidFor(readSet.Keys)
    }

    /** Every value handed out is of one of these keys and, with lawful writes, was a fold then. */
    ghost predicate ValidFor(keys: set<Key>)
      reads this, store, store.log
    {
      && store.Valid()
      && (beginTail.Some? ==> beginTail.value <= |store.log.s.history|)
      && (forall i :: 0 <= i < |sightings| ==> sightings[i].key in keys)
      && AllTrue(store.lawful, sightings, store.base, store.log.s.history)
    }

    constructor (me: nat, store: Store)
      requires store.Valid()
      ensures Valid() && this.me == me && this.store == store
      ensures Held() == Fresh() && beginTail == None && sightings == []
    {
      this.me := me;
      this.store := store;
      readSet, ops, staged, notes, beginTail, sequence := map[], [], map[], [], None, None;
      answers, sightings := [], [];
    }

    /**
      Whatever happens to the log and to the store, through this transaction, through others of the
      same manager or through anyone else, an open transaction stays valid.
    */
    twostate lemma StaysValid()
      requires old(Valid()) && store.Valid() && unchanged(this) && old(store.log.s.history) <= store.log.s.history
      requires Onwards(old(store.Shown()), store.Shown())
      ensures Valid()
    {
      if store.lawful {
        SightingsStay(true, sightings, store.base, old(store.log.s.history), store.log.s.history);
      }
    }

    /** The log has moved on; neither the store nor the transaction has. */
    twostate lemma StillValid()
      requires old(Valid()) && store.log.Valid() && unchanged(this) && unchanged(store) && old(store.log.s.history) <= store.log.s.history
      ensures Valid()
    {
      store.StillValid();
      StaysValid();
    }

    /** Entering the transaction: its begin point is the current tail of the log. */
    method Begin()
      requires Valid() && sightings == []
      modifies this`beginTail, store.log`s, store.log`budget
      ensures Valid() && Rely(me, old(store.log.s), store.log.s)
      ensures beginTail.Some?
      ensures beginTail.value == 0 || beginTail.value in store.log.s.live
      ensures forall n :: n in store.log.s.live ==> n <= beginTail.value
      ensures store.log.s.floor < |store.log.s.history| || store.log.s.history == [] ==>
        beginTail == Some(|store.log.s.history|)
    {
      var commits := store.log.ListCommits(me, 0);
      store.StillValid();
      beginTail := Some(if commits == [] then 0 else commits[|commits| - 1]);
      if commits != [] {
        assert commits[|commits| - 1] in commits;
      }
      assert store.log.s.floor < |store.log.s.history| ==> |store.log.s.history| in store.log.s.live;
    }

    /** Reads an object for the application; what was seen before stays what it was. */
    method Look(k: Key) returns (found: Option<Stored<Data>>)
      requires Valid()
      modifies store, store.log`s, store.log`budget
      ensures Valid() && store.Later(me)
      ensures found == if k in store.objects then Some(store.objects[k]) else None
      ensures found.Some? ==> found.value.tag.content == found.value.data
      ensures store.lawful ==> WasFold(store.base, store.log.s.history, k, DataOf(found), PlaceOf(store.reached, k))
    {
      found := store.GetObject(me, k);
      StaysValid();
      assert DataOf(found) == Lookup(store.Values(), k);
    }

    /** Reads an object; `handed` says that the application gets to see its value. */
    method Sight(k: Key, ghost handed: bool) returns (found: Option<Stored<Data>>)
      requires Valid()
      modifies this`sightings, store, store.log`s, store.log`budget
      ensures store.Later(me) && (found.Some? ==> found.value.tag.content == found.value.data)
      ensures found == if k in store.objects then Some(store.objects[k]) else None
      ensures sightings == if handed then old(sightings) + [Sighting(k, DataOf(found), PlaceOf(store.reached, k))] else old(sightings)
      ensures ValidFor(readSet.Keys + {k})
    {
      found := Look(k);
      if handed {
        sightings := sightings + [Sighting(k, DataOf(found), PlaceOf(store.reached, k))];
      }
    }

    /** Asks the store for `k`; the first time, what is there is recorded in the read set. */
    method Ask(k: Key) returns (found: Option<Stored<Data>>)
      requires Valid()
      modifies this`readSet, this`sightings, store, store.log`s, store.log`budget
      ensures Valid() && store.Later(me)
      ensures found == if k in store.objects then Some(store.objects[k]) else None
      ensures readSet == ReadSetAfter(old(readSet), k, SeenOf(found))
      ensures k !in old(readSet) ==> ContentOf(readSet[k]) == DataOf(found)
      ensures sightings == if k in staged then old(sightings) else old(sightings) + [Sighting(k, DataOf(found), PlaceOf(store.reached, k))]
    {
      found := Sight(k, k !in staged);
      if k !in readSet {
        readSet := readSet[k := SeenOf(found)];
      }
      assert readSet.Keys == old(readSet).Keys + {k};
    }

    /**
      Reads `k`: its own staged write if there is one, the store otherwise. The first read of a key
      is recorded in the read set, even when a staged write hides it. `found` is what was stored, when
      the store was asked.
    */
    method Get(k: Key) returns (value: Option<Data>, ghost found: Option<Stored<Data>>)
      requires Valid()
      modifies this`readSet, this`answers, this`sightings, store, store.log`s, store.log`budget
      ensures Valid() && Rely(me, old(store.log.s), store.log.s) && Onwards(old(store.Shown()), store.Shown())
      ensures readSet == ReadSetAfter(old(readSet), k, SeenOf(found))
      ensures k !in old(readSet) ==> ContentOf(readSet[k]) == DataOf(found)
      ensures value == if k in old(staged) then old(staged)[k] else DataOf(found)
      ensures k !in old(readSet) || k !in old(staged) ==>
        found == if k in store.objects then Some(store.objects[k]) else None
      ensures Held() == Take(old(Held()), Action.Get(k), DataOf(found))
      ensures sightings == Sighted(old(Held()), Action.Get(k), DataOf(found), PlaceOf(store.reached, k), old(sightings))
    {
      value, found := None, None;
      if k !in readSet || k !in staged {
        var stored := Ask(k);
        value, found := DataOf(stored), stored;
      }
      if k in staged {
        value := staged[k];
      }
      answers := answers + [value];
    }

    method StagePut(k: Key, data: Data)
      requires Valid()
      modifies this`ops, this`staged, this`answers
      ensures Valid() && ops == old(ops) + [Put(k, data)] && staged == old(staged)[k := Some(data)]
      ensures Held() == Take(old(Held()), Write(Put(k, data)), None)
    {
      ops := ops + [Put(k, data)];
      staged := staged[k := Some(data)];
      answers := answers + [None];
    }

    method StageDelete(k: Key)
      requires Valid()
      modifies this`ops, this`staged, this`answers
      ensures Valid() && ops == old(ops) + [Delete(k)] && staged == old(staged)[k := None]
      ensures Held() == Take(old(Held()), Write(Delete(k)), None)
    {
      ops := ops + [Delete(k)];
      staged := staged[k := None];
      answers := answers + [None];
    }

    /** An audit note, carried in the record and not interpreted. */
    method StageNote(text: string)
      requires Valid()
      modifies this`notes, this`answers
      ensures Valid() && notes == old(notes) + [text] && Held() == Take(old(Held()), Note(text), None)
    {
      notes := notes + [text];
      answers := answers + [None];
    }
  }

  /** All values handed out were folds, as long as the writes are lawful. */
  ghost predicate AllTrue(lawful: bool, sightings: seq<Sighting>, base: Contents, log: TxLog) {
    lawful ==> forall i :: 0 <= i < |sightings| ==> WasFold(base, log, sightings[i].key, sightings[i].value, sightings[i].at)
  }

  lemma {:induction false} SightingsStay(lawful: bool, sightings: seq<Sighting>, base: Contents, log: TxLog,
      longer: TxLog)
    requires log <= longer && AllTrue(lawful, sightings, base, log)
    ensures AllTrue(lawful, sightings, base, longer)
  {
    if lawful {
      forall i | 0 <= i < |sightings|
        ensures WasFold(base, longer, sightings[i].key, sightings[i].value, sightings[i].at)
      {
        WasFoldOnLongerLog(base, log, longer, sightings[i].key, sightings[i].value, sightings[i].at);
      }
    }
  }

  datatype Decision = Nothing | NeverEntered | Conflict | AppendFailed | Appended(number: nat)

  /**
    What held when a transaction was decided: whether only mutations of the log had been written until
    then, how far the log had reached each key when it was compared, how far the log was scanned, and
    the first number that the committer tried: the hook was shown all commits from there on.
  */
  datatype Moment = Moment(lawful: bool, at: map<Key, nat>, scanned: nat, first: nat)

  ghost predicate WindowClear(log: TxLog, b: nat, n: nat, keys: set<Key>) {
    b <= n - 1 < |log| && Clear(log[b..n - 1], keys)
  }

  /** The record of a transaction is where it should be, as the only entry of its commit. */
  ghost predicate IsRecorded(log: TxLog, n: nat, me: nat, event: TxEvent) {
    && 1 <= n <= |log| && |log[n - 1].entries| == 1
    && log[n - 1].entries[0].owner == me && log[n - 1].entries[0].event == event
  }

  /** The transaction may be placed at `n`: all it read from the store is what `1 .. n-1` leave. */
  ghost predicate SerialAt(base: Contents, log: TxLog, n: nat, event: TxEvent)
    requires 1 <= n <= |log|
  {
    ReadsFold(base, log[..n - 1], event)
  }

  /** What the records up to `b` had still to do to a key when it was compared, leaves what was read. */
  ghost predicate AllAgree(log: TxLog, b: nat, readSet: map<Key, Seen>, at: map<Key, nat>)
    requires b <= |log|
  {
    forall k :: k in readSet ==> k in at && Agrees(OpsOfLog(log[..b]), at[k], k, ContentOf(readSet[k]))
  }

  /** What was handed out is what `1 .. n-1` leave exactly when the records up to `b` agree with it. */
  ghost predicate Repeatable(base: Contents, log: TxLog, n: nat, b: nat, sightings: seq<Sighting>)
    requires 1 <= n <= |log| && b <= n - 1
  {
    forall i :: 0 <= i < |sightings| ==>
      (sightings[i].value == Lookup(StoreAt(base, log[..n - 1]), sightings[i].key) <==>
        Agrees(OpsOfLog(log[..b]), sightings[i].at, sightings[i].key, sightings[i].value))
  }

  lemma {:induction false} EarlyReadExactly(base: Contents, log: TxLog, early: TxLog, n: nat, b: nat, keys: set<Key>,
      k: Key, value: Option<Data>, at: nat)
    requires 1 <= n <= |log| && WindowClear(log, b, n, keys) && early <= log[..n - 1] && k in keys
    requires WasFold(base, early, k, value, at)
    ensures value == Lookup(StoreAt(base, log[..n - 1]), k) <==> Agrees(OpsOfLog(log[..b]), at, k, value)
  {
    WasFoldOnLongerLog(base, early, log[..n - 1], k, value, at);
    ReadIsSerialBefore(base, log, n - 1, b, keys, k, value, at);
  }

  /** With a clear window and lawful writes, exactly when the reads are serial, key by key and read by read. */
  lemma {:induction false} WindowMakesSerial(base: Contents, log: TxLog, early: TxLog, n: nat, b: nat, event: TxEvent,
      at: map<Key, nat>, sightings: seq<Sighting>)
    requires event.Record? && 1 <= n <= |log| && WindowClear(log, b, n, event.readSet.Keys)
    requires early <= log[..n - 1]
    requires SameAsFold(event.readSet, event.readSet.Keys, base, early, at)
    requires AllTrue(true, sightings, base, early) && forall i :: 0 <= i < |sightings| ==> sightings[i].key in event.readSet
    ensures SerialAt(base, log, n, event) <==> AllAgree(log, b, event.readSet, at)
    ensures Repeatable(base, log, n, b, sightings)
  {
    forall k | k in event.readSet
      ensures ContentOf(event.readSet[k]) == Lookup(StoreAt(base, log[..n - 1]), k)
         <==> Agrees(OpsOfLog(log[..b]), at[k], k, ContentOf(event.readSet[k]))
    {
      EarlyReadExactly(base, log, early, n, b, event.readSet.Keys, k, ContentOf(event.readSet[k]), at[k]);
    }
    forall i | 0 <= i < |sightings|
      ensures sightings[i].value == Lookup(StoreAt(base, log[..n - 1]), sightings[i].key)
         <==> Agrees(OpsOfLog(log[..b]), sightings[i].at, sightings[i].key, sightings[i].value)
    {
      var s := sightings[i];
      EarlyReadExactly(base, log, early, n, b, event.readSet.Keys, s.key, s.value, s.at);
    }
  }

  /** From here on the scan and the hook saw every commit. */
  function InSightFrom(b: nat, moment: Moment): nat {
    if moment.scanned < moment.first - 1 then moment.first - 1 else b
  }

  /** Between the end of the scan and the first number tried nothing was written that was read. */
  ghost predicate NothingMissed(log: TxLog, keys: set<Key>, moment: Moment) {
    forall i :: moment.scanned <= i < moment.first - 1 && i < |log| ==> WritesOf(log[i]) * keys == {}
  }

  /** Commits `b + 1 .. scanned` wrote nothing that was read; without a prune past `b`, that is all of them. */
  ghost predicate ScannedClear(s: State<TxEvent>, b: nat, scanned: nat, keys: set<Key>) {
    && b <= scanned <= |s.history| && Clear(s.history[b..scanned], keys)
    && (s.floor <= b ==> scanned == |s.history|)
  }

  /** A key that was read was found different since. */
  ghost predicate Stale(readSet: map<Key, Seen>, past: seq<Scene>, since: int) {
    exists k, i :: k in readSet && since <= i < |past| && 0 <= i && SeenIn(past[i].objects, k) != readSet[k]
  }

  /** One of the commits after `from` wrote a key that was read. */
  ghost predicate Overlapped(log: TxLog, from: int, keys: set<Key>) {
    exists i :: from <= i < |log| && 0 <= i && WritesOf(log[i]) * keys != {}
  }

  lemma {:induction false} OverlapStays(log: TxLog, longer: TxLog, from: int, keys: set<Key>)
    requires log <= longer && Overlapped(log, from, keys)
    ensures Overlapped(longer, from, keys)
  {
    var i :| from <= i < |log| && 0 <= i && WritesOf(log[i]) * keys != {};
    assert WritesOf(longer[i]) * keys != {};
  }

  lemma {:induction false} OverlapInPiece(log: TxLog, from: nat, upTo: nat, keys: set<Key>)
    requires from <= upTo <= |log| && !Clear(log[from..upTo], keys)
    ensures Overlapped(log, from, keys)
  {
    var piece := log[from..upTo];
    var i :| 0 <= i < |piece| && WritesOf(piece[i]) * keys != {};
    assert WritesOf(log[from + i]) * keys != {};
  }

  /** The number a committer tries first: the one after its tail, or one after all that is there when it has none. */
  ghost predicate TriesFirst(tail: Option<nat>, before: nat, first: nat) {
    if tail.Some? then first == tail.value + 1 else first > before
  }

  ghost function NextToTry(tail: Option<nat>, top: nat): (first: nat)
    ensures TriesFirst(tail, top, first)
  {
    if tail.Some? then tail.value + 1 else top + 1
  }

  class Manager {
    const me: nat
    const store: Store
    const committer: Committer<TxEvent>

    ghost predicate Valid()
      reads this, store, store.log, committer, committer.bucket
    {
      && store.Valid() && committer.Valid()
      && committer.bucket == store.log && committer.me == me
      && committer.maxEventsPerCommit == 1 && IsTxHook(committer.revalidate)
      && committer.pending == [] && !committer.closed
    }

    constructor (me: nat, store: Store, committer: Committer<TxEvent>)
      requires store.Valid() && committer.Valid() && committer.bucket == store.log && committer.me == me
      requires committer.maxEventsPerCommit == 1 && IsTxHook(committer.revalidate)
      requires committer.pending == [] && !committer.closed
      ensures Valid() && this.me == me && this.store == store && this.committer == committer
    {
      this.me := me;
      this.store := store;
      this.committer := committer;
    }

    /** These keys were compared with success since moment `since`, each when the log had reached it to `at`. */
    ghost predicate Compared(tx: Transaction, keys: set<Key>, since: int, at: map<Key, nat>)
      requires keys <= tx.readSet.Keys
      reads store, store.log, tx
    {
      && AllThere(tx.readSet, keys, store.past, since, at)
      && (store.lawful ==> SameAsFold(tx.readSet, keys, store.base, store.log.s.history, at))
    }

    /** Etag-compares one key with the store. */
    method ValidateOne(tx: Transaction, k: Key, ghost keys: set<Key>, ghost since: int, ghost at: map<Key, nat>)
        returns (same: bool, ghost now: map<Key, nat>)
      requires tx.Valid() && tx.store == store && tx.me == me && k in tx.readSet && keys <= tx.readSet.Keys
      requires Compared(tx, keys, since, at) && since < |store.past|
      modifies store, store.log`s, store.log`budget
      ensures tx.Valid() && store.Later(me)
      ensures same ==> Compared(tx, keys + {k}, since, now)
      ensures !same ==> Stale(tx.readSet, store.past, since)
    {
      var found := tx.Look(k);
      same := SeenOf(found) == tx.readSet[k];
      now := at[k := PlaceOf(store.reached, k)];
      if same {
        if store.lawful {
          ValidatedStay(tx.readSet, keys, store.base, old(store.log.s.history), store.log.s.history, at);
        }
        ThereStay(tx.readSet, keys, old(store.past), store.past, since, at);
        assert IsScene(store.past[|store.past| - 1], k, tx.readSet[k], PlaceOf(store.reached, k));
      } else {
        assert SeenIn(store.past[|store.past| - 1].objects, k) != tx.readSet[k];
      }
    }

    /**
      Etag-compares the read set with the store, one key after the other. On success every key was
      found as it was read at some moment of the call, whoever wrote to the store; `at` says how far the
      log had reached it then. On failure some key was found different at some moment of the call.
    */
    method ValidateReads(tx: Transaction) returns (ok: bool, ghost at: map<Key, nat>)
      requires tx.Valid() && tx.store == store && tx.me == me
      modifies store, store.log`s, store.log`budget
      ensures tx.Valid() && store.Later(me)
      ensures ok ==> Compared(tx, tx.readSet.Keys, |old(store.past)| - 1, at)
      ensures !ok ==> Stale(tx.readSet, store.past, |old(store.past)| - 1)
    {
      var todo := tx.readSet.Keys;
      at := map[];
      ghost var done: set<Key>, since := {}, |store.past| - 1;
      while todo != {}
        invariant tx.Valid() && store.Later(me) && done + todo == tx.readSet.Keys
        invariant Compared(tx, done, since, at)
        decreases todo
      {
        ghost var s, shown := store.log.s, store.Shown();
        var k :| k in todo;
        var same;
        same, at := ValidateOne(tx, k, done, since, at);
        RelyIsTransitive(me, old(store.log.s), s, store.log.s);
        OnwardsIsTransitive(old(store.Shown()), shown, store.Shown());
        if !same {
          return false, at;
        }
        todo, done := todo - {k}, done + {k};
      }
      ok := true;
    }

    /** Scans the records committed since the transaction began for writes of what it read. */
    method CheckCommittedSince(tx: Transaction) returns (ok: bool, ghost scanned: nat)
      requires Valid() && tx.store == store && tx.beginTail.Some? && tx.beginTail.value <= |store.log.s.history|
      modifies store.log`s, store.log`budget
      ensures store.log.Valid() && Rely(me, old(store.log.s), store.log.s)
      ensures ok ==> ScannedClear(store.log.s, tx.beginTail.value, scanned, tx.readSet.Keys)
      ensures !ok ==> Overlapped(store.log.s.history, tx.beginTail.value, tx.readSet.Keys)
    {
      var b := tx.beginTail.value;
      var commits := store.log.ReadUntilGap(me, b + 1);
      scanned := b + |commits|;
      for i := 0 to |commits|
        invariant Clear(commits[..i], tx.readSet.Keys)
      {
        var overlap := tx.readSet.Keys * WritesOf(commits[i]);
        if overlap != {} {
          assert WritesOf(store.log.s.history[b + i]) * tx.readSet.Keys != {};
          return false, scanned;
        }
        assert commits[..i + 1] == commits[..i] + [commits[i]];
      }
      assert commits[..|commits|] == commits;
      ok := true;
      assert store.log.s.history[b..scanned] == commits;
    }

    /** The record is the only submission in the queue: the commit lock keeps other transactions out. */
    method Queue(event: TxEvent) returns (ticket: nat)
      requires Valid()
      modifies committer`pending, committer`issued
      ensures committer.Valid() && committer.pending == [Entry(me, ticket, event)]
      ensures ticket !in committer.results
    {
      var tickets := committer.AppendMany([event]);
      ticket := tickets.value[0];
      assert committer.pending[|old(committer.pending)| + 0] == Entry(me, old(committer.issued) + 0, [event][0]);
    }

    /** The batch of this one record: how it ended, and what its caller was told. */
    method FlushOne(ticket: nat, event: TxEvent) returns (outcome: Outcome, ghost first: nat)
      requires store.Valid() && committer.Valid() && committer.bucket == store.log && committer.me == me
      requires committer.maxEventsPerCommit == 1 && IsTxHook(committer.revalidate)
      requires committer.pending == [Entry(me, ticket, event)] && ticket !in committer.results
      modifies committer`pending, committer`tail, committer`results, store.log
      ensures committer.Valid() && committer.pending == [] && committer.tail.Some?
      ensures old(store.log.s.history) <= store.log.s.history && old(store.log.s.floor) <= store.log.s.floor
      ensures TriesFirst(old(committer.tail), |old(store.log.s.history)|, first)
      ensures AppendConcluded(me, event, old(store.log.s.history), store.log.s.history, first, DecisionOf(outcome))
      ensures DecisionOf(outcome).AppendFailed? ==>
        && store.log.puts == old(store.log.puts) + committer.maxCommitAttempts
        && UsedUp(committer.maxCommitAttempts, first, |old(store.log.s.history)|, |store.log.s.history|,
                  store.log.phantoms - old(store.log.phantoms))
    {
      ghost var r0, entry := committer.results, Entry(me, ticket, event);
      var end, batch, first', course := committer.Flush();
      first := first';
      assert batch == [entry];
      OneRecordFlushed(committer.revalidate, entry, batch, first, course, old(store.log.s.history), store.log.s.history, end, r0, committer.results);
      outcome := committer.results[ticket];
    }

    /** Appends the record through the committer; a rejection by the hook is a conflict. */
    method Append(event: TxEvent) returns (decision: Decision, ghost first: nat)
      requires Valid()
      modifies committer`pending, committer`issued, committer`tail, committer`results, store.log
      ensures Valid() && committer.tail.Some?
      ensures old(store.log.s.history) <= store.log.s.history && old(store.log.s.floor) <= store.log.s.floor
      ensures TriesFirst(old(committer.tail), |old(store.log.s.history)|, first)
      ensures AppendConcluded(me, event, old(store.log.s.history), store.log.s.history, first, decision)
      ensures decision.AppendFailed? ==>
        && store.log.puts == old(store.log.puts) + committer.maxCommitAttempts
        && UsedUp(committer.maxCommitAttempts, first, |old(store.log.s.history)|, |store.log.s.history|,
                  store.log.phantoms - old(store.log.phantoms))
    {
      var ticket := Queue(event);
      var outcome;
      outcome, first := FlushOne(ticket, event);
      decision := DecisionOf(outcome);
      store.StillValid();
    }

    /** Steps 1 and 2 of the conflict detection: compare the reads, then scan the log. */
    method Check(tx: Transaction)
        returns (ok: bool, ghost compared: TxLog, ghost at: map<Key, nat>, ghost scanned: nat)
      requires Valid() && tx.Valid() && tx.store == store && tx.me == me && tx.beginTail.Some?
      modifies store, store.log`s, store.log`budget
      ensures Valid() && tx.Valid() && Rely(me, old(store.log.s), store.log.s) && store.deeds == old(store.deeds)
      ensures Onwards(old(store.Shown()), store.Shown())
      ensures store.intrusions == old(store.intrusions) ==>
        store.Held() == old(store.Held()) && store.past == old(store.past)
      ensures ok ==> AllThere(tx.readSet, tx.readSet.Keys, store.past, |old(store.past)| - 1, at)
      ensures old(store.log.s.history) <= compared <= store.log.s.history
      ensures ok && store.lawful ==> SameAsFold(tx.readSet, tx.readSet.Keys, store.base, compared, at)
      ensures AllTrue(store.lawful, tx.sightings, store.base, compared)
      ensures ok ==> ScannedClear(store.log.s, tx.beginTail.value, scanned, tx.readSet.Keys)
      ensures !ok ==>
        Stale(tx.readSet, store.past, |old(store.past)| - 1) || Overlapped(store.log.s.history, tx.beginTail.value, tx.readSet.Keys)
    {
      scanned := 0;
      ok, at := ValidateReads(tx);
      compared := store.log.s.history;
      committer.StillValid();
      if ok {
        label between:
        ok, scanned := CheckCommittedSince(tx);
        committer.StillValid@between();
        tx.StillValid@between();
      }
    }

    ghost function Posted(): Board
      reads store, store.log, committer
    {
      Board(store.past, store.log.s.history, store.log.s.floor, store.log.puts, store.log.phantoms, committer.tail,
            committer.maxCommitAttempts)
    }

    /** Appends the record of a transaction. */
    method AppendRecord(tx: Transaction) returns (decision: Decision, ghost first: nat)
      requires Valid() && tx.Valid() && tx.store == store && tx.beginTail.Some?
      modifies committer`pending, committer`issued, committer`tail, committer`results, store.log
      ensures Valid() && tx.Valid() && committer.tail.Some?
      ensures old(store.log.s.history) <= store.log.s.history && old(store.log.s.floor) <= store.log.s.floor
      ensures TriesFirst(old(committer.tail), |old(store.log.s.history)|, first)
      ensures AppendConcluded(me, RecordOf(tx), old(store.log.s.history), store.log.s.history, first, decision)
      ensures Explained(StakeOf(tx), old(Posted()), Posted(), decision, first)
    {
      ghost var board := Posted();
      decision, first := Append(Record(tx.readSet, tx.ops, tx.notes));
      AppendIsExplained(me, StakeOf(tx), board, Posted(), decision, first);
      tx.StillValid();
    }

    /** Step 3: appends the record of a transaction that passed the first two checks. */
    method AppendChecked(tx: Transaction, ghost compared: TxLog, ghost at: map<Key, nat>, ghost scanned: nat)
        returns (decision: Decision, ghost moment: Moment)
      requires Valid() && tx.Valid() && tx.store == store && tx.me == me && tx.beginTail.Some?
      requires compared <= store.log.s.history
      requires store.lawful ==> SameAsFold(tx.readSet, tx.readSet.Keys, store.base, compared, at)
      requires AllTrue(store.lawful, tx.sightings, store.base, compared)
      requires ScannedClear(store.log.s, tx.beginTail.value, scanned, tx.readSet.Keys)
      modifies committer`pending, committer`issued, committer`tail, committer`results, store.log
      ensures Valid() && tx.Valid()
      ensures old(store.log.s.history) <= store.log.s.history && old(store.log.s.floor) <= store.log.s.floor
      ensures decision.Conflict? || decision.AppendFailed? || decision.Appended?
      ensures AppendEnded(tx, me, old(store.log.s.history), store.log.s.history, decision)
      ensures moment.lawful == store.lawful && moment.at == at && moment.scanned == scanned
      ensures old(committer.tail).Some? && old(store.log.s.floor) <= tx.beginTail.value ==> moment.first <= scanned + 1
      ensures Explained(StakeOf(tx), old(Posted()), Posted(), decision, moment.first)
      ensures decision.Appended? ==> Isolated(tx, decision.number, store.log.s.history, store.base, moment)
    {
      ghost var h := store.log.s.history;
      ghost var first;
      decision, first := AppendRecord(tx);
      moment := Moment(store.lawful, at, scanned, first);
      if decision.Appended? {
        ChecksIsolate(RecordOf(tx), tx.sightings, tx.beginTail.value, decision.number, h, store.log.s.history, compared, store.base, moment);
      }
    }

    /** Appends the record unless the checks have refused it; they began at `o`. */
    method AppendUnlessRefused(tx: Transaction, ok: bool, ghost compared: TxLog, ghost at: map<Key, nat>,
        ghost scanned: nat, ghost o: Board)
        returns (decision: Decision, ghost moment: Moment)
      requires Valid() && tx.Valid() && tx.store == store && tx.me == me && tx.beginTail.Some?
      requires compared <= store.log.s.history && AllTrue(store.lawful, tx.sightings, store.base, compared)
      requires ok ==> AllThere(tx.readSet, tx.readSet.Keys, store.past, |o.past| - 1, at)
      requires ok && store.lawful ==> SameAsFold(tx.readSet, tx.readSet.Keys, store.base, compared, at)
      requires ok ==> ScannedClear(store.log.s, tx.beginTail.value, scanned, tx.readSet.Keys)
      requires o.past <= store.past && o.log <= store.log.s.history
      requires o.tail == committer.tail && o.attempts == committer.maxCommitAttempts
      requires o.puts == store.log.puts && o.refused == store.log.phantoms
      requires !ok ==>
        Stale(tx.readSet, store.past, |o.past| - 1) || Overlapped(store.log.s.history, tx.beginTail.value, tx.readSet.Keys)
      modifies committer`pending, committer`issued, committer`tail, committer`results, store.log
      ensures Valid() && tx.Valid()
      ensures old(store.log.s.history) <= store.log.s.history && old(store.log.s.floor) <= store.log.s.floor
      ensures decision.Conflict? || decision.AppendFailed? || decision.Appended?
      ensures AppendEnded(tx, me, old(store.log.s.history), store.log.s.history, decision)
      ensures moment.lawful == store.lawful
      ensures Justified(StakeOf(tx), o, Posted(), store.base, decision, moment)
    {
      if !ok {
        return Conflict, Moment(store.lawful, map[], 0, NextToTry(committer.tail, |store.log.s.history|));
      }
      ghost var board := Posted();
      decision, moment := AppendChecked(tx, compared, at, scanned);
      ExplainedFrom(StakeOf(tx), o, board, Posted(), decision, moment.first);
      assert store.log.s.history[..|store.log.s.history|] == store.log.s.history;
    }

    /** Compare, scan and append, for a transaction that has entered. */
    method CheckAndAppend(tx: Transaction) returns (decision: Decision, ghost moment: Moment)
      requires Valid() && tx.Valid() && tx.store == store && tx.me == me && tx.beginTail.Some?
      modifies committer`pending, committer`issued, committer`tail, committer`results, store, store.log
      ensures Valid() && tx.Valid() && store.deeds == old(store.deeds) && Onwards(old(store.Shown()), store.Shown())
      ensures old(store.log.s.history) <= store.log.s.history && old(store.log.s.floor) <= store.log.s.floor
      ensures decision.Conflict? || decision.AppendFailed? || decision.Appended?
      ensures AppendEnded(tx, me, old(store.log.s.history), store.log.s.history, decision)
      ensures moment.lawful == store.lawful
      ensures store.intrusions == old(store.intrusions) ==>
        store.Held() == old(store.Held()) && store.past == old(store.past)
      ensures Justified(StakeOf(tx), old(Posted()), Posted(), store.base, decision, moment)
    {
      ghost var board := Posted();
      var ok;
      ghost var compared, at, scanned;
      ok, compared, at, scanned := Check(tx);
      ghost var between := store.log.s.history;
      decision, moment := AppendUnlessRefused(tx, ok, compared, at, scanned, board);
      EndedSince(tx, me, old(store.log.s.history), between, store.log.s.history, decision);
    }

    /**
      The locked part of a commit: validate, scan, append.

      Of an appended record the exact conditions of serial reads are known (`Isolated`). They depend on
      the commits between the end of the scan and the first number that the committer tried. There are
      none if the committer knew a tail beforehand and nothing after the begin point was pruned.
    */
    method Decide(tx: Transaction) returns (decision: Decision, ghost moment: Moment)
      requires Valid() && tx.Valid() && tx.store == store && tx.me == me
      modifies committer`pending, committer`issued, committer`tail, committer`results, store, store.log
      ensures Valid() && tx.Valid() && store.deeds == old(store.deeds) && Onwards(old(store.Shown()), store.Shown())
      ensures old(store.log.s.history) <= store.log.s.history && old(store.log.s.floor) <= store.log.s.floor
      ensures Fits(tx, me, old(store.log.s.history), store.log.s.history, decision)
      ensures moment.lawful == store.lawful
      ensures store.intrusions == old(store.intrusions) ==>
        store.Held() == old(store.Held()) && store.past == old(store.past)
      ensures decision.Appended? ==> decision.number == |store.log.s.history|
      ensures Justified(StakeOf(tx), old(Posted()), Posted(), store.base, decision, moment)
    {
      moment := Moment(store.lawful, map[], 0, NextToTry(committer.tail, |store.log.s.history|));
      if tx.ops == [] && tx.notes == [] {
        return Nothing, moment;
      }
      if tx.beginTail.None? {
        return NeverEntered, moment;
      }
      decision, moment := CheckAndAppend(tx);
    }

    /** What the store holds, where the log is, and what this client wrote. */
    ghost function Now(): Origin
      reads store, store.log
    {
      Origin(store.Held(), store.log.s, store.Shown(), store.deeds)
    }

    /** Applies one mutation; `start` is its place in the log. */
    method ApplyOne(op: Op, ghost start: nat)
      requires store.Valid()
      modifies store, store.log`s, store.log`budget
      ensures store.Valid() && store.log.Horizon() <= old(store.log.Horizon())
      ensures Performed(me, old(Now()), Now(), start, [op])
    {
      ghost var before := store.WriteObject(me, op);
      OneIsFollowed(before, store.Held(), old(store.log.s.history), store.log.s.history, start, op);
      OneWrite(op);
    }

    method ApplyMutation(ops: seq<Op>, j: nat, ghost start: nat, ghost o: Origin)
      requires store.Valid() && j < |ops| && Performed(me, o, Now(), start, ops[..j])
      modifies store, store.log`s, store.log`budget
      ensures store.Valid() && store.log.Horizon() <= old(store.log.Horizon())
      ensures Performed(me, o, Now(), start, ops[..j + 1])
    {
      ApplyOne(ops[j], start + j);
      PerformedFurther(me, o, old(Now()), Now(), start, ops[..j], [ops[j]]);
      assert ops[..j] + [ops[j]] == ops[..j + 1];
    }

    /** Applies one record to the store, mutation by mutation; `start` is the place of the first one. */
    method ApplyRecord(event: TxEvent, ghost start: nat)
      requires store.Valid()
      modifies store, store.log`s, store.log`budget
      ensures store.Valid() && store.log.Horizon() <= old(store.log.Horizon())
      ensures Performed(me, old(Now()), Now(), start, OpsOf(event))
    {
      var ops := OpsOf(event);
      NothingPerformed(me, Now(), start);
      for j := 0 to |ops|
        invariant store.Valid() && store.log.Horizon() <= old(store.log.Horizon())
        invariant Performed(me, old(Now()), Now(), start, ops[..j])
      {
        ApplyMutation(ops, j, start, old(Now()));
      }
      assert ops[..|ops|] == ops;
    }

    method ApplyNext(entries: seq<Entry<TxEvent>>, i: nat, ghost start: nat, ghost o: Origin)
      requires store.Valid() && i < |entries| && Performed(me, o, Now(), start, OpsOfEntries(entries[..i]))
      modifies store, store.log`s, store.log`budget
      ensures store.Valid() && store.log.Horizon() <= old(store.log.Horizon())
      ensures Performed(me, o, Now(), start, OpsOfEntries(entries[..i + 1]))
    {
      ApplyRecord(entries[i].event, start + |OpsOfEntries(entries[..i])|);
      PerformedFurther(me, o, old(Now()), Now(), start, OpsOfEntries(entries[..i]), OpsOf(entries[i].event));
      EntriesOneMore(entries, i);
    }

    method ApplyEntries(entries: seq<Entry<TxEvent>>, ghost start: nat)
      requires store.Valid()
      modifies store, store.log`s, store.log`budget
      ensures store.Valid() && store.log.Horizon() <= old(store.log.Horizon())
      ensures Performed(me, old(Now()), Now(), start, OpsOfEntries(entries))
    {
      NothingPerformed(me, Now(), start);
      for i := 0 to |entries|
        invariant store.Valid() && store.log.Horizon() <= old(store.log.Horizon())
        invariant Performed(me, old(Now()), Now(), start, OpsOfEntries(entries[..i]))
      {
        ApplyNext(entries, i, start, old(Now()));
      }
      assert entries[..|entries|] == entries;
    }

    /** Applies every record of a commit, then puts its marker. */
    method ApplyAndMark(commit: Commit<TxEvent>, number: nat)
      requires store.Valid() && 1 <= number <= |store.log.s.history| && commit == store.log.s.history[number - 1]
      modifies store, store.log`s, store.log`budget
      ensures store.Valid() && Onwards(old(store.Shown()), store.Shown())
      ensures Rely(me, old(store.log.s), store.log.s) && store.log.Horizon() <= old(store.log.Horizon())
      ensures store.intrusions == old(store.intrusions) ==>
        RecordApplied(old(store.Held()), store.Held(), old(store.log.s.history), number)
      ensures store.deeds == old(store.deeds) + Application(commit, number) && number in store.markers
    {
      RecordIsAt(store.log.s.history, number);
      ApplyEntries(commit.entries, |OpsOfLog(store.log.s.history[..number - 1])|);
      ghost var s, shown := store.log.s, store.Shown();
      store.PutMarker(me, number);
      RelyIsTransitive(me, old(store.log.s), s, store.log.s);
      OnwardsIsTransitive(old(store.Shown()), shown, store.Shown());
    }

    /**
      Applies every record of commit `number` to the store, in order and unconditionally, then puts
      the marker. `false` stands for a commit that vanished before it could be applied.
    */
    method ApplyCommit(number: nat) returns (ok: bool)
      requires store.Valid() && 1 <= number <= |store.log.s.history|
      modifies store, store.log`s, store.log`budget
      ensures store.Valid() && store.log.Horizon() <= old(store.log.Horizon())
      ensures CommitApplied(me, old(Now()), Now(), number, ok)
    {
      var found := store.log.GetCommit(me, number);
      store.StillValid();
      if found.None? {
        return false;
      }
      assert found.value == old(store.log.s.history)[number - 1];
      ghost var s := store.log.s;
      assert s.history[..number - 1] == old(store.log.s.history)[..number - 1];
      ApplyAndMark(found.value, number);
      RelyIsTransitive(me, old(store.log.s), s, store.log.s);
      ok := true;
    }

    /** Applies the last commit, which holds this one record; the committer is not concerned. */
    method ApplyLast(number: nat, ghost event: TxEvent) returns (applied: bool)
      requires Valid() && number == |store.log.s.history|
      requires event.Record? && IsRecorded(store.log.s.history, number, me, event)
      modifies store, store.log`s, store.log`budget
      ensures Valid() && old(store.log.s.history) <= store.log.s.history
      ensures AppliedAtMost(old(Now()), Now(), event.ops, Appended(number), applied)
    {
      ghost var o := Now();
      applied := ApplyCommit(number);
      committer.StillValid();
      OneRecordApplied(o, Now(), me, event, applied);
    }

    /** Applies the record just won, outside the lock; everything up to it stays as it was. */
    method ApplyOwn(tx: Transaction, number: nat) returns (applied: bool)
      requires Valid() && tx.store == store && number == |store.log.s.history|
      requires IsRecorded(store.log.s.history, number, me, RecordOf(tx))
      modifies store, store.log`s, store.log`budget, tx`sequence
      ensures Valid() && number <= |store.log.s.history| && store.log.s.history[..number] == old(store.log.s.history)
      ensures tx.sequence == if applied then Some(number) else old(tx.sequence)
      ensures AppliedAtMost(old(Now()), Now(), tx.ops, Appended(number), applied)
    {
      applied := ApplyLast(number, RecordOf(tx));
      assert store.log.s.history[..number] == old(store.log.s.history);
      if applied {
        tx.sequence := Some(number);
      }
    }

    /** Applies what was decided. */
    method ApplyDecided(tx: Transaction, decision: Decision, ghost h0: TxLog) returns (applied: bool)
      requires Valid() && tx.store == store && h0 <= store.log.s.history && Fits(tx, me, h0, store.log.s.history, decision)
      requires decision.Appended? ==> decision.number == |store.log.s.history|
      modifies store, store.log`s, store.log`budget, tx`sequence
      ensures Valid() && Fits(tx, me, h0, store.log.s.history, decision)
      ensures StakeOf(tx) == old(StakeOf(tx)) && tx.Held() == old(tx.Held())
      ensures AppliedAtMost(old(Now()), Now(), tx.ops, decision, applied)
      ensures tx.sequence == if applied then Some(decision.number) else old(tx.sequence)
      ensures store.log.puts == old(store.log.puts) && store.log.phantoms == old(store.log.phantoms)
      ensures committer.tail == old(committer.tail)
      ensures !decision.Appended? ==> Posted() == old(Posted())
    {
      applied := false;
      if decision.Appended? {
        ghost var decided := store.log.s.history;
        applied := ApplyOwn(tx, decision.number);
        FitsLater(tx, me, h0, decided, store.log.s.history, decision);
      }
    }

    /**
      Commits a staged transaction: decide, then apply the record outside the lock. Whatever happens to
      the store afterwards, what was promised of an appended transaction at its place in the log holds,
      and every other open transaction stays valid (`Transaction.StaysValid`). A refusal is explained, and
      a transaction against which nothing stands is refused only when somebody else interferes.
    */
    method Commit(tx: Transaction) returns (decision: Decision, applied: bool, ghost moment: Moment)
      requires Valid() && tx.Valid() && tx.store == store && tx.me == me
      modifies committer`pending, committer`issued, committer`tail, committer`results, store, store.log, tx`sequence
      ensures Valid() && StakeOf(tx) == old(StakeOf(tx)) && tx.Held() == old(tx.Held())
      ensures Fits(tx, me, old(store.log.s.history), store.log.s.history, decision)
      ensures AppliedAtMost(old(Now()), Now(), tx.ops, decision, applied)
      ensures tx.sequence == if applied then Some(decision.number) else old(tx.sequence)
      ensures (store.lawful ==> moment.lawful) && (moment.lawful ==> old(store.lawful))
      ensures Justified(StakeOf(tx), old(Posted()), Posted(), store.base, decision, moment)
      ensures Clean(StakeOf(tx), old(Posted())) && (decision.Conflict? || decision.AppendFailed?) ==>
        !Calm(old(Posted()), Posted())
      ensures !decision.Appended? && store.intrusions == old(store.intrusions) ==> store.past == old(store.past)
    {
      decision, moment := Decide(tx);
      ghost var decided, board, stake := Now(), Posted(), StakeOf(tx);
      applied := ApplyDecided(tx, decision, old(store.log.s.history));
      AppliedSince(old(Now()), decided, Now(), tx.ops, decision, applied);
      JustifiedForGood(stake, old(Posted()), board, Posted(), store.base, decision, moment);
      CleanIsNotRefused(stake, old(Posted()), Posted(), decision, moment.first);
    }

    /** The first number of the log that has no marker, minus one. */
    method MarkedPrefix(marks: set<nat>) returns (start: nat)
      ensures forall n :: 1 <= n <= start ==> n in marks
      ensures start + 1 !in marks
    {
      start := 0;
      var rest := marks;
      while start + 1 in rest
        invariant forall n :: 1 <= n <= start ==> n in marks
        invariant forall n :: n in rest <==> n in marks && !(1 <= n <= start)
        decreases rest
      {
        rest := rest - {start + 1};
        start := start + 1;
      }
    }

    /** One step of recovery: a record with a marker is passed over, another is applied and marked. */
    method RecoverOne(number: nat, marks: set<nat>) returns (ok: bool, done: nat)
      requires store.Valid() && 1 <= number <= |store.log.s.history|
      modifies store, store.log`s, store.log`budget
      ensures store.Valid() && Rely(me, old(store.log.s), store.log.s) && store.log.Horizon() <= old(store.log.Horizon())
      ensures Onwards(old(store.Shown()), store.Shown())
      ensures !ok ==> number <= store.log.s.floor && number !in store.log.s.live && number !in marks
      ensures done == if ok && number !in marks then 1 else 0
      ensures ok ==> OneRecovered(old(Now()), Now(), marks, number)
    {
      ok, done := true, 0;
      if number !in marks {
        ghost var o := Now();
        ok := ApplyCommit(number);
        done := if ok then 1 else 0;
        if ok {
          CommitIsRecovered(me, o, Now(), marks, number);
        }
      }
    }

    /** The run that began in `o` is on track. */
    ghost predicate OnTrack(o: Origin, marks: set<nat>, p: Passage)
      reads store, store.log
    {
      Rely(me, o.s, store.log.s) && Going(o, Now(), marks, p)
    }

    /** An unmarked record was there at `seen`, and was deleted before it could be applied. */
    ghost predicate Vanished(o: Origin, marks: set<nat>, number: nat, seen: State<TxEvent>)
      reads store, store.log
    {
      && Rely(me, o.s, seen) && Dense(seen) && number in seen.live
      && Rely(me, seen, store.log.s) && Onwards(o.shown, store.Shown()) && o.shown.markers <= marks
      && number <= store.log.s.floor && number !in store.log.s.live && number !in marks
    }

    /** Asks for a record. */
    method Fetch(number: nat, ghost o: Origin, ghost marks: set<nat>, ghost p: Passage) returns (present: bool)
      requires store.Valid() && OnTrack(o, marks, p)
      modifies store.log`s, store.log`budget
      ensures store.Valid() && OnTrack(o, marks, p) && store.log.Horizon() <= old(store.log.Horizon())
      ensures present == (number in store.log.s.live) && (present ==> number <= |store.log.s.history|)
    {
      ghost var now := Now();
      var found := store.log.GetCommit(me, number);
      store.StillValid();
      RelyIsTransitive(me, o.s, now.s, store.log.s);
      StillGoing(me, o, now, Now(), marks, p);
      present := found.Some?;
    }

    /** Recovery of one record, on track. */
    method RecoverRecord(p: Passage, marks: set<nat>, ghost o: Origin) returns (next: Option<Passage>)
      requires store.Valid() && p.upTo + 1 in store.log.s.live && OnTrack(o, marks, p)
      modifies store, store.log`s, store.log`budget
      ensures store.Valid() && store.log.Horizon() <= old(store.log.Horizon())
      ensures match next
              case None => Vanished(o, marks, p.upTo + 1, old(store.log.s))
              case Some(q) => q.upTo == p.upTo + 1 && OnTrack(o, marks, q)
    {
      ghost var now := Now();
      var number := p.upTo + 1;
      var ok, done := RecoverOne(number, marks);
      RelyIsTransitive(me, o.s, now.s, store.log.s);
      OnwardsIsTransitive(o.shown, now.shown, store.Shown());
      if !ok {
        return None;
      }
      var q := Passage(number, p.count + done);
      GoingOneMore(me, o, now, Now(), marks, p, q);
      next := Some(q);
    }

    /** What a turn from `p` on comes to. */
    ghost predicate TurnedTo(turn: Turn, p: Passage, horizon: nat, marks: set<nat>, o: Origin, seen: State<TxEvent>)
      reads store, store.log
    {
      match turn
      case Gap => p.upTo + 1 !in store.log.s.live && OnTrack(o, marks, p)
      case Lost => Vanished(o, marks, p.upTo + 1, seen)
      case Passed(q) => q.upTo == p.upTo + 1 <= horizon && OnTrack(o, marks, q)
    }

    /** One turn of the loop: the next record is read, and recovered unless it has a marker. */
    method RecoverNext(p: Passage, marks: set<nat>, ghost o: Origin) returns (turn: Turn, ghost seen: State<TxEvent>)
      requires store.Valid() && OnTrack(o, marks, p)
      modifies store, store.log`s, store.log`budget
      ensures store.Valid() && store.log.Horizon() <= old(store.log.Horizon())
      ensures TurnedTo(turn, p, old(store.log.Horizon()), marks, o, seen)
    {
      var present := Fetch(p.upTo + 1, o, marks, p);
      seen := store.log.s;
      if !present {
        return Gap, seen;
      }
      var next := RecoverRecord(p, marks, o);
      turn := if next.Some? then Passed(next.value) else Lost;
    }

    /** Lists the markers and skips the records of the marked prefix. */
    method RecoverFirst() returns (marks: set<nat>, start: nat)
      requires store.Valid()
      modifies store, store.log`s, store.log`budget
      ensures store.Valid() && store.log.Horizon() <= old(store.log.Horizon())
      ensures OnTrack(old(Now()), marks, Passage(start, 0)) && start + 1 !in marks
    {
      marks := store.ListMarkers(me);
      start := MarkedPrefix(marks);
      RecoveryBegins(old(store.Values()), store.deeds, store.log.s.history, marks, start);
    }

    /** What recovery comes to: it has gone through all records up to a gap. */
    ghost predicate AllRecovered(o: Origin, marks: set<nat>, p: Passage)
      reads store, store.log
    {
      && p.upTo + 1 !in store.log.s.live && OnTrack(o, marks, p)
      && (Undisturbed(o, Now()) ==> p.upTo == |o.s.history|)
    }

    lemma {:induction false} RecoveryEnds(o: Origin, marks: set<nat>, start: nat, p: Passage)
      requires start + 1 !in marks && start <= p.upTo
      requires store.log.Valid() && p.upTo + 1 !in store.log.s.live && OnTrack(o, marks, p)
      ensures AllRecovered(o, marks, p)
    {
      if Undisturbed(o, Now()) {
        assert store.log.s.floor <= start;
      }
    }

    /** Goes on from the first `start` records to a gap, or to a record that is gone. */
    method RecoverRest(start: nat, marks: set<nat>, ghost o: Origin)
        returns (turn: Turn, p: Passage, ghost seen: State<TxEvent>)
      requires store.Valid() && OnTrack(o, marks, Passage(start, 0))
      modifies store, store.log`s, store.log`budget
      ensures store.Valid() && start <= p.upTo && !turn.Passed?
      ensures TurnedTo(turn, p, old(store.log.Horizon()), marks, o, seen)
    {
      p := Passage(start, 0);
      turn, seen := RecoverNext(p, marks, o);
      while turn.Passed?
        invariant store.Valid() && start <= p.upTo && store.log.Horizon() <= old(store.log.Horizon())
        invariant TurnedTo(turn, p, old(store.log.Horizon()), marks, o, seen)
        decreases if turn.Passed? then old(store.log.Horizon()) + 1 - p.upTo else 0
      {
        p := turn.next;
        turn, seen := RecoverNext(p, marks, o);
      }
    }

    /**
      Applies again, in log order, every record that lacks its marker: whoever interferes, exactly the
      records without a marker in the listing, each with all its mutations in order and its marker
      last. When nobody does and only marked records were pruned, the store becomes the replay of
      exactly the unmarked records and every record is marked. `None` stands for an unmarked record that
      was there when it was read and vanished before it could be applied.
    */
    method Recover()
        returns (recovered: Option<nat>, ghost marks: set<nat>, ghost p: Passage, ghost seen: State<TxEvent>)
      requires Valid()
      modifies store, store.log`s, store.log`budget
      ensures Valid() && Rely(me, old(store.log.s), store.log.s) && Onwards(old(store.Shown()), store.Shown())
      ensures match recovered
              case None => Vanished(old(Now()), marks, p.upTo + 1, seen)
              case Some(count) => count == p.count && AllRecovered(old(Now()), marks, p)
    {
      var listed, start := RecoverFirst();
      var turn, passage;
      turn, passage, seen := RecoverRest(start, listed, old(Now()));
      committer.StillValid();
      marks, p := listed, passage;
      if turn.Lost? {
        return None, listed, passage, seen;
      }
      RecoveryEnds(old(Now()), listed, start, passage);
      recovered := Some(passage.count);
    }

    /**
      Crash recovery: from a store whose appliers stopped anywhere, one undisturbed run marks every
      record, leaves a second run nothing to do, and leaves the fold of the whole log exactly when the
      last writes agreed (`TxRecovery.RecoveryExactly`).
    */
    method RecoverAfterCrash(ghost progress: seq<nat>) returns (recovered: Option<nat>)
      requires Valid() && |progress| == |store.log.s.history|
      requires store.Values() == Crashed(store.base, store.log.s.history, progress)
      requires Truthful(store.log.s.history, progress, store.markers)
      modifies store, store.log`s, store.log`budget
      ensures Valid()
      ensures Undisturbed(old(Now()), Now()) ==>
        && recovered == Some(UnmarkedCount(old(store.markers), |store.log.s.history|))
        && (store.Values() == StoreAt(store.base, store.log.s.history) <==> LastWritesAgree(store.log.s.history, old(store.markers)))
        && (forall n: nat :: 1 <= n <= |store.log.s.history| ==> n in store.markers)
        && UnmarkedCount(store.markers, |store.log.s.history|) == 0
        && ReplayUnmarked(store.Values(), store.log.s.history, store.markers) == store.Values()
    {
      RecoveryExactly(store.base, store.log.s.history, progress, store.markers);
      ghost var marks, p, seen;
      recovered, marks, p, seen := Recover();
      var h := store.log.s.history;
      ReplayOfAll(old(store.Values()), h, old(store.markers));
      if forall n: nat :: 1 <= n <= |h| ==> n in store.markers {
        NothingLeftToReplay(store.Values(), h, store.markers);
      }
    }

    /** What the transaction block has come to after `turns` actions of its program. */
    ghost predicate Underway(tx: Transaction, program: Program, turns: nat)
      reads this, store, store.log, committer, committer.bucket, tx
    {
      && Valid() && tx.store == store && tx.me == me && tx.Valid()
      && |tx.answers| == turns && Follows(program, turns, tx.Held(), tx.sightings)
    }

    /** One action of the program. */
    method Perform(tx: Transaction, action: Action, ghost program: Program) returns (answer: Option<Data>)
      requires Underway(tx, program, |tx.answers|) && action == program(tx.answers) && !action.Finish?
      modifies tx`readSet, tx`ops, tx`staged, tx`notes, tx`answers, tx`sightings, store, store.log`s, store.log`budget
      ensures Underway(tx, program, |old(tx.answers)| + 1)
      ensures tx.answers == old(tx.answers) + [answer]
      ensures Rely(me, old(store.log.s), store.log.s) && Onwards(old(store.Shown()), store.Shown())
    {
      ghost var held, sightings, stored := tx.Held(), tx.sightings, None;
      answer := None;
      match action {
        case Get(k) =>
          ghost var found;
          answer, found := tx.Get(k);
          stored := DataOf(found);
        case Write(Put(k, data)) => tx.StagePut(k, data);
        case Write(Delete(k)) => tx.StageDelete(k);
        case Note(text) => tx.StageNote(text);
      }
      committer.StillValid();
      FollowsOneMore(program, |held.answers|, held, sightings, stored,
        if action.Get? then PlaceOf(store.reached, action.key) else 0);
    }

    /** Leaving the block without an exception: what the program did is what it does alone, at its place. */
    method Leave(tx: Transaction, ghost program: Program)
        returns (decision: Decision, applied: bool, ghost moment: Moment)
      requires Underway(tx, program, |tx.answers|) && program(tx.answers).Finish?
      modifies committer`pending, committer`issued, committer`tail, committer`results, store, store.log, tx`sequence
      ensures Valid() && Onwards(old(store.Shown()), store.Shown())
      ensures old(store.log.s.history) <= store.log.s.history
      ensures StakeOf(tx) == old(StakeOf(tx)) && tx.Held() == old(tx.Held())
      ensures Left(tx, me, program, store.base, old(Posted()), Posted(), decision, applied, moment)
      ensures AppliedAtMost(old(Now()), Now(), tx.ops, decision, applied)
    {
      assert forall i :: 0 <= i < |tx.sightings| ==> tx.sightings[i].key in tx.readSet;
      decision, applied, moment := Commit(tx);
      if decision.Appended? {
        RanSeriallyExactly(tx, program, store.base, store.log.s.history, decision.number, moment);
      }
    }

    /** Lets the program take its actions, until it is finished or has taken `patience` of them. */
    method TakeActions(tx: Transaction, program: Program, patience: nat) returns (finished: bool)
      requires Underway(tx, program, 0) && tx.beginTail.Some?
      modifies tx`readSet, tx`ops, tx`staged, tx`notes, tx`answers, tx`sightings, store, store.log`s, store.log`budget
      ensures Underway(tx, program, |tx.answers|)
      ensures finished == program(tx.answers).Finish? && (!finished ==> |tx.answers| == patience)
      ensures Rely(me, old(store.log.s), store.log.s) && Onwards(old(store.Shown()), store.Shown())
    {
      var answers: seq<Option<Data>> := [];
      while |answers| < patience && !program(answers).Finish?
        invariant Underway(tx, program, |answers|) && tx.answers == answers && |answers| <= patience
        invariant Rely(me, old(store.log.s), store.log.s) && Onwards(old(store.Shown()), store.Shown())
      {
        ghost var s, shown := store.log.s, store.Shown();
        var answer := Perform(tx, program(answers), program);
        answers := answers + [answer];
        RelyIsTransitive(me, old(store.log.s), s, store.log.s);
        OnwardsIsTransitive(old(store.Shown()), shown, store.Shown());
      }
      finished := program(answers).Finish?;
    }

    /** Entering the block and everything up to its end. */
    method EnterAndAct(tx: Transaction, program: Program, patience: nat) returns (finished: bool)
      requires Valid() && tx.Valid() && tx.store == store && tx.me == me && tx.Held() == Fresh() && tx.sightings == []
      modifies store, store.log`s, store.log`budget, tx
      ensures Underway(tx, program, |tx.answers|) && tx.beginTail.Some?
      ensures finished == program(tx.answers).Finish? && (!finished ==> |tx.answers| == patience)
      ensures Idled(me, old(Posted()), Posted()) && Onwards(old(store.Shown()), store.Shown())
    {
      tx.Begin();
      committer.StillValid();
      ghost var s := store.log.s;
      finished := TakeActions(tx, program, patience);
      RelyIsTransitive(me, old(store.log.s), s, store.log.s);
    }

    /** Leaving the block, for a transaction that entered when the board was `o`. */
    method LeaveSince(tx: Transaction, program: Program, patience: nat, finished: bool, ghost o: Board,
        ghost shown: Gauge)
        returns (decision: Option<Decision>, applied: bool, ghost moment: Moment)
      requires Underway(tx, program, |tx.answers|) && tx.beginTail.Some?
      requires finished == program(tx.answers).Finish? && (!finished ==> |tx.answers| == patience)
      requires Idled(me, o, Posted()) && Onwards(shown, store.Shown())
      modifies committer`pending, committer`issued, committer`tail, committer`results, store, store.log, tx`sequence
      ensures Valid() && Onwards(shown, store.Shown())
      ensures StakeOf(tx) == old(StakeOf(tx)) && tx.Held() == old(tx.Held())
      ensures Transacted(tx, me, program, patience, store.base, o, Posted(), decision, applied, moment)
    {
      if !finished {
        return None, false, Moment(false, map[], 0, 0);
      }
      ghost var board, before := Posted(), store.Shown();
      var decided;
      decided, applied, moment := Leave(tx, program);
      OnwardsIsTransitive(shown, before, store.Shown());
      LeftSince(tx, me, program, store.base, o, board, Posted(), decided, applied, moment);
      decision := Some(decided);
    }

    /**
      The transaction block: enter, let the program take its actions, commit. A program that is not
      finished after `patience` actions stands for one that raises: what it staged is discarded.
    */
    method Transact(tx: Transaction, program: Program, patience: nat)
        returns (decision: Option<Decision>, applied: bool, ghost moment: Moment)
      requires Valid() && tx.Valid() && tx.store == store && tx.me == me && tx.Held() == Fresh() && tx.sightings == []
      modifies committer`pending, committer`issued, committer`tail, committer`results, store, store.log, tx
      ensures Valid() && Onwards(old(store.Shown()), store.Shown())
      ensures Follows(program, |tx.answers|, tx.Held(), tx.sightings) && tx.beginTail.Some?
      ensures Transacted(tx, me, program, patience, store.base, old(Posted()), Posted(), decision, applied, moment)
    {
      var finished := EnterAndAct(tx, program, patience);
      decision, applied, moment := LeaveSince(tx, program, patience, finished, old(Posted()), old(store.Shown()));
    }
  }

  /**
    What makes a transaction serial at its place in the log: it read what the records up to the last
    commit out of its sight leave, and read nothing twice differently.
  */
  ghost predicate Favourable(tx: Transaction, base: Contents, log: TxLog, moment: Moment)
    reads tx
  {
    && tx.beginTail.Some? && InSightFrom(tx.beginTail.value, moment) <= |log|
    && ReadsFold(base, log[..InSightFrom(tx.beginTail.value, moment)], RecordOf(tx))
    && SameAgain(tx.sightings, tx.readSet)
  }

  /**
    Everything the transaction was handed is what the records before `n` leave, and run alone against
    that the program does what the transaction did.
  */
  ghost predicate RanSerially(tx: Transaction, program: Program, base: Contents, log: TxLog, n: nat)
    reads tx
  {
    && 1 <= n <= |log| && |log[n - 1].entries| == 1 && log[n - 1].entries[0].event == RecordOf(tx)
    && ReadsFold(base, log[..n - 1], RecordOf(tx)) && Saw(StoreAt(base, log[..n - 1]), tx.sightings)
    && Finishes(program, StoreAt(base, log[..n - 1]), |tx.answers|)
    && Serially(program, StoreAt(base, log[..n - 1]), |tx.answers|) == tx.Held()
  }

  lemma {:induction false} PrefixOfPrefix(log: TxLog, n: nat, m: nat)
    requires m <= n <= |log|
    ensures log[..n][..m] == log[..m]
  {
  }

  /** What is known up to record `n` is known for good. */
  lemma {:induction false} SerialForGood(event: TxEvent, sightings: seq<Sighting>, base: Contents, log: TxLog,
      b: nat, n: nat, moment: Moment)
    requires event.Record? && b < n <= |log| && IsolatedAt(event, sightings, b, n, log[..n], base, moment)
    ensures InSightFrom(b, moment) < n
    ensures SerialAt(base, log, n, event) <==> ReadsFold(base, log[..InSightFrom(b, moment)], event)
  {
    PrefixOfPrefix(log, n, n - 1);
    PrefixOfPrefix(log, n, InSightFrom(b, moment));
  }

  /** The transaction is isolated, and exactly in favourable circumstances it ran as if alone. */
  ghost predicate SerialExactlyIf(tx: Transaction, program: Program, base: Contents, log: TxLog, n: nat, moment: Moment)
    reads tx
  {
    && tx.beginTail.Some? && tx.beginTail.value < n <= |log| && Isolated(tx, n, log[..n], base, moment)
    && (RanSerially(tx, program, base, log, n) <==> Favourable(tx, base, log, moment))
  }

  lemma {:induction false} RanSeriallyExactly(tx: Transaction, program: Program, base: Contents, log: TxLog, n: nat,
      moment: Moment)
    requires Follows(program, |tx.answers|, tx.Held(), tx.sightings) && program(tx.answers).Finish?
    requires forall i :: 0 <= i < |tx.sightings| ==> tx.sightings[i].key in tx.readSet
    requires IsRecorded(log, n, tx.me, RecordOf(tx))
    requires tx.beginTail.Some? && tx.beginTail.value < n <= |log| && Isolated(tx, n, log[..n], base, moment)
    ensures SerialExactlyIf(tx, program, base, log, n, moment)
  {
    SerialForGood(RecordOf(tx), tx.sightings, base, log, tx.beginTail.value, n, moment);
    var c := StoreAt(base, log[..n - 1]);
    if ReadsFold(base, log[..n - 1], RecordOf(tx)) {
      SawExactly(c, tx.sightings, tx.readSet);
      if Saw(c, tx.sightings) {
        assert Serially(program, c, |tx.answers|) == tx.Held();
      }
    }
  }

  /** The writes of an applier, mutation by mutation. */
  function Writes(ops: seq<Op>): seq<Deed> {
    if ops == [] then [] else Writes(ops[..|ops| - 1]) + [Wrote(ops[|ops| - 1])]
  }

  lemma {:induction false} WritesAppend(a: seq<Op>, b: seq<Op>)
    ensures Writes(a + b) == Writes(a) + Writes(b)
    decreases |b|
  {
    if b == [] {
      assert a + b == a;
    } else {
      WritesAppend(a, b[..|b| - 1]);
      assert (a + b)[..|a + b| - 1] == a + b[..|b| - 1];
    }
  }

  /** The mutations of a commit go to the store in their order, and the marker comes after all of them. */
  lemma {:induction false} MarkerComesLast(commit: Commit<TxEvent>, number: nat)
    ensures var deeds, ops := Application(commit, number), OpsOfEntries(commit.entries);
      && |deeds| == |ops| + 1 && deeds[|ops|] == Marked(number)
      && forall i :: 0 <= i < |ops| ==> deeds[i] == Wrote(ops[i])
  {
    WritesInOrder(OpsOfEntries(commit.entries));
  }

  lemma {:induction false} WritesInOrder(ops: seq<Op>)
    ensures |Writes(ops)| == |ops| && forall i :: 0 <= i < |ops| ==> Writes(ops)[i] == Wrote(ops[i])
  {
    if ops != [] {
      WritesInOrder(ops[..|ops| - 1]);
    }
  }

  lemma {:induction false} OneWrite(op: Op)
    ensures Writes([op]) == [Wrote(op)]
  {
    assert [op][..0] == [];
    assert Writes([]) + [Wrote(op)] == [Wrote(op)];
  }

  lemma {:induction false} EntriesOneMore(entries: seq<Entry<TxEvent>>, i: nat)
    requires i < |entries|
    ensures OpsOfEntries(entries[..i + 1]) == OpsOfEntries(entries[..i]) + OpsOf(entries[i].event)
  {
    assert entries[..i + 1][..i] == entries[..i];
  }

  /** This client wrote these mutations, and if nobody else wrote, nothing else happened to the store. */
  ghost predicate Performed(me: nat, o: Origin, now: Origin, start: nat, ops: seq<Op>) {
    && Rely(me, o.s, now.s) && Onwards(o.shown, now.shown) && now.deeds == o.deeds + Writes(ops)
    && (now.shown.intrusions == o.shown.intrusions ==> Followed(o.held, now.held, o.s.history, start, ops))
  }

  /** A decided transaction wrote its own record, once, or nothing; and if nobody else wrote, nothing else happened. */
  ghost predicate AppliedAtMost(o: Origin, now: Origin, ops: seq<Op>, decision: Decision, applied: bool) {
    && Onwards(o.shown, now.shown) && o.s.history <= now.s.history && o.s.floor <= now.s.floor
    && if applied then
         && decision.Appended? && 1 <= decision.number <= |now.s.history|
         && now.deeds == o.deeds + Writes(ops) + [Marked(decision.number)]
         && (now.shown.intrusions == o.shown.intrusions ==>
               RecordApplied(o.held, now.held, now.s.history[..decision.number], decision.number))
       else now.deeds == o.deeds && (decision.Appended? ==> decision.number <= now.s.floor)
  }

  /** Commit `number` was applied in full and marked, or it was gone and nothing was written. */
  ghost predicate CommitApplied(me: nat, o: Origin, now: Origin, number: nat, ok: bool)
    requires 1 <= number <= |o.s.history|
  {
    && Rely(me, o.s, now.s) && Onwards(o.shown, now.shown)
    && (if ok then number in now.shown.markers else number <= now.s.floor && number !in now.s.live)
    && (ok && now.shown.intrusions == o.shown.intrusions ==> RecordApplied(o.held, now.held, o.s.history, number))
    && now.deeds == o.deeds + if ok then Application(o.s.history[number - 1], number) else []
  }

  lemma {:induction false} CommitIsRecovered(me: nat, o: Origin, now: Origin, marks: set<nat>, number: nat)
    requires 1 <= number <= |o.s.history| && number !in marks && CommitApplied(me, o, now, number, true)
    requires o.held.markers == o.shown.markers && now.held.markers == now.shown.markers
    ensures OneRecovered(o, now, marks, number)
  {
  }

  /** Applying the last commit, which holds this one record. */
  lemma {:induction false} OneRecordApplied(o: Origin, now: Origin, me: nat, event: TxEvent, applied: bool)
    requires event.Record? && IsRecorded(o.s.history, |o.s.history|, me, event)
    requires CommitApplied(me, o, now, |o.s.history|, applied)
    ensures now.s.history[..|o.s.history|] == o.s.history
    ensures AppliedAtMost(o, now, event.ops, Appended(|o.s.history|), applied)
  {
    OpsOfOneEntry(o.s.history[|o.s.history| - 1]);
    assert now.s.history[..|o.s.history|] == o.s.history;
  }

  lemma {:induction false} AppliedSince(o: Origin, decided: Origin, now: Origin, ops: seq<Op>, decision: Decision,
      applied: bool)
    requires Onwards(o.shown, decided.shown) && o.s.history <= decided.s.history && o.s.floor <= decided.s.floor
    requires decided.deeds == o.deeds && (decided.shown.intrusions == o.shown.intrusions ==> decided.held == o.held)
    requires AppliedAtMost(decided, now, ops, decision, applied)
    ensures AppliedAtMost(o, now, ops, decision, applied)
  {
    OnwardsIsTransitive(o.shown, decided.shown, now.shown);
  }

  lemma {:induction false} NothingPerformed(me: nat, o: Origin, start: nat)
    ensures Performed(me, o, o, start, [])
  {
    NothingFollowed(o.held, o.s.history, start);
  }

  lemma {:induction false} PerformedFurther(me: nat, o: Origin, between: Origin, now: Origin, start: nat,
      ops: seq<Op>, more: seq<Op>)
    requires Performed(me, o, between, start, ops) && Performed(me, between, now, start + |ops|, more)
    ensures Performed(me, o, now, start, ops + more)
  {
    RelyIsTransitive(me, o.s, between.s, now.s);
    OnwardsIsTransitive(o.shown, between.shown, now.shown);
    WritesAppend(ops, more);
    if now.shown.intrusions == o.shown.intrusions {
      FollowedFurther(o.held, between.held, now.held, o.s.history, between.s.history, start, ops, more);
    }
  }

  /** A whole commit applied: all its mutations in order, and the marker last. */
  function Application(commit: Commit<TxEvent>, number: nat): seq<Deed> {
    Writes(OpsOfEntries(commit.entries)) + [Marked(number)]
  }

  function UnmarkedCount(marks: set<nat>, top: nat): nat {
    if top == 0 then 0 else UnmarkedCount(marks, top - 1) + if top in marks then 0 else 1
  }

  lemma {:induction false} CountIsOfTheUnmarked(marks: set<nat>, top: nat)
    ensures UnmarkedCount(marks, top) == |set n: nat | 1 <= n <= top && n !in marks|
  {
    if top > 0 {
      CountIsOfTheUnmarked(marks, top - 1);
      var fewer, all := set n: nat | 1 <= n <= top - 1 && n !in marks, set n: nat | 1 <= n <= top && n !in marks;
      assert all == if top in marks then fewer else fewer + {top};
    }
  }

  /** How many records recovery has gone through, and how many of them it applied. */
  datatype Passage = Passage(upTo: nat, count: nat)

  /** A turn of recovery: the log has a gap, an unmarked record is gone, or one more is dealt with. */
  datatype Turn = Gap | Lost | Passed(next: Passage)

  /** What recovery writes for record `number`. */
  function Rewrites(log: TxLog, marks: set<nat>, number: nat): seq<Deed>
    requires 1 <= number <= |log|
  {
    if number in marks then [] else Application(log[number - 1], number)
  }

  /** The writes so far, after recovery: nothing more for the marked records, the others in full. */
  function Reapplied(before: seq<Deed>, log: TxLog, marks: set<nat>, upTo: nat): seq<Deed>
    requires upTo <= |log|
  {
    if upTo == 0 then before
    else Reapplied(before, log, marks, upTo - 1) + Rewrites(log, marks, upTo)
  }

  /** What recovery makes of the objects with record `number`. */
  function Replayed(c: Contents, log: TxLog, marks: set<nat>, number: nat): Contents
    requires 1 <= number <= |log|
  {
    if number in marks then c else ApplyOps(c, OpsOfEntries(log[number - 1].entries))
  }

  /** The unmarked ones among the first `upTo` records, applied in log order to `c`. */
  function ReplayUpTo(c: Contents, log: TxLog, marks: set<nat>, upTo: nat): Contents
    requires upTo <= |log|
  {
    if upTo == 0 then c else Replayed(ReplayUpTo(c, log, marks, upTo - 1), log, marks, upTo)
  }

  lemma {:induction false} ReplayUpToIsReplay(c: Contents, log: TxLog, marks: set<nat>, upTo: nat)
    requires upTo <= |log|
    ensures ReplayUpTo(c, log, marks, upTo) == ReplayUnmarked(c, log[..upTo], marks)
    decreases upTo
  {
    if upTo > 0 {
      ReplayUpToIsReplay(c, log, marks, upTo - 1);
      assert log[..upTo][..upTo - 1] == log[..upTo - 1];
    }
  }

  lemma {:induction false} ReappliedOnLongerLog(before: seq<Deed>, log: TxLog, longer: TxLog, marks: set<nat>,
      upTo: nat)
    requires log <= longer && upTo <= |log|
    ensures Reapplied(before, log, marks, upTo) == Reapplied(before, longer, marks, upTo)
    decreases upTo
  {
    if upTo > 0 {
      ReappliedOnLongerLog(before, log, longer, marks, upTo - 1);
      assert log[upTo - 1] == longer[upTo - 1];
    }
  }

  /** A store and a log at the moment when recovery begins. */
  datatype Origin = Origin(held: Holding, s: State<TxEvent>, shown: Gauge, deeds: seq<Deed>)

  /** This run has gone through the first `upTo` records and applied those without a marker. */
  ghost predicate Handled(d0: seq<Deed>, log: TxLog, marks: set<nat>, upTo: nat, deeds: seq<Deed>, count: nat) {
    && upTo <= |log|
    && deeds == Reapplied(d0, log, marks, upTo)
    && count == UnmarkedCount(marks, upTo)
  }

  lemma {:induction false} HandledOneMore(d0: seq<Deed>, log: TxLog, longer: TxLog, marks: set<nat>, upTo: nat,
      deeds: seq<Deed>, count: nat, deeds': seq<Deed>, count': nat)
    requires Handled(d0, log, marks, upTo, deeds, count) && log <= longer && upTo < |longer|
    requires deeds' == deeds + (if upTo + 1 in marks then [] else Application(longer[upTo], upTo + 1))
    requires count' == count + if upTo + 1 in marks then 0 else 1
    ensures Handled(d0, longer, marks, upTo + 1, deeds', count')
  {
    ReappliedOnLongerLog(d0, log, longer, marks, upTo);
  }

  /** The store after recovery has dealt with the first `upTo` records and nobody else did anything. */
  ghost predicate Recovered(v0: Contents, log: TxLog, marks: set<nat>, upTo: nat, values: Contents) {
    upTo <= |log| && values == ReplayUpTo(v0, log, marks, upTo)
  }

  /** Nobody else wrote, nothing was appended, and only records that had their marker were pruned. */
  ghost predicate Undisturbed(o: Origin, now: Origin) {
    && now.s.history == o.s.history && now.shown.intrusions == o.shown.intrusions
    && forall n: nat :: 1 <= n <= now.s.floor ==> n in o.shown.markers
  }

  /**
    The first `upTo` records are dealt with: this run applied exactly those that `marks` lacks,
    and if it was undisturbed since it began in `o`, that is all that happened to the store.
  */
  ghost predicate Going(o: Origin, now: Origin, marks: set<nat>, p: Passage) {
    && Onwards(o.shown, now.shown) && o.shown.markers <= marks <= now.shown.markers
    && (forall n: nat :: 1 <= n <= p.upTo ==> n in now.shown.markers)
    && Handled(o.deeds, now.s.history, marks, p.upTo, now.deeds, p.count)
    && (Undisturbed(o, now) ==>
          && marks == o.shown.markers && Recovered(o.held.values, o.s.history, marks, p.upTo, now.held.values)
          && forall n: nat :: n in now.shown.markers <==> n in marks || 1 <= n <= p.upTo)
  }

  lemma {:induction false} StillGoing(me: nat, o: Origin, now: Origin, later: Origin, marks: set<nat>, p: Passage)
    requires Rely(me, o.s, now.s) && Going(o, now, marks, p)
    requires Rely(me, now.s, later.s) && later == now.(s := later.s)
    ensures Going(o, later, marks, p)
  {
    ReappliedOnLongerLog(o.deeds, now.s.history, later.s.history, marks, p.upTo);
  }

  /** What dealing with record `number` does: nothing when it has a marker, else its application. */
  ghost predicate OneRecovered(now: Origin, later: Origin, marks: set<nat>, number: nat)
    requires 1 <= number <= |now.s.history| && number <= |later.s.history|
  {
    && later.deeds == now.deeds + (if number in marks then [] else Application(later.s.history[number - 1], number))
    && (number in marks || number in later.shown.markers)
    && (later.shown.intrusions == now.shown.intrusions ==>
          if number in marks then later.held.values == now.held.values && later.shown.markers == now.shown.markers
          else
            && later.held.values == ApplyOps(now.held.values, OpsOfEntries(now.s.history[number - 1].entries))
            && later.shown.markers == now.shown.markers + {number})
  }

  lemma {:induction false} GoingOneMore(me: nat, o: Origin, now: Origin, later: Origin, marks: set<nat>, p: Passage,
      q: Passage)
    requires Rely(me, o.s, now.s) && Going(o, now, marks, p) && p.upTo < |now.s.history|
    requires Rely(me, now.s, later.s) && Onwards(now.shown, later.shown)
    requires OneRecovered(now, later, marks, p.upTo + 1)
    requires q == Passage(p.upTo + 1, p.count + if p.upTo + 1 in marks then 0 else 1)
    ensures Going(o, later, marks, q)
  {
    HandledOneMore(o.deeds, now.s.history, later.s.history, marks, p.upTo, now.deeds, p.count, later.deeds, q.count);
    if Undisturbed(o, later) {
      assert now.s.history == o.s.history;
      assert Recovered(o.held.values, o.s.history, marks, p.upTo, now.held.values);
    }
  }

  lemma {:induction false} PrefixNeedsNoReplay(c: Contents, deeds: seq<Deed>, log: TxLog, marks: set<nat>, start: nat)
    requires start <= |log| && forall n :: 1 <= n <= start ==> n in marks
    ensures ReplayUpTo(c, log, marks, start) == c && Reapplied(deeds, log, marks, start) == deeds && UnmarkedCount(marks, start) == 0
    decreases start
  {
    if start > 0 {
      PrefixNeedsNoReplay(c, deeds, log, marks, start - 1);
    }
  }

  lemma {:induction false} ReplayOfAll(c: Contents, log: TxLog, marks: set<nat>)
    ensures ReplayUpTo(c, log, marks, |log|) == ReplayUnmarked(c, log, marks)
  {
    assert log[..|log|] == log;
    ReplayUpToIsReplay(c, log, marks, |log|);
  }

  lemma {:induction false} NothingLeftToReplay(c: Contents, log: TxLog, marks: set<nat>)
    requires forall n :: 1 <= n <= |log| ==> n in marks
    ensures ReplayUnmarked(c, log, marks) == c && UnmarkedCount(marks, |log|) == 0
  {
    ReplayOfAll(c, log, marks);
    PrefixNeedsNoReplay(c, [], log, marks, |log|);
  }

  lemma {:induction false} RecoveryBegins(v0: Contents, d0: seq<Deed>, log: TxLog, marks: set<nat>, start: nat)
    requires (forall n :: 1 <= n <= start ==> n in marks) && forall n :: n in marks ==> 1 <= n <= |log|
    ensures Handled(d0, log, marks, start, d0, 0) && Recovered(v0, log, marks, start, v0)
  {
    assert start > 0 ==> start in marks;
    PrefixNeedsNoReplay(v0, d0, log, marks, start);
  }

  /**
    What a decision says of the log: nothing to write and never entered come first; an appended record
    lies after the begin point, alone in its commit; otherwise this manager added nothing.
  */
  ghost predicate Fits(tx: Transaction, me: nat, h0: TxLog, h: TxLog, decision: Decision)
    reads tx`beginTail, tx`readSet, tx`ops, tx`notes
  {
    && (decision == Nothing <==> tx.ops == [] && tx.notes == [])
    && (decision == NeverEntered <==> !(tx.ops == [] && tx.notes == []) && tx.beginTail.None?)
    && if decision.Appended? then
         && tx.beginTail.Some? && tx.beginTail.value < decision.number
         && IsRecorded(h, decision.number, me, RecordOf(tx))
       else Foreign(me, h0, h)
  }

  /** How the append of a transaction that has entered ends. */
  ghost predicate AppendEnded(tx: Transaction, me: nat, h0: TxLog, h: TxLog, decision: Decision)
    requires tx.beginTail.Some?
    reads tx`beginTail, tx`readSet, tx`ops, tx`notes
  {
    match decision
    case Appended(n) => IsRecorded(h, n, me, RecordOf(tx)) && tx.beginTail.value < n == |h|
    case _ => Foreign(me, h0, h)
  }

  lemma {:induction false} EndedSince(tx: Transaction, me: nat, h0: TxLog, h: TxLog, later: TxLog, decision: Decision)
    requires tx.beginTail.Some? && Foreign(me, h0, h) && h <= later && AppendEnded(tx, me, h, later, decision)
    ensures AppendEnded(tx, me, h0, later, decision)
  {
  }

  lemma {:induction false} FitsSince(tx: Transaction, me: nat, h0: TxLog, h: TxLog, later: TxLog, decision: Decision)
    requires Foreign(me, h0, h) && Fits(tx, me, h, later, decision)
    ensures Fits(tx, me, h0, later, decision)
  {
  }

  /** What is known of a transaction whose program is finished: how it was decided, and why. */
  ghost predicate Left(tx: Transaction, me: nat, program: Program, base: Contents, o: Board, now: Board,
      decision: Decision, applied: bool, moment: Moment)
    reads tx
  {
    && program(tx.answers).Finish? && Fits(tx, me, o.log, now.log, decision)
    && Explained(StakeOf(tx), o, now, decision, moment.first)
    && (decision.Appended? ==>
          && SerialExactlyIf(tx, program, base, now.log, decision.number, moment)
          && (o.tail.Some? && now.floor <= tx.beginTail.value ==> moment.first <= moment.scanned + 1)
          && (!applied ==> decision.number <= now.floor))
  }

  /** How a transaction block ends: its program is not finished and nothing was written, or it is decided. */
  ghost predicate Transacted(tx: Transaction, me: nat, program: Program, patience: nat, base: Contents, o: Board,
      now: Board, decision: Option<Decision>, applied: bool, moment: Moment)
    reads tx
  {
    && o.log <= now.log
    && match decision
       case None =>
         && |tx.answers| == patience && !program(tx.answers).Finish?
         && !applied && Foreign(me, o.log, now.log)
       case Some(d) => Left(tx, me, program, base, o, now, d, applied, moment)
  }

  /** Time has passed, but this manager has tried to append nothing. */
  ghost predicate Idled(me: nat, o: Board, now: Board) {
    && o.past <= now.past && Foreign(me, o.log, now.log)
    && o.tail == now.tail && o.attempts == now.attempts && o.puts == now.puts && o.refused == now.refused
  }

  lemma {:induction false} LeftSince(tx: Transaction, me: nat, program: Program, base: Contents, o: Board,
      between: Board, now: Board, decision: Decision, applied: bool, moment: Moment)
    requires Left(tx, me, program, base, between, now, decision, applied, moment)
    requires Idled(me, o, between)
    ensures Left(tx, me, program, base, o, now, decision, applied, moment)
  {
    ExplainedFrom(StakeOf(tx), o, between, now, decision, moment.first);
    FitsSince(tx, me, o.log, between.log, now.log, decision);
  }

  lemma {:induction false} FitsLater(tx: Transaction, me: nat, h0: TxLog, h: TxLog, later: TxLog, decision: Decision)
    requires Fits(tx, me, h0, h, decision) && decision.Appended? && decision.number <= |h| <= |later| && later[..|h|] == h
    ensures Fits(tx, me, h0, later, decision)
  {
    assert later[decision.number - 1] == later[..|h|][decision.number - 1];
  }

  /**
    What an appended transaction may rely on: the exact conditions of serial reads, given by the last
    commit out of its sight. Its window is clear exactly when the commits that neither the scan nor the
    hook saw wrote nothing it read, and then the begin point will do.
  */
  ghost predicate Isolated(tx: Transaction, n: nat, log: TxLog, base: Contents, moment: Moment)
    reads tx`beginTail, tx`readSet, tx`ops, tx`notes, tx`sightings
    requires tx.beginTail.Some? && tx.beginTail.value < n && 1 <= n <= |log|
  {
    IsolatedAt(RecordOf(tx), tx.sightings, tx.beginTail.value, n, log, base, moment)
  }

  ghost predicate IsolatedAt(event: TxEvent, sightings: seq<Sighting>, b: nat, n: nat, log: TxLog, base: Contents,
      moment: Moment)
    requires event.Record? && b < n && 1 <= n <= |log|
  {
    && InSightFrom(b, moment) < n && SerialExactlyFrom(event, sightings, InSightFrom(b, moment), n, log, base, moment)
    && (WindowClear(log, b, n, event.readSet.Keys) <==> NothingMissed(log, event.readSet.Keys, moment))
    && (WindowClear(log, b, n, event.readSet.Keys) ==> SerialExactlyFrom(event, sightings, b, n, log, base, moment))
  }

  /**
    The reads are serial exactly when they are what the first `b` records leave, whoever wrote what to the
    store; and, if only mutations of the log were written, exactly when what these records had still to do
    to each key, when it was compared, leaves what was read.
  */
  ghost predicate SerialExactlyFrom(event: TxEvent, sightings: seq<Sighting>, b: nat, n: nat, log: TxLog,
      base: Contents, moment: Moment)
    requires event.Record? && b < n && 1 <= n <= |log|
  {
    && (SerialAt(base, log, n, event) <==> ReadsFold(base, log[..b], event))
    && (moment.lawful ==>
          && (SerialAt(base, log, n, event) <==> AllAgree(log, b, event.readSet, moment.at))
          && Repeatable(base, log, n, b, sightings))
  }

  /** Where a transaction began, its record, and what it was handed. */
  datatype Stake = Stake(begin: Option<nat>, event: TxEvent, sightings: seq<Sighting>)

  ghost function StakeOf(tx: Transaction): Stake
    reads tx`beginTail, tx`readSet, tx`ops, tx`notes, tx`sightings
  {
    Stake(tx.beginTail, RecordOf(tx), tx.sightings)
  }

  /** What a decision can be explained from: what the store showed, the log, and how the committer stands. */
  datatype Board = Board(past: seq<Scene>, log: TxLog, floor: nat, puts: nat, refused: nat, tail: Option<nat>,
    attempts: nat)

  /**
    Why a transaction is refused: what it read was found changed, or a commit after its begin point, or
    from the first number tried on, wrote what it read. And why its append fails: all attempts were lost.
  */
  ghost predicate Explained(stake: Stake, o: Board, now: Board, decision: Decision, first: nat) {
    && TriesFirst(o.tail, |o.log|, first)
    && match decision
       case Conflict =>
         && stake.event.Record? && stake.begin.Some?
         && (|| Stale(stake.event.readSet, now.past, |o.past| - 1)
             || Overlapped(now.log, stake.begin.value, stake.event.readSet.Keys)
             || Overlapped(now.log, first - 1, stake.event.readSet.Keys))
       case AppendFailed =>
         now.puts == o.puts + o.attempts && UsedUp(o.attempts, first, |o.log|, |now.log|, now.refused - o.refused)
       case _ => true
  }

  /** Nothing stands against a transaction: what it read is still there, and nobody wrote it since. */
  ghost predicate Clean(stake: Stake, o: Board) {
    && stake.event.Record? && stake.begin.Some? && o.past != []
    && (forall k :: k in stake.event.readSet ==> SeenIn(o.past[|o.past| - 1].objects, k) == stake.event.readSet[k])
    && !Overlapped(o.log, stake.begin.value, stake.event.readSet.Keys)
    && (o.tail.Some? ==> !Overlapped(o.log, o.tail.value, stake.event.readSet.Keys))
    && (o.attempts >= 2 || (o.attempts == 1 && (o.tail.Some? ==> o.tail.value == |o.log|)))
  }

  /** From `o` to `now` nobody wrote an object, appended a record or had a put rejected. */
  ghost predicate Calm(o: Board, now: Board) {
    now.past == o.past && now.log == o.log && now.refused == o.refused
  }

  lemma {:induction false} CleanIsNotRefused(stake: Stake, o: Board, now: Board, decision: Decision, first: nat)
    requires Explained(stake, o, now, decision, first)
    ensures Clean(stake, o) && (decision.Conflict? || decision.AppendFailed?) ==> !Calm(o, now)
  {
  }

  lemma {:induction false} AppendIsExplained(me: nat, stake: Stake, o: Board, now: Board, decision: Decision,
      first: nat)
    requires stake.event.Record? && stake.begin.Some? && TriesFirst(o.tail, |o.log|, first)
    requires AppendConcluded(me, stake.event, o.log, now.log, first, decision)
    requires decision.AppendFailed? ==>
      now.puts == o.puts + o.attempts && UsedUp(o.attempts, first, |o.log|, |now.log|, now.refused - o.refused)
    ensures Explained(stake, o, now, decision, first)
  {
  }

  lemma {:induction false} ExplainedFrom(stake: Stake, o: Board, between: Board, now: Board, decision: Decision,
      first: nat)
    requires Explained(stake, between, now, decision, first) && o.past <= between.past && o.log <= between.log
    requires o.tail == between.tail && o.attempts == between.attempts
    requires o.puts == between.puts && o.refused == between.refused
    ensures Explained(stake, o, now, decision, first)
  {
  }

  lemma {:induction false} StillExplained(stake: Stake, o: Board, now: Board, later: Board, decision: Decision,
      first: nat)
    requires Explained(stake, o, now, decision, first) && now.past <= later.past && now.log <= later.log
    requires now.puts == later.puts && now.refused == later.refused
    ensures Explained(stake, o, later, decision, first)
  {
    if decision.Conflict? {
      var seen, keys := stake.event.readSet, stake.event.readSet.Keys;
      if Stale(seen, now.past, |o.past| - 1) {
        var k, i :| k in seen && |o.past| - 1 <= i < |now.past| && 0 <= i && SeenIn(now.past[i].objects, k) != seen[k];
        assert SeenIn(later.past[i].objects, k) != seen[k];
      } else if Overlapped(now.log, stake.begin.value, keys) {
        OverlapStays(now.log, later.log, stake.begin.value, keys);
      } else {
        OverlapStays(now.log, later.log, first - 1, keys);
      }
    }
  }

  /** What an appended transaction is promised: the store showed what it read, and it is isolated at its place. */
  ghost predicate Promised(stake: Stake, past: seq<Scene>, since: int, log: TxLog, base: Contents,
      decision: Decision, moment: Moment) {
    decision.Appended? ==>
      && stake.begin.Some? && stake.begin.value < decision.number <= |log| && stake.event.Record?
      && AllThere(stake.event.readSet, stake.event.readSet.Keys, past, since, moment.at)
      && IsolatedAt(stake.event, stake.sightings, stake.begin.value, decision.number, log[..decision.number], base, moment)
  }

  /**
    What is known of every decision: an appended transaction has what it is promised, and was scanned for
    at least up to where the log was; a refusal is explained.
  */
  ghost predicate Justified(stake: Stake, o: Board, now: Board, base: Contents, decision: Decision, moment: Moment) {
    && Promised(stake, now.past, |o.past| - 1, now.log, base, decision, moment)
    && Explained(stake, o, now, decision, moment.first)
    && (decision.Appended? && now.floor <= stake.begin.value ==>
          |o.log| <= moment.scanned && (o.tail.Some? ==> moment.first <= moment.scanned + 1))
  }

  lemma {:induction false} JustifiedForGood(stake: Stake, o: Board, now: Board, later: Board, base: Contents,
      decision: Decision, moment: Moment)
    requires Justified(stake, o, now, base, decision, moment)
    requires now.past <= later.past && now.log <= later.log && now.floor <= later.floor
    requires now.puts == later.puts && now.refused == later.refused
    ensures Justified(stake, o, later, base, decision, moment)
  {
    StillExplained(stake, o, now, later, decision, moment.first);
    if decision.Appended? {
      ThereStay(stake.event.readSet, stake.event.readSet.Keys, now.past, later.past, |o.past| - 1, moment.at);
      assert later.log[..decision.number] == now.log[..decision.number];
    }
  }

  /** Scan and hook leave open only what lies between them. */
  lemma {:induction false} WindowExactly(log: TxLog, b: nat, n: nat, keys: set<Key>, moment: Moment)
    requires 1 <= n <= |log| && b <= moment.scanned < n && 1 <= moment.first <= n
    requires Clear(log[b..moment.scanned], keys) && Clear(log[moment.first - 1..n - 1], keys)
    ensures WindowClear(log, b, n, keys) <==> NothingMissed(log, keys, moment)
  {
    if NothingMissed(log, keys, moment) {
      var window := log[b..n - 1];
      forall i | 0 <= i < |window|
        ensures WritesOf(window[i]) * keys == {}
      {
        if b + i < moment.scanned {
          assert log[b..moment.scanned][i] == window[i];
        } else if b + i >= moment.first - 1 {
          assert log[moment.first - 1..n - 1][b + i - (moment.first - 1)] == window[i];
        }
      }
    }
    if WindowClear(log, b, n, keys) {
      forall i | moment.scanned <= i < moment.first - 1 && i < |log|
        ensures WritesOf(log[i]) * keys == {}
      {
        assert log[b..n - 1][i - b] == log[i];
      }
    }
  }

  /** From where every commit was seen, nothing that was read was written. */
  lemma {:induction false} ClearInSight(log: TxLog, b: nat, n: nat, keys: set<Key>, moment: Moment)
    requires 1 <= n <= |log| && b <= moment.scanned < n && 1 <= moment.first <= n
    requires Clear(log[b..moment.scanned], keys) && Clear(log[moment.first - 1..n - 1], keys)
    ensures InSightFrom(b, moment) < n && WindowClear(log, InSightFrom(b, moment), n, keys)
  {
    if moment.scanned >= moment.first - 1 {
      WindowExactly(log, b, n, keys, moment);
    }
  }

  lemma {:induction false} ClearWindowIsolates(event: TxEvent, sightings: seq<Sighting>, b: nat, n: nat, log: TxLog,
      compared: TxLog, base: Contents, moment: Moment)
    requires event.Record? && 1 <= n <= |log| && WindowClear(log, b, n, event.readSet.Keys) && compared <= log[..n - 1]
    requires moment.lawful ==> SameAsFold(event.readSet, event.readSet.Keys, base, compared, moment.at)
    requires forall i :: 0 <= i < |sightings| ==> sightings[i].key in event.readSet
    requires AllTrue(moment.lawful, sightings, base, compared)
    ensures SerialExactlyFrom(event, sightings, b, n, log, base, moment)
  {
    ClearWindowBefore(base, log, n - 1, b, event);
    if moment.lawful {
      WindowMakesSerial(base, log, compared, n, b, event, moment.at, sightings);
    }
  }

  /** Comparison, scan and hook add up, at the place that was won. */
  lemma {:induction false} ChecksIsolate(event: TxEvent, sightings: seq<Sighting>, b: nat, n: nat, scanned: TxLog,
      log: TxLog, compared: TxLog, base: Contents, moment: Moment)
    requires event.Record? && b <= moment.scanned <= |scanned| < n <= |log|
    requires compared <= scanned <= log && Clear(scanned[b..moment.scanned], event.readSet.Keys)
    requires 1 <= moment.first <= n && Clear(log[moment.first - 1..n - 1], event.readSet.Keys)
    requires moment.lawful ==> SameAsFold(event.readSet, event.readSet.Keys, base, compared, moment.at)
    requires forall i :: 0 <= i < |sightings| ==> sightings[i].key in event.readSet
    requires AllTrue(moment.lawful, sightings, base, compared)
    ensures IsolatedAt(event, sightings, b, n, log, base, moment)
  {
    assert log[b..moment.scanned] == scanned[b..moment.scanned];
    assert compared <= log[..n - 1];
    ClearInSight(log, b, n, event.readSet.Keys, moment);
    ClearWindowIsolates(event, sightings, InSightFrom(b, moment), n, log, compared, base, moment);
    WindowExactly(log, b, n, event.readSet.Keys, moment);
    if WindowClear(log, b, n, event.readSet.Keys) {
      ClearWindowIsolates(event, sightings, b, n, log, compared, base, moment);
    }
  }

  ghost function RecordOf(tx: Transaction): TxEvent
    reads tx`readSet, tx`ops, tx`notes
  {
    Record(tx.readSet, tx.ops, tx.notes)
  }

  function DecisionOf(outcome: Outcome): Decision {
    match outcome
    case Acked(n, _) => Appended(n)
    case Rejected => Conflict
    case _ => AppendFailed
  }

  /**
    An appended record is the last commit, and no commit from `first` up to it wrote what it read; a
    rejected one met a commit from `first` on that did.
  */
  ghost predicate AppendConcluded(me: nat, event: TxEvent, h0: TxLog, h: TxLog, first: nat, decision: Decision) {
    match decision
    case Appended(n) =>
      && IsRecorded(h, n, me, event) && n == |h| && n > |h0| && 1 <= first <= n
      && Clear(h[first - 1..n - 1], ReadKeys(event))
    case Conflict => Foreign(me, h0, h) && Overlapped(h, first - 1, ReadKeys(event))
    case AppendFailed => Foreign(me, h0, h)
    case _ => false
  }

  /** How a batch of one record ends: won with a clear window, rejected, or given up. */
  ghost predicate OneRecordEnded(entry: Entry<TxEvent>, first: nat, log: TxLog, end: BatchEnd, outcome: Outcome) {
    match end
    case BatchWon(n) =>
      && outcome == Acked(n, 0) && 1 <= first <= n <= |log| && log[n - 1].entries == [entry]
      && Clear(log[first - 1..n - 1], ReadKeys(entry.event))
    case AllRejected => outcome == Rejected && Overlapped(log, first - 1, ReadKeys(entry.event))
    case GaveUp => outcome == Exhausted
    case HookFailed => false
  }

  lemma {:induction false} OneRecordEnds(hook: Option<Hook<TxEvent>>, entry: Entry<TxEvent>, first: nat,
      course: Course<TxEvent>, log: TxLog, end: BatchEnd, r0: map<nat, Outcome>, r: map<nat, Outcome>)
    requires IsTxHook(hook) && Told(hook, [entry], first, course, log, end)
    requires Settled([entry], course, end, r0, r) && entry.ticket !in r0
    ensures entry.ticket in r && OneRecordEnded(entry, first, log, end, r[entry.ticket])
  {
    var one, shown := [entry], Shown(course.rounds);
    assert one[0].ticket in Tickets(one);
    HookHolds(hook, entry, course);
    SurvivesIffClear(hook, entry, course);
    if end.BatchWon? {
      assert r[one[0].ticket] == Answer(Slots(end.number), 0);
      assert log[first - 1..end.number - 1] == shown;
    } else if end.GaveUp? {
      assert r[one[0].ticket] == Answer(All(Exhausted), 0);
    } else {
      OverlapInPiece(log, first - 1, first - 1 + |shown|, ReadKeys(entry.event));
    }
  }

  lemma {:induction false} OneRecordConcludes(entry: Entry<TxEvent>, first: nat, h0: TxLog, h: TxLog, end: BatchEnd,
      outcome: Outcome)
    requires OneRecordEnded(entry, first, h, end, outcome) && LogGrew(entry.owner, h0, h, end)
    ensures AppendConcluded(entry.owner, entry.event, h0, h, first, DecisionOf(outcome))
  {
  }

  lemma {:induction false} OneRecordFlushed(hook: Option<Hook<TxEvent>>, entry: Entry<TxEvent>,
      batch: seq<Entry<TxEvent>>, first: nat, course: Course<TxEvent>, h0: TxLog, h: TxLog, end: BatchEnd,
      r0: map<nat, Outcome>, r: map<nat, Outcome>)
    requires batch == [entry] && entry.ticket !in r0 && IsTxHook(hook) && LogGrew(entry.owner, h0, h, end)
    requires Told(hook, batch, first, course, h, end) && Settled(batch, course, end, r0, r)
    ensures entry.ticket in r && AppendConcluded(entry.owner, entry.event, h0, h, first, DecisionOf(r[entry.ticket]))
    ensures DecisionOf(r[entry.ticket]).AppendFailed? ==> end.GaveUp?
  {
    OneRecordEnds(hook, entry, first, course, h, end, r0, r);
    OneRecordConcludes(entry, first, h0, h, end, r[entry.ticket]);
  }

  function SeenIn(objects: Objects, k: Key): Seen {
    SeenOf(if k in objects then Some(objects[k]) else None)
  }

  /** At this moment the store showed `seen` under `k`, and the log had reached it to `at`. */
  ghost predicate IsScene(scene: Scene, k: Key, seen: Seen, at: nat) {
    SeenIn(scene.objects, k) == seen && PlaceOf(scene.reached, k) == at
  }

  ghost predicate WasThere(past: seq<Scene>, since: int, k: Key, seen: Seen, at: nat) {
    exists i :: 0 <= i < |past| && since <= i && IsScene(past[i], k, seen, at)
  }

  /** Since moment `since` each of these keys was there as it is in the read set. */
  ghost predicate AllThere(readSet: map<Key, Seen>, keys: set<Key>, past: seq<Scene>, since: int, at: map<Key, nat>)
    requires keys <= readSet.Keys
  {
    forall k :: k in keys ==> k in at && WasThere(past, since, k, readSet[k], at[k])
  }

  lemma {:induction false} ThereStay(readSet: map<Key, Seen>, keys: set<Key>, past: seq<Scene>, longer: seq<Scene>,
      since: int, at: map<Key, nat>)
    requires keys <= readSet.Keys && past <= longer && AllThere(readSet, keys, past, since, at)
    ensures AllThere(readSet, keys, longer, since, at)
  {
    forall k | k in keys
      ensures WasThere(longer, since, k, readSet[k], at[k])
    {
      var i :| 0 <= i < |past| && since <= i && IsScene(past[i], k, readSet[k], at[k]);
      assert IsScene(longer[i], k, readSet[k], at[k]);
    }
  }

  /** What was compared with success: these keys had the value of the fold at these places. */
  ghost predicate SameAsFold(readSet: map<Key, Seen>, keys: set<Key>, base: Contents, log: TxLog, at: map<Key, nat>)
    requires keys <= readSet.Keys
  {
    forall k :: k in keys ==> k in at && WasFold(base, log, k, ContentOf(readSet[k]), at[k])
  }

  lemma {:induction false} ValidatedStay(readSet: map<Key, Seen>, keys: set<Key>, base: Contents, log: TxLog,
      longer: TxLog, at: map<Key, nat>)
    requires keys <= readSet.Keys && log <= longer && SameAsFold(readSet, keys, base, log, at)
    ensures SameAsFold(readSet, keys, base, longer, at)
  {
    forall k | k in keys
      ensures WasFold(base, longer, k, ContentOf(readSet[k]), at[k])
    {
      WasFoldOnLongerLog(base, log, longer, k, ContentOf(readSet[k]), at[k]);
    }
  }
}
