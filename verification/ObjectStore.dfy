/**
  The objects that transactions read and write, next to the transaction log.

  Anyone may put or delete any object at any time. Ghost fields say how far that was disciplined: as
  long as `lawful` holds, only mutations of the log were written, by anyone, in any order and any number
  of times, and `reached` says for each key which one was the last; `intrusions` counts what other
  clients did to objects and markers; `deeds` lists the writes of this client, in order; `past` lists
  all scenes so far, the present one last.
*/
module ObjectStore {
  import opened Wrappers
  import opened LogProtocol
  import opened LogBucket
  import opened Cas
  import opened TxRecords
  import opened TxChecks

  /** One write of the modelled client itself. */
  datatype Deed = Wrote(op: Op) | Marked(number: nat)

  type Objects = map<Key, Stored<Data>>

  function ValuesOf(objects: Objects): Contents {
    map k | k in objects :: objects[k].data
  }

  ghost predicate Tagged(objects: Objects) {
    forall k :: k in objects ==> objects[k].tag.content == objects[k].data
  }

  /** The objects after an unconditional put or delete; a put comes with whatever tag the store gives it. */
  function Written(objects: Objects, op: Op, generation: nat): Objects {
    match op
    case Put(k, data) => objects[k := Stored(data, Tag(generation, data))]
    case Delete(k) => objects - {k}
  }

  lemma {:induction false} WrittenIsApplied(objects: Objects, op: Op, generation: nat)
    requires Tagged(objects)
    ensures Tagged(Written(objects, op, generation))
    ensures ValuesOf(Written(objects, op, generation)) == ApplyOp(ValuesOf(objects), op)
  {
  }

  /** The place in the log of the mutation last written to `k`, or 0. */
  function PlaceOf(reached: map<Key, nat>, k: Key): nat {
    if k in reached then reached[k] else 0
  }

  /** Every object is what some first mutations of the log leave under its key. */
  ghost predicate AllFolds(values: Contents, base: Contents, log: TxLog, reached: map<Key, nat>) {
    forall k :: WasFold(base, log, k, Lookup(values, k), PlaceOf(reached, k))
  }

  lemma {:induction false} AllFoldsOnLongerLog(values: Contents, base: Contents, log: TxLog, longer: TxLog,
      reached: map<Key, nat>)
    requires AllFolds(values, base, log, reached) && log <= longer
    ensures AllFolds(values, base, longer, reached)
  {
    forall k
      ensures WasFold(base, longer, k, Lookup(values, k), PlaceOf(reached, k))
    {
      WasFoldOnLongerLog(base, log, longer, k, Lookup(values, k), PlaceOf(reached, k));
    }
  }

  /** Writing a mutation of the log keeps that, wherever its key was before. */
  lemma {:induction false} MutationKeepsFolds(values: Contents, base: Contents, log: TxLog, reached: map<Key, nat>,
      op: Op, upTo: nat)
    requires AllFolds(values, base, log, reached)
    requires IsPlaceOf(log, op, upTo)
    ensures AllFolds(ApplyOp(values, op), base, log, reached[op.key := upTo])
  {
    MutationIsFold(base, OpsOfLog(log), upTo);
    forall k
      ensures WasFold(base, log, k, Lookup(ApplyOp(values, op), k), PlaceOf(reached[op.key := upTo], k))
    {
      assert WasFold(base, log, k, Lookup(values, k), PlaceOf(reached, k));
    }
  }

  lemma {:induction false} InitiallyFolds(values: Contents, log: TxLog)
    ensures AllFolds(values, values, log, map[])
  {
    assert OpsOfLog(log)[..0] == [];
  }

  /** The log holds this mutation right before place `upTo`. */
  ghost predicate IsPlaceOf(log: TxLog, op: Op, upTo: nat) {
    0 < upTo <= |OpsOfLog(log)| && OpsOfLog(log)[upTo - 1] == op
  }

  /** The place right after the last occurrence of `op`. */
  ghost function LastPlaceIn(ops: seq<Op>, op: Op): (upTo: nat)
    requires op in ops
    ensures 0 < upTo <= |ops| && ops[upTo - 1] == op && forall j :: upTo <= j < |ops| ==> ops[j] != op
  {
    if ops[|ops| - 1] == op then |ops| else LastPlaceIn(ops[..|ops| - 1], op)
  }

  /** Equal mutations leave the same, so the last one may stand for all of them. */
  ghost function LastPlace(log: TxLog, op: Op): (upTo: nat)
    requires op in OpsOfLog(log)
    ensures IsPlaceOf(log, op, upTo) && forall j :: upTo <= j < |OpsOfLog(log)| ==> OpsOfLog(log)[j] != op
  {
    LastPlaceIn(OpsOfLog(log), op)
  }

  /** What a store holds, and how far the log has reached it. */
  datatype Holding = Holding(values: Contents, markers: set<nat>, lawful: bool, reached: map<Key, nat>)

  /** These mutations are in the log from place `start` on. */
  ghost predicate AreAt(log: TxLog, start: nat, ops: seq<Op>) {
    start + |ops| <= |OpsOfLog(log)| && OpsOfLog(log)[start..start + |ops|] == ops
  }

  /** Each of the keys was brought to the place of its mutation or further, and no other key was moved. */
  ghost predicate BroughtTo(before: map<Key, nat>, reached: map<Key, nat>, start: nat, ops: seq<Op>) {
    && (forall k :: k !in KeysOf(ops) ==> PlaceOf(reached, k) == PlaceOf(before, k))
    && forall i :: 0 <= i < |ops| ==> PlaceOf(reached, ops[i].key) > start + i
  }

  /** These mutations and nothing else have happened; if they are mutations of the log, the writes stayed lawful. */
  ghost predicate Followed(o: Holding, now: Holding, log: TxLog, start: nat, ops: seq<Op>) {
    && now.values == ApplyOps(o.values, ops) && now.markers == o.markers
    && (o.lawful && AreAt(log, start, ops) ==> now.lawful && BroughtTo(o.reached, now.reached, start, ops))
  }

  lemma {:induction false} NothingFollowed(o: Holding, log: TxLog, start: nat)
    ensures Followed(o, o, log, start, [])
  {
  }

  lemma {:induction false} BroughtFurther(a: map<Key, nat>, b: map<Key, nat>, c: map<Key, nat>, start: nat,
      ops: seq<Op>, more: seq<Op>)
    requires BroughtTo(a, b, start, ops) && BroughtTo(b, c, start + |ops|, more)
    ensures BroughtTo(a, c, start, ops + more)
  {
    KeysOfConcat(ops, more);
    forall i | 0 <= i < |ops + more|
      ensures PlaceOf(c, (ops + more)[i].key) > start + i
    {
      if i >= |ops| {
        assert (ops + more)[i] == more[i - |ops|];
      } else if ops[i].key in KeysOf(more) {
        var j :| 0 <= j < |more| && more[j].key == ops[i].key;
        assert PlaceOf(c, more[j].key) > start + |ops| + j;
      }
    }
  }

  lemma {:induction false} AreAtParts(log: TxLog, longer: TxLog, start: nat, ops: seq<Op>, more: seq<Op>)
    requires AreAt(log, start, ops + more) && log <= longer
    ensures AreAt(log, start, ops) && AreAt(longer, start + |ops|, more)
  {
    OpsOfLongerLog(log, longer);
    var all := OpsOfLog(log);
    assert all[start..start + |ops|] == (ops + more)[..|ops|];
    assert OpsOfLog(longer)[start + |ops|..start + |ops| + |more|] == all[start..start + |ops + more|][|ops|..];
  }

  /** One after the other. */
  lemma {:induction false} FollowedFurther(o: Holding, between: Holding, now: Holding, log: TxLog, longer: TxLog,
      start: nat, ops: seq<Op>, more: seq<Op>)
    requires Followed(o, between, log, start, ops) && log <= longer && Followed(between, now, longer, start + |ops|, more)
    ensures Followed(o, now, log, start, ops + more)
  {
    ApplyOpsAppend(o.values, ops, more);
    if o.lawful && AreAt(log, start, ops + more) {
      AreAtParts(log, longer, start, ops, more);
      BroughtFurther(o.reached, between.reached, now.reached, start, ops, more);
    }
  }

  /** The key of a mutation of the log goes to its last place. */
  ghost function MovedTo(log: TxLog, reached: map<Key, nat>, op: Op): map<Key, nat> {
    if op in OpsOfLog(log) then reached[op.key := LastPlace(log, op)] else reached
  }

  lemma {:induction false} WriteKeepsFolds(values: Contents, base: Contents, log: TxLog, reached: map<Key, nat>, op: Op)
    requires AllFolds(values, base, log, reached)
    ensures op in OpsOfLog(log) ==> AllFolds(ApplyOp(values, op), base, log, MovedTo(log, reached, op))
  {
    if op in OpsOfLog(log) {
      MutationKeepsFolds(values, base, log, reached, op, LastPlace(log, op));
    }
  }

  /** A write that stays lawful brings its key to the last place of its mutation. */
  ghost predicate WroteOne(o: Holding, now: Holding, log: TxLog, op: Op) {
    && now.values == ApplyOp(o.values, op) && now.markers == o.markers
    && (now.lawful <==> o.lawful && op in OpsOfLog(log))
    && (now.lawful ==> now.reached == MovedTo(log, o.reached, op))
  }

  lemma {:induction false} OneIsFollowed(o: Holding, now: Holding, log: TxLog, later: TxLog, start: nat, op: Op)
    requires WroteOne(o, now, later, op) && log <= later
    ensures Followed(o, now, log, start, [op])
  {
    assert [op][..0] == [] && KeysOf([op]) == {op.key} by {
      assert [op][0].key == op.key;
    }
    if o.lawful && AreAt(log, start, [op]) {
      OpsOfLongerLog(log, later);
      assert OpsOfLog(log)[start..start + 1][0] == op;
      assert OpsOfLog(later)[start] == op;
    }
  }

  lemma {:induction false} PrefixIsAt(all: seq<Op>, early: seq<Op>, ops: seq<Op>)
    requires early + ops <= all
    ensures |early| + |ops| <= |all| && all[|early|..|early| + |ops|] == ops
  {
    assert all[..|early| + |ops|] == early + ops;
  }

  /** The mutations of record `n` are in the log, after those of the records before it. */
  lemma {:induction false} RecordIsAt(log: TxLog, n: nat)
    requires 1 <= n <= |log|
    ensures AreAt(log, |OpsOfLog(log[..n - 1])|, OpsOfEntries(log[n - 1].entries))
    ensures OpsOfLog(log[..n]) == OpsOfLog(log[..n - 1]) + OpsOfEntries(log[n - 1].entries)
  {
    OpsPrefix(log, n - 1);
    OpsOfLongerLog(log[..n], log);
    PrefixIsAt(OpsOfLog(log), OpsOfLog(log[..n - 1]), OpsOfEntries(log[n - 1].entries));
  }

  lemma {:induction false} NothingToCome(early: seq<Op>, ops: seq<Op>, at: nat, k: Key, value: Option<Data>)
    requires k in KeysOf(ops) && forall i :: 0 <= i < |ops| && ops[i].key == k ==> at > |early| + i
    ensures Agrees(early + ops, at, k, value)
  {
    if at <= |early + ops| {
      var rest := ops[at - |early|..];
      assert (early + ops)[at..] == rest;
      assert k !in KeysOf(rest);
      LastOnNamed(rest, k);
    }
  }

  /** A key that was brought to the end of record `n` has nothing of the first `n` records to come. */
  lemma {:induction false} BroughtIsUpToDate(log: TxLog, n: nat, before: map<Key, nat>, reached: map<Key, nat>, k: Key,
      value: Option<Data>)
    requires 1 <= n <= |log| && k in WritesOf(log[n - 1])
    requires BroughtTo(before, reached, |OpsOfLog(log[..n - 1])|, OpsOfEntries(log[n - 1].entries))
    ensures Agrees(OpsOfLog(log[..n]), PlaceOf(reached, k), k, value)
  {
    RecordIsAt(log, n);
    WritesAreKeysOfOps(log[n - 1]);
    NothingToCome(OpsOfLog(log[..n - 1]), OpsOfEntries(log[n - 1].entries), PlaceOf(reached, k), k, value);
  }

  /** Record `number` was applied and marked, and nothing else happened; the writes stayed lawful. */
  ghost predicate RecordApplied(o: Holding, now: Holding, log: TxLog, number: nat)
    requires 1 <= number <= |log|
  {
    && now.values == ApplyOps(o.values, OpsOfEntries(log[number - 1].entries))
    && now.markers == o.markers + {number}
    && (o.lawful ==>
          now.lawful
          && BroughtTo(o.reached, now.reached, |OpsOfLog(log[..number - 1])|, OpsOfEntries(log[number - 1].entries)))
  }

  /** Nothing that the first `n` records have still to do changes an object. */
  ghost predicate AllUpToDate(h: Holding, log: TxLog, n: nat)
    requires n <= |log|
  {
    forall k :: Agrees(OpsOfLog(log[..n]), PlaceOf(h.reached, k), k, Lookup(h.values, k))
  }

  /** Records applied one after the other, each after those before it, keep the objects up to date. */
  lemma {:induction false} AppliedIsUpToDate(o: Holding, now: Holding, log: TxLog, n: nat)
    requires 1 <= n <= |log| && o.lawful && AllUpToDate(o, log, n - 1) && RecordApplied(o, now, log, n)
    ensures AllUpToDate(now, log, n)
  {
    var early, ops := OpsOfLog(log[..n - 1]), OpsOfEntries(log[n - 1].entries);
    RecordIsAt(log, n);
    WritesAreKeysOfOps(log[n - 1]);
    forall k
      ensures Agrees(OpsOfLog(log[..n]), PlaceOf(now.reached, k), k, Lookup(now.values, k))
    {
      if k in WritesOf(log[n - 1]) {
        BroughtIsUpToDate(log, n, o.reached, now.reached, k, Lookup(now.values, k));
      } else {
        Untouched(o.values, ops, k);
        StillAgrees(early, ops, PlaceOf(o.reached, k), k, Lookup(o.values, k));
      }
    }
  }

  lemma {:induction false} StillAgrees(early: seq<Op>, ops: seq<Op>, at: nat, k: Key, value: Option<Data>)
    requires Agrees(early, at, k, value) && k !in KeysOf(ops)
    ensures Agrees(early + ops, at, k, value)
  {
    if at <= |early + ops| {
      LastIsEarly(early, ops, at, k);
    }
  }

  /** The objects at one moment, and how far the log had reached them. */
  datatype Scene = Scene(objects: Objects, reached: map<Key, nat>)

  /** What a store has to show at one moment. */
  datatype Gauge = Gauge(lawful: bool, intrusions: nat, markers: set<nat>, past: seq<Scene>)

  /** Lawfulness is never regained; intrusions, markers and scenes only add up. */
  ghost predicate Onwards(before: Gauge, now: Gauge) {
    && (now.lawful ==> before.lawful)
    && before.intrusions <= now.intrusions && before.markers <= now.markers && before.past <= now.past
  }

  lemma {:induction false} OnwardsIsTransitive(a: Gauge, b: Gauge, c: Gauge)
    requires Onwards(a, b) && Onwards(b, c)
    ensures Onwards(a, c)
  {
  }

  class Store {
    const log: Bucket<TxEvent>
    const base: Contents
    var objects: Objects
    var markers: set<nat>
    ghost var reached: map<Key, nat>
    ghost var lawful: bool
    ghost var intrusions: nat
    ghost var deeds: seq<Deed>
    ghost var past: seq<Scene>

    ghost function Shown(): Gauge
      reads this
    {
      Gauge(lawful, intrusions, markers, past)
    }

    ghost function Values(): Contents
      reads `objects
    {
      ValuesOf(objects)
    }

    ghost function Held(): Holding
      reads this
    {
      Holding(Values(), markers, lawful, reached)
    }

    ghost predicate Valid()
      reads `objects, `markers, `reached, `lawful, `past, log
    {
      && log.Valid() && Tagged(objects) && past != [] && past[|past| - 1] == Scene(objects, reached)
      && (forall n :: n in markers ==> 1 <= n <= |log.s.history|)
      && (lawful ==> AllFolds(Values(), base, log.s.history, reached))
    }

    /** What holds from one moment to a later one, whatever the other clients did in between. */
    twostate predicate Later(me: nat)
      reads this, log
    {
      && Rely(me, old(log.s), log.s) && log.Horizon() <= old(log.Horizon())
      && Onwards(old(Shown()), Shown()) && deeds == old(deeds)
      && (intrusions == old(intrusions) ==>
            && objects == old(objects) && markers == old(markers) && past == old(past)
            && lawful == old(lawful) && reached == old(reached))
    }

    constructor (log: Bucket<TxEvent>, objects: Objects)
      requires log.Valid() && Tagged(objects)
      ensures Valid() && this.log == log && this.objects == objects && base == ValuesOf(objects)
      ensures markers == {} && reached == map[] && lawful && intrusions == 0 && deeds == [] && past == [Scene(objects, map[])]
    {
      this.log := log;
      this.base := ValuesOf(objects);
      this.objects := objects;
      this.markers := {};
      this.reached := map[];
      this.lawful := true;
      this.intrusions := 0;
      this.deeds := [];
      this.past := [Scene(objects, map[])];
      InitiallyFolds(ValuesOf(objects), log.s.history);
    }

    /**
      An unconditional put or delete takes effect. If only mutations of the log were written until now,
      that stays so exactly when this is one, and its key is then at the place of that mutation.
    */
    method Write(op: Op)
      requires Valid()
      modifies this`objects, this`reached, this`lawful, this`past
      ensures Valid() && WroteOne(old(Held()), Held(), log.s.history, op) && past == old(past) + [Scene(objects, reached)]
    {
      var generation: nat := *;
      WrittenIsApplied(objects, op, generation);
      if lawful {
        WriteKeepsFolds(Values(), base, log.s.history, reached, op);
      }
      reached := MovedTo(log.s.history, reached, op);
      lawful := lawful && op in OpsOfLog(log.s.history);
      objects := Written(objects, op, generation);
      past := past + [Scene(objects, reached)];
    }

    /** The log has moved on; the store has not. */
    twostate lemma StillValid()
      requires old(Valid()) && log.Valid() && unchanged(this) && old(log.s.history) <= log.s.history
      ensures Valid()
    {
      if lawful {
        AllFoldsOnLongerLog(Values(), base, old(log.s.history), log.s.history, reached);
      }
    }

    /** One write of another client, and whatever the log did meanwhile. */
    method Intrude(me: nat, op: Op)
      requires Valid()
      modifies this`objects, this`reached, this`lawful, this`intrusions, this`past, log`s, log`budget
      ensures Valid() && Rely(me, old(log.s), log.s) && log.Horizon() <= old(log.Horizon())
      ensures Onwards(old(Shown()), Shown()) && intrusions == old(intrusions) + 1
    {
      Write(op);
      intrusions := intrusions + 1;
      label between:
      log.Interfere(me);
      StillValid@between();
    }

    /** Others may put markers too. */
    method OthersMark()
      requires Valid()
      modifies this`markers, this`intrusions
      ensures Valid() && old(markers) <= markers && old(intrusions) <= intrusions
      ensures intrusions == old(intrusions) ==> markers == old(markers)
    {
      var marked: set<nat> := *;
      if !(marked <= markers) && forall n :: n in marked ==> 1 <= n <= |log.s.history| {
        markers := markers + marked;
        intrusions := intrusions + 1;
      }
    }

    /** Others may append to the log and write any objects. */
    method OthersWrite(me: nat)
      requires Valid()
      modifies this`objects, this`reached, this`lawful, this`intrusions, this`past, log`s, log`budget
      ensures Valid() && Later(me)
    {
      var ops: seq<Op> := *;
      log.Interfere(me);
      StillValid();
      for i := 0 to |ops|
        invariant Valid() && Later(me)
      {
        ghost var s, shown := log.s, Shown();
        Intrude(me, ops[i]);
        RelyIsTransitive(me, old(log.s), s, log.s);
        OnwardsIsTransitive(old(Shown()), shown, Shown());
      }
    }

    method Interfere(me: nat)
      requires Valid()
      modifies this, log`s, log`budget
      ensures Valid() && Later(me)
    {
      OthersWrite(me);
      OthersMark();
    }

    method GetObject(me: nat, k: Key) returns (found: Option<Stored<Data>>)
      requires Valid()
      modifies this, log`s, log`budget
      ensures Valid() && Later(me)
      ensures found == if k in objects then Some(objects[k]) else None
    {
      Interfere(me);
      found := if k in objects then Some(objects[k]) else None;
    }

    /** A write of this client. */
    method Land(op: Op)
      requires Valid()
      modifies this`objects, this`reached, this`lawful, this`past, this`deeds
      ensures Valid() && WroteOne(old(Held()), Held(), log.s.history, op) && deeds == old(deeds) + [Wrote(op)]
      ensures Onwards(old(Shown()), Shown())
    {
      Write(op);
      deeds := deeds + [Wrote(op)];
    }

    /** An unconditional put or delete of this client takes effect on what the store holds at that instant. */
    method WriteObject(me: nat, op: Op) returns (ghost before: Holding)
      requires Valid()
      modifies this, log`s, log`budget
      ensures Valid() && Rely(me, old(log.s), log.s) && log.Horizon() <= old(log.Horizon())
      ensures Onwards(old(Shown()), Shown()) && deeds == old(deeds) + [Wrote(op)]
      ensures WroteOne(before, Held(), log.s.history, op) && (before.lawful ==> old(lawful))
      ensures intrusions == old(intrusions) ==> before == old(Held())
    {
      Interfere(me);
      before := Held();
      ghost var shown := Shown();
      Land(op);
      OnwardsIsTransitive(old(Shown()), shown, Shown());
    }

    method Mark(number: nat)
      requires Valid() && 1 <= number <= |log.s.history|
      modifies this`markers, this`deeds
      ensures Valid() && markers == old(markers) + {number} && deeds == old(deeds) + [Marked(number)]
    {
      markers := markers + {number};
      deeds := deeds + [Marked(number)];
    }

    /** Puts the marker of a record, if absent. */
    method PutMarker(me: nat, number: nat)
      requires Valid() && 1 <= number <= |log.s.history|
      modifies this, log`s, log`budget
      ensures Valid() && Rely(me, old(log.s), log.s) && log.Horizon() <= old(log.Horizon())
      ensures Onwards(old(Shown()), Shown())
      ensures number in markers && deeds == old(deeds) + [Marked(number)]
      ensures intrusions == old(intrusions) ==> Held() == old(Held()).(markers := old(markers) + {number})
    {
      Interfere(me);
      ghost var shown := Shown();
      Mark(number);
      OnwardsIsTransitive(old(Shown()), shown, Shown());
    }

    method ListMarkers(me: nat) returns (numbers: set<nat>)
      requires Valid()
      modifies this, log`s, log`budget
      ensures Valid() && Later(me) && numbers == markers
    {
      Interfere(me);
      numbers := markers;
    }
  }
}
