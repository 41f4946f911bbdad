/**
  A projection is a fold of the log.

  A database is its rows together with the recorded position. One commit is applied whole or not at
  all; `FoldTo(h, log, p)` is the one meaning that every projection, snapshot and rebuild must have.
*/
module Folding {
  import opened Wrappers
  import opened LogProtocol

  /** The place of an event in the log. */
  datatype Sequence = Sequence(commit: nat, index: nat)

  predicate AtOrAfter(a: Sequence, b: Sequence) {
    a.commit > b.commit || (a.commit == b.commit && a.index >= b.index)
  }

  datatype Database<+D> = Database(rows: D, position: Option<Sequence>)

  /**
    What the application brings: an empty database (`blank`) and its schema (`prepare`), which event
    types it has handlers for, and what a handler makes of the rows. `None` is a handler that raises.
  */
  datatype Handlers<!D, !E> = Handlers(
    blank: D,
    prepare: D -> D,
    handles: E -> bool,
    run: (D, Sequence, E) -> Option<D>)

  function Base<D, E>(h: Handlers<D, E>): Database<D> {
    Database(h.prepare(h.blank), None)
  }

  /** One event; types without a handler are skipped. */
  function ApplyEvent<D, E>(h: Handlers<D, E>, rows: D, sequence: Sequence, event: E): Option<D> {
    if h.handles(event) then h.run(rows, sequence, event) else Some(rows)
  }

  function ApplyEntries<D, E>(h: Handlers<D, E>, rows: D, number: nat, entries: seq<Entry<E>>): Option<D> {
    if entries == [] then Some(rows)
    else
      var last := |entries| - 1;
      match ApplyEntries(h, rows, number, entries[..last])
      case None => None
      case Some(before) => ApplyEvent(h, before, Sequence(number, last), entries[last].event)
  }

  function LastSequence<E>(commit: Commit<E>): Sequence {
    Sequence(commit.number, if commit.entries == [] then 0 else |commit.entries| - 1)
  }

  /** One commit and its position, in one transaction. */
  function ApplyCommit<D, E>(h: Handlers<D, E>, db: Database<D>, commit: Commit<E>): Option<Database<D>> {
    match ApplyEntries(h, db.rows, commit.number, commit.entries)
    case None => None
    case Some(rows) => Some(Database(rows, Some(LastSequence(commit))))
  }

  function FoldFrom<D, E>(h: Handlers<D, E>, db: Database<D>, commits: seq<Commit<E>>): Option<Database<D>> {
    if commits == [] then Some(db)
    else
      match FoldFrom(h, db, commits[..|commits| - 1])
      case None => None
      case Some(before) => ApplyCommit(h, before, commits[|commits| - 1])
  }

  /** The projection of the first `p` commits. */
  function FoldTo<D, E>(h: Handlers<D, E>, log: seq<Commit<E>>, p: nat): Option<Database<D>>
    requires p <= |log|
  {
    FoldFrom(h, Base(h), log[..p])
  }

  /** The commit a database has got to. */
  function Reached<D>(db: Database<D>): nat {
    if db.position.Some? then db.position.value.commit else 0
  }

  /** The database is the projection of exactly the commits it says it has got to. */
  ghost predicate IsFold<D, E>(h: Handlers<D, E>, log: seq<Commit<E>>, db: Database<D>) {
    Reached(db) <= |log| && FoldTo(h, log, Reached(db)) == Some(db)
  }

  lemma {:induction false} FoldFromAppend<D, E>(h: Handlers<D, E>, db: Database<D>, a: seq<Commit<E>>,
      b: seq<Commit<E>>)
    ensures FoldFrom(h, db, a + b) == match FoldFrom(h, db, a) case None => None case Some(mid) => FoldFrom(h, mid, b)
    decreases |b|
  {
    if b == [] {
      assert a + b == a;
    } else {
      FoldFromAppend(h, db, a, b[..|b| - 1]);
      assert (a + b)[..|a + b| - 1] == a + b[..|b| - 1];
    }
  }

  /** A projection carries the place of the last event of its last commit, and nothing at all before the first. */
  lemma {:induction false} FoldToReaches<D, E>(h: Handlers<D, E>, log: seq<Commit<E>>, p: nat)
    requires Numbered(log) && p <= |log| && FoldTo(h, log, p).Some?
    ensures Reached(FoldTo(h, log, p).value) == p
    ensures p > 0 ==> FoldTo(h, log, p).value.position == Some(Sequence(p, |log[p - 1].entries| - 1))
    ensures p == 0 ==> FoldTo(h, log, p).value.position == None
  {
  }

  /** Going on from a projection is the projection of more: incremental, copied and bootstrapped
      databases all have the one meaning. */
  lemma {:induction false} GoingOnIsFold<D, E>(h: Handlers<D, E>, log: seq<Commit<E>>, p: nat, q: nat)
    requires p <= q <= |log| && FoldTo(h, log, p).Some?
    ensures FoldFrom(h, FoldTo(h, log, p).value, log[p..q]) == FoldTo(h, log, q)
  {
    FoldFromAppend(h, Base(h), log[..p], log[p..q]);
    assert log[..p] + log[p..q] == log[..q];
  }

  /** A handler that fails once fails every projection beyond. */
  lemma {:induction false} BrokenStaysBroken<D, E>(h: Handlers<D, E>, log: seq<Commit<E>>, p: nat, q: nat)
    requires p <= q <= |log| && FoldTo(h, log, p).None?
    ensures FoldTo(h, log, q).None?
  {
    FoldFromAppend(h, Base(h), log[..p], log[p..q]);
    assert log[..p] + log[p..q] == log[..q];
  }

  lemma {:induction false} IsFoldOfLongerLog<D, E>(h: Handlers<D, E>, log: seq<Commit<E>>, longer: seq<Commit<E>>,
      db: Database<D>)
    requires log <= longer && IsFold(h, log, db)
    ensures IsFold(h, longer, db)
  {
    assert longer[..Reached(db)] == log[..Reached(db)];
  }

  /** One more commit on top of a projection. */
  lemma {:induction false} IsFoldOneMore<D, E>(h: Handlers<D, E>, log: seq<Commit<E>>, db: Database<D>)
    requires Numbered(log) && IsFold(h, log, db) && Reached(db) < |log|
    ensures FoldTo(h, log, Reached(db) + 1) == ApplyCommit(h, db, log[Reached(db)])
    ensures ApplyCommit(h, db, log[Reached(db)]).Some? ==> IsFold(h, log, ApplyCommit(h, db, log[Reached(db)]).value)
  {
    var p := Reached(db);
    assert log[..p + 1][..p] == log[..p];
  }

  /** The log as one stream of events, each at its place. */
  datatype Slot<+E> = Slot(at: Sequence, event: E)

  function SlotsOf<E>(number: nat, entries: seq<Entry<E>>): (slots: seq<Slot<E>>)
    ensures |slots| == |entries|
    ensures forall i :: 0 <= i < |slots| ==> slots[i] == Slot(Sequence(number, i), entries[i].event)
  {
    if entries == [] then []
    else SlotsOf(number, entries[..|entries| - 1]) + [Slot(Sequence(number, |entries| - 1), entries[|entries| - 1].event)]
  }

  function Slots<E>(log: seq<Commit<E>>): seq<Slot<E>> {
    if log == [] then [] else Slots(log[..|log| - 1]) + SlotsOf(log[|log| - 1].number, log[|log| - 1].entries)
  }

  function ApplySlots<D, E>(h: Handlers<D, E>, rows: D, slots: seq<Slot<E>>): Option<D> {
    if slots == [] then Some(rows)
    else
      match ApplySlots(h, rows, slots[..|slots| - 1])
      case None => None
      case Some(before) => ApplyEvent(h, before, slots[|slots| - 1].at, slots[|slots| - 1].event)
  }

  lemma {:induction false} ApplySlotsAppend<D, E>(h: Handlers<D, E>, rows: D, a: seq<Slot<E>>, b: seq<Slot<E>>)
    ensures ApplySlots(h, rows, a + b) == match ApplySlots(h, rows, a) case None => None case Some(mid) => ApplySlots(h, mid, b)
    decreases |b|
  {
    if b == [] {
      assert a + b == a;
    } else {
      ApplySlotsAppend(h, rows, a, b[..|b| - 1]);
      assert (a + b)[..|a + b| - 1] == a + b[..|b| - 1];
    }
  }

  lemma {:induction false} EntriesAreSlots<D, E>(h: Handlers<D, E>, rows: D, number: nat, entries: seq<Entry<E>>)
    ensures ApplyEntries(h, rows, number, entries) == ApplySlots(h, rows, SlotsOf(number, entries))
    decreases |entries|
  {
    if entries != [] {
      var last := |entries| - 1;
      EntriesAreSlots(h, rows, number, entries[..last]);
      assert SlotsOf(number, entries)[..last] == SlotsOf(number, entries[..last]);
    }
  }

  /** Commit by commit in transactions, or event by event in one go: the rows are the same. */
  lemma {:induction false} FoldIsEventByEvent<D, E>(h: Handlers<D, E>, db: Database<D>, log: seq<Commit<E>>)
    ensures ApplySlots(h, db.rows, Slots(log)) == match FoldFrom(h, db, log) case None => None case Some(end) => Some(end.rows)
    decreases |log|
  {
    if log != [] {
      var last := |log| - 1;
      FoldIsEventByEvent(h, db, log[..last]);
      ApplySlotsAppend(h, db.rows, Slots(log[..last]), SlotsOf(log[last].number, log[last].entries));
      if FoldFrom(h, db, log[..last]).Some? {
        EntriesAreSlots(h, FoldFrom(h, db, log[..last]).value.rows, log[last].number, log[last].entries);
      }
    }
  }

  /** What an event makes of the rows: what its handler does, or nothing for a type without a handler. */
  ghost predicate Turns<D, E>(h: Handlers<D, E>, slot: Slot<E>, before: D, after: D) {
    if h.handles(slot.event) then h.run(before, slot.at, slot.event) == Some(after) else after == before
  }

  /** The handler of this event raises. */
  ghost predicate Raises<D, E>(h: Handlers<D, E>, slot: Slot<E>, rows: D) {
    h.handles(slot.event) && h.run(rows, slot.at, slot.event).None?
  }

  /** The rows before the first event of a stream and after each one, when no handler raises. */
  ghost predicate IsTrace<D, E>(h: Handlers<D, E>, rows: D, slots: seq<Slot<E>>, trace: seq<D>) {
    && |trace| == |slots| + 1 && trace[0] == rows
    && forall j :: 0 <= j < |slots| ==> Turns(h, slots[j], trace[j], trace[j + 1])
  }

  /** All goes well up to an event whose handler raises on the last rows of `trace`. */
  ghost predicate Breaks<D, E>(h: Handlers<D, E>, rows: D, slots: seq<Slot<E>>, trace: seq<D>) {
    && 1 <= |trace| <= |slots| && IsTrace(h, rows, slots[..|trace| - 1], trace)
    && Raises(h, slots[|trace| - 1], trace[|trace| - 1])
  }

  lemma {:induction false} TraceOfSlots<D, E>(h: Handlers<D, E>, rows: D, slots: seq<Slot<E>>) returns (trace: seq<D>)
    ensures match ApplySlots(h, rows, slots)
            case Some(end) => IsTrace(h, rows, slots, trace) && trace[|slots|] == end
            case None => Breaks(h, rows, slots, trace)
    decreases |slots|
  {
    if slots == [] {
      return [rows];
    }
    var last := |slots| - 1;
    trace := TraceOfSlots(h, rows, slots[..last]);
    match ApplySlots(h, rows, slots[..last]) {
      case None =>
        assert slots[..last][..|trace| - 1] == slots[..|trace| - 1];
      case Some(before) =>
        match ApplySlots(h, rows, slots) {
          case None =>
          case Some(end) => trace := trace + [end];
        }
    }
  }

  lemma {:induction false} TraceIsApplied<D, E>(h: Handlers<D, E>, rows: D, slots: seq<Slot<E>>, trace: seq<D>)
    requires IsTrace(h, rows, slots, trace)
    ensures ApplySlots(h, rows, slots) == Some(trace[|slots|])
    decreases |slots|
  {
    if slots != [] {
      var last := |slots| - 1;
      TraceIsApplied(h, rows, slots[..last], trace[..last + 1]);
      assert Turns(h, slots[last], trace[last], trace[last + 1]);
    }
  }

  lemma {:induction false} BreakIsFinal<D, E>(h: Handlers<D, E>, rows: D, slots: seq<Slot<E>>, trace: seq<D>)
    requires Breaks(h, rows, slots, trace)
    ensures ApplySlots(h, rows, slots) == None
    decreases |slots|
  {
    var last := |slots| - 1;
    if |trace| == |slots| {
      TraceIsApplied(h, rows, slots[..last], trace);
    } else {
      assert slots[..last][..|trace| - 1] == slots[..|trace| - 1];
      BreakIsFinal(h, rows, slots[..last], trace);
    }
  }

  /**
    The projection law: the rows of a projection are the last of a trace over the stream of all events of
    its commits, from the prepared empty database on; and there is none when a handler raises on the way.
  */
  lemma {:induction false} ProjectionIsTrace<D, E>(h: Handlers<D, E>, log: seq<Commit<E>>, p: nat)
      returns (trace: seq<D>)
    requires p <= |log|
    ensures match FoldTo(h, log, p)
            case Some(db) =>
              && IsTrace(h, h.prepare(h.blank), Slots(log[..p]), trace)
              && db.rows == trace[|Slots(log[..p])|]
            case None => Breaks(h, h.prepare(h.blank), Slots(log[..p]), trace)
  {
    FoldIsEventByEvent(h, Base(h), log[..p]);
    trace := TraceOfSlots(h, h.prepare(h.blank), Slots(log[..p]));
  }

  /** Conversely, whoever follows the stream event by event arrives at the projection. */
  lemma {:induction false} TraceIsProjection<D, E>(h: Handlers<D, E>, log: seq<Commit<E>>, p: nat, trace: seq<D>)
    requires p <= |log| && IsTrace(h, h.prepare(h.blank), Slots(log[..p]), trace)
    ensures FoldTo(h, log, p).Some? && FoldTo(h, log, p).value.rows == trace[|Slots(log[..p])|]
  {
    FoldIsEventByEvent(h, Base(h), log[..p]);
    TraceIsApplied(h, h.prepare(h.blank), Slots(log[..p]), trace);
  }

  /** And whoever meets a handler that raises has found that there is no projection. */
  lemma {:induction false} BreakIsNoProjection<D, E>(h: Handlers<D, E>, log: seq<Commit<E>>, p: nat, trace: seq<D>)
    requires p <= |log| && Breaks(h, h.prepare(h.blank), Slots(log[..p]), trace)
    ensures FoldTo(h, log, p).None?
  {
    FoldIsEventByEvent(h, Base(h), log[..p]);
    BreakIsFinal(h, h.prepare(h.blank), Slots(log[..p]), trace);
  }

  /** Applying one commit is following its events, with their places, from the rows there are. */
  lemma {:induction false} CommitIsTrace<D, E>(h: Handlers<D, E>, db: Database<D>, commit: Commit<E>, trace: seq<D>)
    ensures var slots := SlotsOf(commit.number, commit.entries);
      && (IsTrace(h, db.rows, slots, trace) ==>
            ApplyCommit(h, db, commit) == Some(Database(trace[|slots|],
              Some(Sequence(commit.number, if slots == [] then 0 else |slots| - 1)))))
      && (Breaks(h, db.rows, slots, trace) ==> ApplyCommit(h, db, commit).None?)
  {
    var slots := SlotsOf(commit.number, commit.entries);
    EntriesAreSlots(h, db.rows, commit.number, commit.entries);
    if IsTrace(h, db.rows, slots, trace) {
      TraceIsApplied(h, db.rows, slots, trace);
    }
    if Breaks(h, db.rows, slots, trace) {
      BreakIsFinal(h, db.rows, slots, trace);
    }
  }

  /** Every slot of the stream is an event of the log, at its place. */
  lemma {:induction false} SlotIsInLog<E>(log: seq<Commit<E>>, j: nat)
    requires Numbered(log) && j < |Slots(log)|
    ensures var at := Slots(log)[j].at;
      && 1 <= at.commit <= |log| && at.index < |log[at.commit - 1].entries|
      && Slots(log)[j].event == log[at.commit - 1].entries[at.index].event
    decreases |log|
  {
    var last := |log| - 1;
    if j < |Slots(log[..last])| {
      SlotIsInLog(log[..last], j);
    } else {
      assert Slots(log)[j] == SlotsOf(log[last].number, log[last].entries)[j - |Slots(log[..last])|];
    }
  }

  /** The places of the stream rise: no event comes twice or out of order. */
  lemma {:induction false} StreamRises<E>(log: seq<Commit<E>>, j: nat, k: nat)
    requires Numbered(log) && j < k < |Slots(log)|
    ensures !AtOrAfter(Slots(log)[j].at, Slots(log)[k].at)
    decreases |log|
  {
    var last := |log| - 1;
    var front := |Slots(log[..last])|;
    StreamStaysBelow(log[..last]);
    if k < front {
      StreamRises(log[..last], j, k);
    } else {
      assert Slots(log)[k] == SlotsOf(log[last].number, log[last].entries)[k - front];
    }
  }

  /** Where the event at a place is in the stream: everything before it in the stream is before it in the log. */
  lemma {:induction false} SlotIsInStream<E>(log: seq<Commit<E>>, n: nat, i: nat) returns (k: nat)
    requires Numbered(log) && 1 <= n <= |log| && i < |log[n - 1].entries|
    ensures k < |Slots(log)| && Slots(log)[k] == Slot(Sequence(n, i), log[n - 1].entries[i].event)
    ensures forall j :: 0 <= j < |Slots(log)| ==> (j <= k <==> AtOrAfter(Sequence(n, i), Slots(log)[j].at))
    decreases |log|
  {
    var last := |log| - 1;
    StreamStaysBelow(log[..last]);
    if n == |log| {
      k := |Slots(log[..last])| + i;
    } else {
      k := SlotIsInStream(log[..last], n, i);
    }
  }

  lemma {:induction false} StreamStaysBelow<E>(log: seq<Commit<E>>)
    requires Numbered(log)
    ensures forall j :: 0 <= j < |Slots(log)| ==> 1 <= Slots(log)[j].at.commit <= |log|
    decreases |log|
  {
    if log != [] {
      StreamStaysBelow(log[..|log| - 1]);
    }
  }

  /**
    Read your writes: in a projection whose recorded position is at or after an event's place, that
    event and all before it have been applied, because a position is the last slot of a whole commit.
  */
  lemma {:induction false} ReadYourWrites<D, E>(h: Handlers<D, E>, log: seq<Commit<E>>, db: Database<D>, n: nat, i: nat)
      returns (k: nat)
    requires Numbered(log) && IsFold(h, log, db) && db.position.Some?
    requires 1 <= n <= |log| && i < |log[n - 1].entries| && AtOrAfter(db.position.value, Sequence(n, i))
    ensures ApplySlots(h, h.prepare(h.blank), Slots(log[..Reached(db)])) == Some(db.rows)
    ensures k < |Slots(log[..Reached(db)])| && Slots(log[..Reached(db)])[k] == Slot(Sequence(n, i), log[n - 1].entries[i].event)
    ensures forall j :: 0 <= j < |Slots(log[..Reached(db)])| ==> (j <= k <==> AtOrAfter(Sequence(n, i), Slots(log[..Reached(db)])[j].at))
  {
    FoldIsEventByEvent(h, Base(h), log[..Reached(db)]);
    k := SlotIsInStream(log[..Reached(db)], n, i);
  }

  /** And the other way round: the position of a projection is at or after the place of everything it has applied. */
  lemma {:induction false} AppliedIsShown<D, E>(h: Handlers<D, E>, log: seq<Commit<E>>, db: Database<D>, n: nat, i: nat)
    requires Numbered(log) && IsFold(h, log, db) && 1 <= n <= Reached(db) && i < |log[n - 1].entries|
    ensures db.position.Some? && AtOrAfter(db.position.value, Sequence(n, i))
  {
    FoldToReaches(h, log, Reached(db));
  }

  /**
    A stale database taken for an empty base is not repaired by replaying the log: with handlers that
    count events, every event that was in it already is counted twice.
  */
  function Counting(): Handlers<int, int> {
    Handlers(0, rows => rows, event => true, (rows, sequence, event) => Some(rows + 1))
  }

  function Events(log: seq<Commit<int>>): nat {
    if log == [] then 0 else Events(log[..|log| - 1]) + |log[|log| - 1].entries|
  }

  lemma {:induction false} CountsEntries(rows: int, number: nat, entries: seq<Entry<int>>)
    ensures ApplyEntries(Counting(), rows, number, entries) == Some(rows + |entries|)
    decreases |entries|
  {
    if entries != [] {
      CountsEntries(rows, number, entries[..|entries| - 1]);
    }
  }

  lemma {:induction false} CountsOn(db: Database<int>, log: seq<Commit<int>>)
    ensures FoldFrom(Counting(), db, log).Some? && FoldFrom(Counting(), db, log).value.rows == db.rows + Events(log)
    decreases |log|
  {
    if log != [] {
      var last := |log| - 1;
      CountsOn(db, log[..last]);
      CountsEntries(FoldFrom(Counting(), db, log[..last]).value.rows, log[last].number, log[last].entries);
    }
  }

  lemma {:induction false} LeftoverIsCountedTwice(log: seq<Commit<int>>, p: nat)
    requires Numbered(log) && 1 <= p <= |log|
    ensures FoldTo(Counting(), log, p).Some?
    ensures var left := FoldTo(Counting(), log, p).value;
            var reused := Database(Counting().prepare(left.rows), left.position);
            FoldFrom(Counting(), reused, log) != FoldTo(Counting(), log, |log|)
  {
    CountsOn(Base(Counting()), log[..p]);
    var left := FoldTo(Counting(), log, p).value;
    CountsOn(Database(left.rows, left.position), log);
    CountsOn(Base(Counting()), log);
    assert log[..|log|] == log;
    assert log[..p] != [];
  }
}
