/**
  Any number of transactions of any number of managers, as a transition system.

  Every step is one atomic storage call of one transaction, one write or deletion of an object by
  anyone, or a prune of the transaction log. The begin tail, the comparison of the reads, the scan of
  the log, the hook of the committer and the lock of each manager are those of the code; which
  transaction steps next, when records are applied and what other clients write is left open.

  `Possible` says which steps can happen at all, prunes only where the tails of the committers are spared
  (`LogProtocol.PruneExactly`); one theorem is about all of them. `Windowed`, `Lawful` and `Harmless` say
  which keep the conflict windows closed, the objects folds of the log, and the reads serial: one theorem
  each for the first alone, for the second alone, and for all three.
*/
module TxProtocol {
  import opened Wrappers
  import LogProtocol
  import opened Cas
  import opened TxRecords
  import opened TxPrograms
  import opened TxChecks
  import opened ObjectStore

  /** `upTo` is how far a transaction has examined the log. */
  datatype Phase =
    | Open
    | Comparing(todo: set<Key>)
    | Scanning(upTo: nat)
    | Appending(upTo: nat)
    | Committed(number: nat)
    | Unneeded
    | Aborted

  /** The commits `from + 1 .. to`. */
  datatype Piece = Piece(from: nat, to: nat)

  /**
    `at[k]` says how far the log had reached `k` when it was compared; `unseen` are the commits between
    the end of the scan and the first tail of the committer, which neither the scan nor the hook saw.
  */
  datatype Tx = Tx(
    manager: nat,
    program: Program,
    begin: nat,
    readSet: map<Key, Seen>,
    local: Local,
    turns: nat,
    sightings: seq<Sighting>,
    at: map<Key, nat>,
    unseen: Piece,
    phase: Phase)

  /**
    `log` is the history of the transaction log, visible above `floor`; `tails` are the tails the
    committers of the warm managers know. `reached[k]` is the place of the mutation last applied to `k`.
  */
  datatype System = System(
    base: Contents,
    log: TxLog,
    floor: nat,
    objects: Objects,
    reached: map<Key, nat>,
    tails: map<nat, nat>,
    txs: map<nat, Tx>)

  datatype Step =
    | Begin(tx: nat, manager: nat, program: Program)
    | Act(tx: nat)
    | Commit(tx: nat)
    | Compare(tx: nat, key: Key)
    | StartScan(tx: nat)
    | Scan(tx: nat)
    | List(tx: nat)
    | PutRecord(tx: nat)
    | Abandon(tx: nat)
    | WriteObject(op: Op, generation: nat, upTo: nat)
    | Prune(to: nat)

  function Initial(objects: Objects): System {
    System(ValuesOf(objects), [], 0, objects, map[], map[], map[])
  }

  predicate Locked(phase: Phase) {
    phase.Comparing? || phase.Scanning? || phase.Appending?
  }

  predicate Unfinished(phase: Phase) {
    phase.Open? || Locked(phase)
  }

  predicate HasWork(l: Local) {
    l.ops != [] || l.notes != []
  }

  function ActionOf(tx: Tx): Action {
    tx.program(tx.local.answers)
  }

  function RecordOf(tx: Tx): TxEvent {
    Record(tx.readSet, tx.local.ops, tx.local.notes)
  }

  function EntryOf(t: nat, tx: Tx): LogProtocol.Entry<TxEvent> {
    LogProtocol.Entry(tx.manager, t, RecordOf(tx))
  }

  /** Listing the log finds its last commit, unless all of them are gone. */
  function ListedTail(s: System): nat {
    if s.floor < |s.log| then |s.log| else 0
  }

  function At(s: System, k: Key): nat {
    PlaceOf(s.reached, k)
  }

  function Found(s: System, k: Key): Option<Stored<Data>> {
    if k in s.objects then Some(s.objects[k]) else None
  }

  ghost predicate IsIn(s: System, t: nat) {
    t in s.txs
  }

  /** The commit lock of a manager is free. */
  ghost predicate LockFree(s: System, manager: nat) {
    forall t :: IsIn(s, t) && s.txs[t].manager == manager ==> !Locked(s.txs[t].phase)
  }

  ghost predicate Possible(s: System, step: Step) {
    match step
    case Begin(t, _, _) => !IsIn(s, t)
    case Act(t) => IsIn(s, t) && s.txs[t].phase.Open? && !ActionOf(s.txs[t]).Finish?
    case Commit(t) =>
      && IsIn(s, t) && s.txs[t].phase.Open? && ActionOf(s.txs[t]).Finish?
      && (HasWork(s.txs[t].local) ==> LockFree(s, s.txs[t].manager))
    case Compare(t, k) => IsIn(s, t) && s.txs[t].phase.Comparing? && k in s.txs[t].phase.todo
    case StartScan(t) => IsIn(s, t) && s.txs[t].phase == Comparing({})
    case Scan(t) => IsIn(s, t) && s.txs[t].phase.Scanning?
    case List(t) => IsIn(s, t) && s.txs[t].phase.Appending? && s.txs[t].manager !in s.tails
    case PutRecord(t) => IsIn(s, t) && s.txs[t].phase.Appending? && s.txs[t].manager in s.tails
    case Abandon(t) => IsIn(s, t) && Unfinished(s.txs[t].phase)
    case WriteObject(_, _, _) => true
    case Prune(to) => s.floor <= to < |s.log| && forall m :: m in s.tails ==> to <= s.tails[m]
  }

  /** The next action of the program. The first read of a key enters the read set. */
  function Acted(s: System, tx: Tx): Tx {
    var action := ActionOf(tx);
    var stored := StoredFor(action, ValuesOf(s.objects));
    tx.(readSet := if action.Get? then ReadSetAfter(tx.readSet, action.key, SeenOf(Found(s, action.key))) else tx.readSet,
        local := Take(tx.local, action, stored),
        turns := tx.turns + 1,
        sightings := if action.Get? then Sighted(tx.local, action, stored, At(s, action.key), tx.sightings) else tx.sightings)
  }

  function Compared(s: System, tx: Tx, k: Key): Phase
    requires tx.phase.Comparing?
  {
    if k in tx.readSet && tx.readSet[k] == SeenOf(Found(s, k)) then Comparing(tx.phase.todo - {k}) else Aborted
  }

  /** One commit further, or to the append when there is none. */
  function Scanned(s: System, tx: Tx): Phase
    requires tx.phase.Scanning?
  {
    var c := tx.phase.upTo;
    if !(s.floor <= c < |s.log|) then Appending(c)
    else if tx.readSet.Keys * WritesOf(s.log[c]) == {} then Scanning(c + 1)
    else Aborted
  }

  /** What the committer passes over by trying the number after `tail`. */
  function Unseen(tx: Tx, tail: nat): Piece
    requires tx.phase.Appending?
  {
    if tx.phase.upTo < tail then Piece(tx.phase.upTo, tail) else tx.unseen
  }

  /** The number was taken: the committer reads on to the end, and the hook is shown what it read. */
  function Raced(s: System, tx: Tx, tail: nat): Phase
    requires tail <= |s.log|
  {
    if tx.readSet.Keys * InterleavedWrites(s.log[tail..]) == {} then Appending(|s.log|) else Aborted
  }

  function Next(s: System, step: Step): System
    requires Possible(s, step)
  {
    match step
    case Begin(t, m, program) => s.(txs := s.txs[t := Tx(m, program, ListedTail(s), map[], Fresh(), 0, [], map[], Piece(0, 0), Open)])
    case Act(t) => s.(txs := s.txs[t := Acted(s, s.txs[t])])
    case Commit(t) =>
      var phase := if HasWork(s.txs[t].local) then Comparing(s.txs[t].readSet.Keys) else Unneeded;
      s.(txs := s.txs[t := s.txs[t].(phase := phase)])
    case Compare(t, k) =>
      s.(txs := s.txs[t := s.txs[t].(phase := Compared(s, s.txs[t], k), at := s.txs[t].at[k := At(s, k)])])
    case StartScan(t) => s.(txs := s.txs[t := s.txs[t].(phase := Scanning(s.txs[t].begin))])
    case Scan(t) => s.(txs := s.txs[t := s.txs[t].(phase := Scanned(s, s.txs[t]))])
    case List(t) => s.(tails := s.tails[s.txs[t].manager := ListedTail(s)])
    case PutRecord(t) =>
      var tail := s.tails[s.txs[t].manager];
      var tx := s.txs[t].(unseen := Unseen(s.txs[t], tail));
      if tail < |s.log| then
        s.(txs := s.txs[t := tx.(phase := Raced(s, tx, tail))], tails := s.tails[tx.manager := |s.log|])
      else
        var n := |s.log| + 1;
        s.(log := s.log + [LogProtocol.Commit(n, [EntryOf(t, tx)])],
           txs := s.txs[t := tx.(phase := Committed(n))], tails := s.tails[tx.manager := n])
    case Abandon(t) => s.(txs := s.txs[t := s.txs[t].(phase := Aborted)])
    case WriteObject(op, generation, upTo) =>
      s.(objects := Written(s.objects, op, generation), reached := s.reached[op.key := upTo])
    case Prune(to) => s.(floor := to)
  }

  /** None of these commits wrote what the transaction read. */
  ghost predicate ClearOf(s: System, tx: Tx, piece: Piece) {
    forall i :: piece.from <= i < piece.to && i < |s.log| ==> WritesOf(s.log[i]) * tx.readSet.Keys == {}
  }

  /**
    What closes the conflict windows: when a committer tries its first number, nothing that its
    transaction read was written by a commit which the scan did not reach and the hook will not be shown.
    Such commits there are when the committer lists its first tail after the scan, or when the log was
    pruned before it was scanned.
  */
  ghost predicate Windowed(s: System, step: Step)
    requires Possible(s, step)
  {
    match step
    case PutRecord(t) => ClearOf(s, s.txs[t], Piece(s.txs[t].phase.upTo, s.tails[s.txs[t].manager]))
    case _ => true
  }

  /** Objects are written only by applying mutations of the log, by anyone, in any order, any number of times. */
  ghost predicate Lawful(s: System, step: Step) {
    match step
    case WriteObject(op, _, upTo) => IsPlaceOf(s.log, op, upTo)
    case _ => true
  }

  /** What the first `b` records have still to do to the object leaves what it holds. */
  ghost predicate UpToDate(s: System, b: nat, k: Key) {
    b <= |s.log| && Agrees(OpsOfLog(s.log[..b]), At(s, k), k, Lookup(ValuesOf(s.objects), k))
  }

  /** An object is read once more, after its first read and without a staged write that hides it. */
  predicate ReadsAgain(tx: Tx) {
    ActionOf(tx).Get? && ActionOf(tx).key in tx.readSet && ActionOf(tx).key !in tx.local.staged
  }

  /** The second read shows what the first one did, or what agrees with the records up to the begin tail. */
  ghost predicate Repeats(s: System, tx: Tx)
    requires ReadsAgain(tx)
  {
    var k := ActionOf(tx).key;
    ContentOf(tx.readSet[k]) == Lookup(ValuesOf(s.objects), k) || UpToDate(s, tx.begin, k)
  }

  /** An object is compared, or found changed by a second read, only when the records up to the begin tail agree with it. */
  ghost predicate Harmless(s: System, step: Step)
    requires Possible(s, step)
  {
    match step
    case Act(t) => ReadsAgain(s.txs[t]) ==> Repeats(s, s.txs[t])
    case Compare(t, k) => UpToDate(s, s.txs[t].begin, k)
    case _ => true
  }

  /** Which of the three is kept. */
  datatype Discipline = Discipline(windows: bool, writes: bool, reading: bool)

  const FULL := Discipline(true, true, true)

  ghost predicate Disciplined(s: System, step: Step, d: Discipline)
    requires Possible(s, step)
  {
    (d.windows ==> Windowed(s, step)) && (d.writes ==> Lawful(s, step)) && (d.reading ==> Harmless(s, step))
  }

  ghost predicate PossibleRun(s: System, steps: seq<Step>)
    decreases |steps|
  {
    steps == [] || (Possible(s, steps[0]) && PossibleRun(Next(s, steps[0]), steps[1..]))
  }

  ghost predicate DisciplinedRun(s: System, steps: seq<Step>, d: Discipline)
    decreases |steps|
  {
    steps == [] || (Possible(s, steps[0]) && Disciplined(s, steps[0], d) && DisciplinedRun(Next(s, steps[0]), steps[1..], d))
  }

  ghost function Run(s: System, steps: seq<Step>): System
    requires PossibleRun(s, steps)
    decreases |steps|
  {
    if steps == [] then s else Run(Next(s, steps[0]), steps[1..])
  }

  ghost predicate TailsInLine(s: System) {
    && (s.floor < |s.log| || (s.log == [] && s.floor == 0))
    && forall m :: m in s.tails ==> s.floor <= s.tails[m] <= |s.log|
  }

  /** The log was examined from the begin tail to `upTo`, but for the unseen piece, and is clear of conflicts. */
  ghost predicate Examined(s: System, tx: Tx, upTo: nat) {
    && tx.begin <= upTo <= |s.log|
    && (tx.unseen.from < tx.unseen.to ==> tx.begin <= tx.unseen.from && tx.unseen.to <= upTo)
    && forall i :: tx.begin <= i < upTo && !(tx.unseen.from <= i < tx.unseen.to) ==> WritesOf(s.log[i]) * tx.readSet.Keys == {}
  }

  /** Commit `n` is the record of this transaction, alone. */
  ghost predicate IsRecordOf(s: System, n: nat, t: nat, tx: Tx) {
    1 <= n <= |s.log| && s.log[n - 1] == LogProtocol.Commit(n, [EntryOf(t, tx)]) && Examined(s, tx, n - 1)
  }

  ghost predicate PhaseInLine(s: System, t: nat, tx: Tx) {
    match tx.phase
    case Scanning(c) => Examined(s, tx, c)
    case Appending(c) =>
      Examined(s, tx, c) && (tx.unseen.from < tx.unseen.to ==> tx.manager in s.tails && s.tails[tx.manager] <= c)
    case Committed(n) => IsRecordOf(s, n, t, tx)
    case _ => true
  }

  /** The transaction follows its program. */
  ghost predicate ProgramInLine(tx: Tx) {
    && Follows(tx.program, tx.turns, tx.local, tx.sightings) && tx.readSet.Keys == tx.local.asked
    && (forall i :: 0 <= i < |tx.sightings| ==> tx.sightings[i].key in tx.readSet)
    && (Locked(tx.phase) || tx.phase.Committed? ==> ActionOf(tx).Finish? && HasWork(tx.local))
  }

  ghost predicate TxInLine(s: System, t: nat, tx: Tx) {
    && ProgramInLine(tx) && tx.begin <= |s.log| && tx.unseen.to <= |s.log| && PhaseInLine(s, t, tx)
    && (tx.phase.Open? || tx.phase.Comparing? || tx.phase.Scanning? ==> tx.unseen == Piece(0, 0))
  }

  /** Some transaction of the system committed with number `n + 1`. */
  ghost predicate HasAuthor(s: System, n: nat)
    requires n < |s.log|
  {
    && |s.log[n].entries| == 1 && IsIn(s, s.log[n].entries[0].ticket)
    && s.txs[s.log[n].entries[0].ticket].phase == Committed(n + 1)
  }

  ghost predicate AllHaveAuthors(s: System) {
    forall n :: 0 <= n < |s.log| ==> HasAuthor(s, n)
  }

  ghost function Author(s: System, n: nat): Tx
    requires n < |s.log| && HasAuthor(s, n)
  {
    s.txs[s.log[n].entries[0].ticket]
  }

  ghost predicate OneAtATime(s: System) {
    forall t, u :: IsIn(s, t) && IsIn(s, u) && t != u && s.txs[t].manager == s.txs[u].manager && Locked(s.txs[t].phase)
      ==> !Locked(s.txs[u].phase)
  }

  /** What every step keeps. */
  ghost predicate InLine(s: System) {
    && TailsInLine(s)
    && (forall t :: IsIn(s, t) ==> TxInLine(s, t, s.txs[t]))
    && OneAtATime(s) && AllHaveAuthors(s)
  }

  lemma {:induction false} ExaminedStays(s: System, later: System, tx: Tx, upTo: nat)
    requires Examined(s, tx, upTo) && s.log <= later.log
    ensures Examined(later, tx, upTo)
  {
    assert forall i :: 0 <= i < upTo ==> later.log[i] == s.log[i];
  }

  /** A transaction that does not step stays in line while the log grows. */
  lemma {:induction false} TxStays(s: System, later: System, t: nat, tx: Tx)
    requires TxInLine(s, t, tx) && s.log <= later.log
    requires tx.phase.Appending? && tx.manager in s.tails ==>
      tx.manager in later.tails && later.tails[tx.manager] == s.tails[tx.manager]
    ensures TxInLine(later, t, tx)
  {
    if tx.phase.Scanning? || tx.phase.Appending? {
      ExaminedStays(s, later, tx, tx.phase.upTo);
    } else if tx.phase.Committed? {
      ExaminedStays(s, later, tx, tx.phase.number - 1);
    }
  }

  /** What a step of transaction `t` may do besides appending: change `t`, and the tail its committer knows. */
  ghost predicate IsStepOf(s: System, later: System, t: nat) {
    && IsIn(later, t) && later == s.(txs := s.txs[t := later.txs[t]], tails := later.tails)
    && var tx := later.txs[t];
       && (IsIn(s, t) ==> !s.txs[t].phase.Committed? && s.txs[t].manager == tx.manager)
       && (Locked(tx.phase) ==> IsIn(s, t) && (Locked(s.txs[t].phase) || LockFree(s, tx.manager)))
       && (later.tails == s.tails
           || (IsIn(s, t) && Locked(s.txs[t].phase)
               && later.tails == s.tails[tx.manager := |s.log|]))
  }

  lemma {:induction false} StepOfOneKeepsInLine(s: System, later: System, t: nat)
    requires InLine(s) && IsStepOf(s, later, t) && TxInLine(later, t, later.txs[t])
    ensures InLine(later)
  {
    forall u | IsIn(later, u) && u != t
      ensures TxInLine(later, u, later.txs[u])
    {
      assert IsIn(s, u);
      TxStays(s, later, u, s.txs[u]);
    }
    forall n | 0 <= n < |later.log|
      ensures HasAuthor(later, n)
    {
      assert HasAuthor(s, n);
    }
    assert OneAtATime(later) by {
      forall u, w | IsIn(later, u) && IsIn(later, w) && u != w && later.txs[u].manager == later.txs[w].manager && Locked(later.txs[u].phase)
        ensures !Locked(later.txs[w].phase)
      {
        assert u != t ==> IsIn(s, u);
        assert w != t ==> IsIn(s, w);
      }
    }
  }

  lemma {:induction false} BeginKeepsInLine(s: System, t: nat, manager: nat, program: Program)
    requires InLine(s) && Possible(s, Begin(t, manager, program))
    ensures InLine(Next(s, Begin(t, manager, program)))
  {
    var later := Next(s, Begin(t, manager, program));
    assert Follows(program, 0, Fresh(), []);
    assert TxInLine(later, t, later.txs[t]);
    StepOfOneKeepsInLine(s, later, t);
  }

  lemma {:induction false} ActedFollows(s: System, tx: Tx)
    requires ProgramInLine(tx) && tx.phase.Open?
    ensures ProgramInLine(Acted(s, tx))
  {
    var action := ActionOf(tx);
    FollowsOneMore(tx.program, tx.turns, tx.local, tx.sightings, StoredFor(action, ValuesOf(s.objects)),
      if action.Get? then At(s, action.key) else 0);
  }

  lemma {:induction false} ActKeepsInLine(s: System, t: nat)
    requires InLine(s) && Possible(s, Act(t))
    ensures InLine(Next(s, Act(t)))
  {
    var later := Next(s, Act(t));
    assert TxInLine(s, t, s.txs[t]);
    ActedFollows(s, s.txs[t]);
    assert TxInLine(later, t, later.txs[t]);
    StepOfOneKeepsInLine(s, later, t);
  }

  /** A change of phase alone, and of what was noted when comparing. */
  lemma {:induction false} PhaseStep(s: System, t: nat, phase: Phase, at: map<Key, nat>)
    requires InLine(s) && IsIn(s, t) && Unfinished(s.txs[t].phase) && !phase.Open? && !phase.Committed?
    requires PhaseInLine(s, t, s.txs[t].(phase := phase))
    requires phase.Comparing? || phase.Scanning? ==> s.txs[t].unseen == Piece(0, 0)
    requires Locked(phase) ==> ActionOf(s.txs[t]).Finish? && HasWork(s.txs[t].local)
    requires Locked(phase) ==> Locked(s.txs[t].phase) || LockFree(s, s.txs[t].manager)
    ensures InLine(s.(txs := s.txs[t := s.txs[t].(phase := phase, at := at)]))
  {
    var tx, moved := s.txs[t], s.txs[t].(phase := phase, at := at);
    var later := s.(txs := s.txs[t := moved]);
    assert TxInLine(s, t, tx);
    assert ProgramInLine(moved);
    assert PhaseInLine(later, t, moved);
    assert TxInLine(later, t, moved);
    StepOfOneKeepsInLine(s, later, t);
  }

  lemma {:induction false} ScanKeepsInLine(s: System, t: nat)
    requires InLine(s) && Possible(s, Scan(t))
    ensures InLine(Next(s, Scan(t)))
  {
    var tx, phase := s.txs[t], Scanned(s, s.txs[t]);
    assert TxInLine(s, t, tx);
    PhaseStep(s, t, phase, tx.at);
  }

  lemma {:induction false} ListKeepsInLine(s: System, t: nat)
    requires InLine(s) && Possible(s, List(t))
    ensures InLine(Next(s, List(t)))
  {
    var later := Next(s, List(t));
    assert TxInLine(s, t, s.txs[t]);
    assert s.txs[t := s.txs[t]] == s.txs;
    StepOfOneKeepsInLine(s, later, t);
  }

  /** Trying the number after `tail`: what was not examined up to there stays unseen. */
  lemma {:induction false} ExaminedOn(s: System, tx: Tx, tail: nat)
    requires tx.phase.Appending? && Examined(s, tx, tx.phase.upTo) && tail <= |s.log|
    requires tx.unseen.from < tx.unseen.to ==> tail <= tx.phase.upTo
    requires Clear(s.log[tail..], tx.readSet.Keys)
    ensures Examined(s, tx.(unseen := Unseen(tx, tail)), |s.log|)
  {
    assert forall i :: tail <= i < |s.log| ==> s.log[tail..][i - tail] == s.log[i];
    forall i | tail <= i < |s.log|
      ensures WritesOf(s.log[i]) * tx.readSet.Keys == {}
    {
      assert WritesOf(s.log[tail..][i - tail]) * tx.readSet.Keys == {};
    }
  }

  lemma {:induction false} RaceKeepsInLine(s: System, t: nat)
    requires InLine(s) && Possible(s, PutRecord(t)) && s.tails[s.txs[t].manager] < |s.log|
    ensures InLine(Next(s, PutRecord(t)))
  {
    var tx, tail, later := s.txs[t], s.tails[s.txs[t].manager], Next(s, PutRecord(t));
    assert TxInLine(s, t, tx);
    if Raced(s, tx, tail).Appending? {
      ClearIffNoOverlap(s.log[tail..], tx.readSet.Keys);
      ExaminedOn(s, tx, tail);
    }
    assert ProgramInLine(later.txs[t]);
    assert TxInLine(later, t, later.txs[t]);
    StepOfOneKeepsInLine(s, later, t);
  }

  /** The winner has got to the end of the log, and its record comes next. */
  lemma {:induction false} WinnerInLine(s: System, t: nat)
    requires InLine(s) && Possible(s, PutRecord(t)) && s.tails[s.txs[t].manager] >= |s.log|
    ensures TxInLine(Next(s, PutRecord(t)), t, Next(s, PutRecord(t)).txs[t])
  {
    var tx, later := s.txs[t], Next(s, PutRecord(t));
    assert TxInLine(s, t, tx);
    assert s.log[|s.log|..] == [];
    ExaminedOn(s, tx, |s.log|);
    ExaminedStays(s, later, tx.(unseen := Unseen(tx, |s.log|)), |s.log|);
    assert ProgramInLine(later.txs[t]);
  }

  lemma {:induction false} WinKeepsTransactions(s: System, t: nat, u: nat)
    requires InLine(s) && Possible(s, PutRecord(t)) && s.tails[s.txs[t].manager] >= |s.log|
    requires IsIn(s, u)
    ensures TxInLine(Next(s, PutRecord(t)), u, Next(s, PutRecord(t)).txs[u])
  {
    var later := Next(s, PutRecord(t));
    assert TxInLine(s, u, s.txs[u]);
    if u == t {
      WinnerInLine(s, t);
    } else {
      assert s.txs[u].phase.Appending? ==> s.txs[u].manager != s.txs[t].manager;
      TxStays(s, later, u, s.txs[u]);
    }
  }

  lemma {:induction false} WinKeepsAuthors(s: System, t: nat)
    requires AllHaveAuthors(s) && Possible(s, PutRecord(t)) && s.tails[s.txs[t].manager] >= |s.log|
    ensures AllHaveAuthors(Next(s, PutRecord(t)))
  {
    var later := Next(s, PutRecord(t));
    forall n | 0 <= n < |later.log|
      ensures HasAuthor(later, n)
    {
      if n < |s.log| {
        assert HasAuthor(s, n) && later.log[n] == s.log[n];
      }
    }
  }

  lemma {:induction false} WinKeepsInLine(s: System, t: nat)
    requires InLine(s) && Possible(s, PutRecord(t)) && s.tails[s.txs[t].manager] >= |s.log|
    ensures InLine(Next(s, PutRecord(t)))
  {
    var later := Next(s, PutRecord(t));
    forall u | IsIn(later, u)
      ensures TxInLine(later, u, later.txs[u])
    {
      assert IsIn(s, u);
      WinKeepsTransactions(s, t, u);
    }
    WinKeepsAuthors(s, t);
    WinKeepsLocks(s, later, t);
  }

  lemma {:induction false} WinKeepsLocks(s: System, later: System, t: nat)
    requires OneAtATime(s) && IsIn(s, t) && IsIn(later, t) && later.txs == s.txs[t := later.txs[t]]
    requires !Locked(later.txs[t].phase)
    ensures OneAtATime(later)
  {
    forall u, w | IsIn(later, u) && IsIn(later, w) && u != w && later.txs[u].manager == later.txs[w].manager && Locked(later.txs[u].phase)
      ensures !Locked(later.txs[w].phase)
    {
      assert IsIn(s, u) && IsIn(s, w);
    }
  }

  /** A step that is no transaction's leaves all of them in line. */
  lemma {:induction false} TransactionsStay(s: System, later: System)
    requires InLine(s) && TailsInLine(later) && later.log == s.log && later.txs == s.txs && later.tails == s.tails
    ensures InLine(later)
  {
    forall t | IsIn(later, t)
      ensures TxInLine(later, t, later.txs[t])
    {
      assert IsIn(s, t);
      TxStays(s, later, t, s.txs[t]);
    }
    forall n | 0 <= n < |later.log|
      ensures HasAuthor(later, n)
    {
      assert HasAuthor(s, n);
    }
    assert forall t :: IsIn(later, t) <==> IsIn(s, t);
  }

  /** Leaving the block, comparing, starting the scan, giving up. */
  lemma {:induction false} TurnKeepsInLine(s: System, t: nat, phase: Phase, at: map<Key, nat>)
    requires InLine(s) && IsIn(s, t) && Unfinished(s.txs[t].phase)
    requires phase.Aborted? || phase.Unneeded?
      || (Possible(s, Commit(t)) && HasWork(s.txs[t].local) && phase.Comparing?)
      || (s.txs[t].phase.Comparing? && phase.Comparing?)
      || (s.txs[t].phase.Comparing? && phase == Scanning(s.txs[t].begin))
    ensures InLine(s.(txs := s.txs[t := s.txs[t].(phase := phase, at := at)]))
  {
    var tx := s.txs[t];
    assert TxInLine(s, t, tx);
    PhaseStep(s, t, phase, at);
  }

  /** Every step, of any transaction, applier, writer or prune, keeps the system in line. */
  lemma {:induction false} StepKeepsInLine(s: System, step: Step)
    requires InLine(s) && Possible(s, step)
    ensures InLine(Next(s, step)) && s.log <= Next(s, step).log
  {
    match step
    case Begin(t, manager, program) => BeginKeepsInLine(s, t, manager, program);
    case Act(t) => ActKeepsInLine(s, t);
    case Commit(t) => TurnKeepsInLine(s, t, Next(s, step).txs[t].phase, s.txs[t].at);
    case Compare(t, k) => TurnKeepsInLine(s, t, Next(s, step).txs[t].phase, Next(s, step).txs[t].at);
    case StartScan(t) => TurnKeepsInLine(s, t, Scanning(s.txs[t].begin), s.txs[t].at);
    case Scan(t) => ScanKeepsInLine(s, t);
    case List(t) => ListKeepsInLine(s, t);
    case PutRecord(t) =>
      if s.tails[s.txs[t].manager] < |s.log| {
        RaceKeepsInLine(s, t);
      } else {
        WinKeepsInLine(s, t);
      }
    case Abandon(t) => TurnKeepsInLine(s, t, Aborted, s.txs[t].at);
    case WriteObject(op, generation, upTo) => TransactionsStay(s, Next(s, step));
    case Prune(to) => TransactionsStay(s, Next(s, step));
  }

  /** Nothing that any transaction read was written by a commit that it passed over. */
  ghost predicate WindowsClosed(s: System) {
    forall t :: IsIn(s, t) ==> ClearOf(s, s.txs[t], s.txs[t].unseen)
  }

  /** Only a put changes what a transaction passed over, and only actions in its block what it read. */
  lemma {:induction false} UnseenStays(s: System, step: Step, t: nat)
    requires Possible(s, step) && IsIn(s, t) && !(step.PutRecord? && step.tx == t)
    ensures IsIn(Next(s, step), t) && Next(s, step).txs[t].unseen == s.txs[t].unseen
    ensures Next(s, step).txs[t].readSet == s.txs[t].readSet || s.txs[t].phase.Open?
  {
  }

  lemma {:induction false} ClosedStays(s: System, step: Step, t: nat)
    requires InLine(s) && WindowsClosed(s) && Possible(s, step) && IsIn(s, t) && !(step.PutRecord? && step.tx == t)
    ensures IsIn(Next(s, step), t) && ClearOf(Next(s, step), Next(s, step).txs[t], Next(s, step).txs[t].unseen)
  {
    UnseenStays(s, step, t);
    StepKeepsInLine(s, step);
    assert TxInLine(s, t, s.txs[t]) && ClearOf(s, s.txs[t], s.txs[t].unseen);
  }

  lemma {:induction false} PutClosesExactly(s: System, t: nat)
    requires InLine(s) && WindowsClosed(s) && Possible(s, PutRecord(t))
    ensures var later := Next(s, PutRecord(t));
            IsIn(later, t) && (ClearOf(later, later.txs[t], later.txs[t].unseen) <==> Windowed(s, PutRecord(t)))
  {
    var tx, tail := s.txs[t], s.tails[s.txs[t].manager];
    assert TxInLine(s, t, tx) && ClearOf(s, tx, tx.unseen);
    PutMoves(s, t);
    SameLog(s, Next(s, PutRecord(t)), tx, Next(s, PutRecord(t)).txs[t], Unseen(tx, tail));
  }

  lemma {:induction false} PutMoves(s: System, t: nat)
    requires Possible(s, PutRecord(t))
    ensures var later, tx := Next(s, PutRecord(t)), s.txs[t];
            && IsIn(later, t) && s.log <= later.log && later.txs[t].readSet == tx.readSet
            && later.txs[t].unseen == Unseen(tx, s.tails[tx.manager])
  {
  }

  lemma {:induction false} SameLog(s: System, later: System, tx: Tx, moved: Tx, piece: Piece)
    requires s.log <= later.log && piece.to <= |s.log| && tx.readSet == moved.readSet
    ensures ClearOf(s, tx, piece) <==> ClearOf(later, moved, piece)
  {
    assert forall i :: 0 <= i < |s.log| ==> later.log[i] == s.log[i];
  }

  /** A step keeps all windows closed exactly when it is `Windowed`. */
  lemma {:induction false} WindowsExactly(s: System, step: Step)
    requires InLine(s) && WindowsClosed(s) && Possible(s, step)
    ensures WindowsClosed(Next(s, step)) <==> Windowed(s, step)
  {
    var later := Next(s, step);
    if step.PutRecord? {
      PutClosesExactly(s, step.tx);
    }
    forall t | IsIn(later, t) && !(step.PutRecord? && step.tx == t)
      ensures ClearOf(later, later.txs[t], later.txs[t].unseen)
    {
      if IsIn(s, t) {
        ClosedStays(s, step, t);
      } else {
        OnlyBeginsAppear(s, step, t);
      }
    }
  }

  lemma {:induction false} OnlyBeginsAppear(s: System, step: Step, t: nat)
    requires Possible(s, step) && IsIn(Next(s, step), t) && !IsIn(s, t)
    ensures Next(s, step).txs[t].unseen == Piece(0, 0)
  {
  }

  /** The keys that were compared with success. */
  function ComparedKeys(tx: Tx): (keys: set<Key>)
    ensures keys <= tx.readSet.Keys
  {
    match tx.phase
    case Comparing(todo) => tx.readSet.Keys - todo
    case Scanning(_) => tx.readSet.Keys
    case Appending(_) => tx.readSet.Keys
    case Committed(_) => tx.readSet.Keys
    case _ => {}
  }

  /** The log as far as a transaction may have seen it: a committed one saw what is before its record. */
  function Before(s: System, tx: Tx): TxLog {
    if tx.phase.Committed? && 1 <= tx.phase.number <= |s.log| then s.log[..tx.phase.number - 1] else s.log
  }

  /** The records up to the begin tail agree with a value that was there when the log had reached its key to `at`. */
  ghost predicate AgreesAtBegin(s: System, tx: Tx, k: Key, value: Option<Data>, at: nat) {
    tx.begin <= |s.log| && Agrees(OpsOfLog(s.log[..tx.begin]), at, k, value)
  }

  ghost predicate ReadInLine(s: System, tx: Tx, d: Discipline, k: Key)
    requires k in tx.readSet
  {
    && k in tx.at && WasFold(s.base, Before(s, tx), k, ContentOf(tx.readSet[k]), tx.at[k])
    && (d.reading ==> AgreesAtBegin(s, tx, k, ContentOf(tx.readSet[k]), tx.at[k]))
  }

  /** What was handed out is a fold and, in full discipline, what the read set says or agreed with. */
  ghost predicate SightingInLine(s: System, tx: Tx, d: Discipline, seen: Sighting) {
    && WasFold(s.base, Before(s, tx), seen.key, seen.value, seen.at) && seen.key in tx.readSet
    && (d.reading ==> seen.value == ContentOf(tx.readSet[seen.key]) || AgreesAtBegin(s, tx, seen.key, seen.value, seen.at))
  }

  ghost predicate ReadsInLine(s: System, tx: Tx, d: Discipline) {
    && (forall k :: k in ComparedKeys(tx) ==> ReadInLine(s, tx, d, k))
    && forall i :: 0 <= i < |tx.sightings| ==> SightingInLine(s, tx, d, tx.sightings[i])
  }

  /** What lawful writes keep besides. */
  ghost predicate ValuesInLine(s: System, d: Discipline) {
    && Tagged(s.objects) && AllFolds(ValuesOf(s.objects), s.base, s.log, s.reached)
    && forall t :: IsIn(s, t) ==> ReadsInLine(s, s.txs[t], d)
  }

  /** Reads stay in line while the log grows, and when the transaction that made them goes on. */
  lemma {:induction false} ReadsStay(s: System, later: System, tx: Tx, moved: Tx, d: Discipline)
    requires ReadsInLine(s, tx, d) && later.base == s.base && s.log <= later.log && tx.begin <= |s.log|
    requires moved == tx.(phase := moved.phase, unseen := moved.unseen) && ComparedKeys(moved) <= ComparedKeys(tx)
    requires Before(s, tx) <= Before(later, moved)
    ensures ReadsInLine(later, moved, d)
  {
    assert later.log[..tx.begin] == s.log[..tx.begin];
    forall k | k in ComparedKeys(moved)
      ensures ReadInLine(later, moved, d, k)
    {
      assert ReadInLine(s, tx, d, k);
      WasFoldOnLongerLog(s.base, Before(s, tx), Before(later, moved), k, ContentOf(tx.readSet[k]), tx.at[k]);
    }
    forall i | 0 <= i < |tx.sightings|
      ensures SightingInLine(later, moved, d, tx.sightings[i])
    {
      var seen := tx.sightings[i];
      assert SightingInLine(s, tx, d, seen);
      WasFoldOnLongerLog(s.base, Before(s, tx), Before(later, moved), seen.key, seen.value, seen.at);
    }
  }

  lemma {:induction false} OthersStay(s: System, later: System, t: nat, d: Discipline)
    requires InLine(s) && ValuesInLine(s, d) && later.base == s.base && s.log <= later.log
    requires later.objects == s.objects && later.reached == s.reached
    requires IsIn(later, t) && later.txs == s.txs[t := later.txs[t]] && ReadsInLine(later, later.txs[t], d)
    ensures ValuesInLine(later, d)
  {
    AllFoldsOnLongerLog(ValuesOf(s.objects), s.base, s.log, later.log, s.reached);
    forall u | IsIn(later, u) && u != t
      ensures ReadsInLine(later, later.txs[u], d)
    {
      assert IsIn(s, u) && TxInLine(s, u, s.txs[u]) && ReadsInLine(s, s.txs[u], d);
      ReadsStay(s, later, s.txs[u], s.txs[u], d);
    }
  }

  /** A transaction goes on without comparing anything more. */
  lemma {:induction false} MoveKeepsValues(s: System, later: System, t: nat, d: Discipline)
    requires InLine(s) && ValuesInLine(s, d) && later.base == s.base && s.log <= later.log
    requires later.objects == s.objects && later.reached == s.reached
    requires IsIn(s, t) && IsIn(later, t) && later.txs == s.txs[t := later.txs[t]]
    requires !s.txs[t].phase.Committed?
    requires later.txs[t] == s.txs[t].(phase := later.txs[t].phase, unseen := later.txs[t].unseen)
    requires ComparedKeys(later.txs[t]) <= ComparedKeys(s.txs[t]) && s.log <= Before(later, later.txs[t])
    ensures ValuesInLine(later, d)
  {
    assert TxInLine(s, t, s.txs[t]) && ReadsInLine(s, s.txs[t], d);
    ReadsStay(s, later, s.txs[t], later.txs[t], d);
    OthersStay(s, later, t, d);
  }

  /** What a transaction is handed now. */
  lemma {:induction false} NewSighting(s: System, tx: Tx, d: Discipline)
    requires ValuesInLine(s, d) && tx.phase.Open? && ActionOf(tx).Get? && (d.reading && ReadsAgain(tx) ==> Repeats(s, tx))
    ensures var k := ActionOf(tx).key;
            SightingInLine(s, Acted(s, tx), d, Sighting(k, Lookup(ValuesOf(s.objects), k), At(s, k)))
            || k in tx.local.staged
  {
    var k := ActionOf(tx).key;
    assert WasFold(s.base, s.log, k, Lookup(ValuesOf(s.objects), k), PlaceOf(s.reached, k));
    assert ContentOf(SeenOf(Found(s, k))) == Lookup(ValuesOf(s.objects), k);
  }

  lemma {:induction false} ReadsCarryOver(s: System, later: System, tx: Tx, d: Discipline)
    requires ReadsInLine(s, tx, d) && later.base == s.base && later.log == s.log
    ensures ReadsInLine(later, tx, d)
  {
    forall k | k in ComparedKeys(tx)
      ensures ReadInLine(later, tx, d, k)
    {
      assert ReadInLine(s, tx, d, k);
    }
    forall i | 0 <= i < |tx.sightings|
      ensures SightingInLine(later, tx, d, tx.sightings[i])
    {
      assert SightingInLine(s, tx, d, tx.sightings[i]);
    }
  }

  lemma {:induction false} ActedReads(s: System, tx: Tx, d: Discipline)
    requires ValuesInLine(s, d) && ReadsInLine(s, tx, d) && tx.phase.Open?
    requires d.reading && ReadsAgain(tx) ==> Repeats(s, tx)
    ensures ReadsInLine(s, Acted(s, tx), d)
  {
    var acted := Acted(s, tx);
    if ActionOf(tx).Get? {
      NewSighting(s, tx, d);
    }
    forall i | 0 <= i < |acted.sightings|
      ensures SightingInLine(s, acted, d, acted.sightings[i])
    {
      assert i < |tx.sightings| ==> acted.sightings[i] == tx.sightings[i] && SightingInLine(s, tx, d, tx.sightings[i]);
    }
  }

  lemma {:induction false} ComparedReads(s: System, later: System, t: nat, k: Key, d: Discipline)
    requires ValuesInLine(s, d) && Possible(s, Compare(t, k)) && later == Next(s, Compare(t, k))
    requires d.reading ==> UpToDate(s, s.txs[t].begin, k)
    ensures ReadsInLine(later, later.txs[t], d)
  {
    var tx, moved := s.txs[t], later.txs[t];
    assert ReadsInLine(s, tx, d);
    forall j | j in ComparedKeys(moved)
      ensures ReadInLine(later, moved, d, j)
    {
      if j == k {
        assert WasFold(s.base, s.log, k, Lookup(ValuesOf(s.objects), k), PlaceOf(s.reached, k));
        assert ContentOf(tx.readSet[k]) == Lookup(ValuesOf(s.objects), k);
      } else {
        assert ReadInLine(s, tx, d, j);
      }
    }
    forall i | 0 <= i < |tx.sightings|
      ensures SightingInLine(later, moved, d, tx.sightings[i])
    {
      assert SightingInLine(s, tx, d, tx.sightings[i]);
    }
  }

  lemma {:induction false} WriteKeepsValues(s: System, op: Op, generation: nat, upTo: nat, d: Discipline)
    requires InLine(s) && ValuesInLine(s, d) && Lawful(s, WriteObject(op, generation, upTo))
    ensures ValuesInLine(Next(s, WriteObject(op, generation, upTo)), d)
  {
    var later := Next(s, WriteObject(op, generation, upTo));
    WrittenIsApplied(s.objects, op, generation);
    MutationKeepsFolds(ValuesOf(s.objects), s.base, s.log, s.reached, op, upTo);
    ReadsUnmoved(s, later, d);
  }

  lemma {:induction false} ReadsUnmoved(s: System, later: System, d: Discipline)
    requires InLine(s) && ValuesInLine(s, d) && later.base == s.base && later.log == s.log && later.txs == s.txs
    ensures forall t :: IsIn(later, t) ==> ReadsInLine(later, later.txs[t], d)
  {
    forall t | IsIn(later, t)
      ensures ReadsInLine(later, later.txs[t], d)
    {
      assert IsIn(s, t) && TxInLine(s, t, s.txs[t]) && ReadsInLine(s, s.txs[t], d);
      ReadsStay(s, later, s.txs[t], s.txs[t], d);
    }
  }

  lemma {:induction false} ActKeepsValues(s: System, t: nat, d: Discipline)
    requires InLine(s) && ValuesInLine(s, d) && Possible(s, Act(t)) && (d.reading ==> Harmless(s, Act(t)))
    ensures ValuesInLine(Next(s, Act(t)), d)
  {
    var later := Next(s, Act(t));
    assert ReadsInLine(s, s.txs[t], d);
    ActedReads(s, s.txs[t], d);
    ReadsCarryOver(s, later, later.txs[t], d);
    OthersStay(s, later, t, d);
  }

  lemma {:induction false} CompareKeepsValues(s: System, t: nat, k: Key, d: Discipline)
    requires InLine(s) && ValuesInLine(s, d) && Possible(s, Compare(t, k)) && (d.reading ==> Harmless(s, Compare(t, k)))
    ensures ValuesInLine(Next(s, Compare(t, k)), d)
  {
    var later := Next(s, Compare(t, k));
    ComparedReads(s, later, t, k, d);
    OthersStay(s, later, t, d);
  }

  lemma {:induction false} WinKeepsValues(s: System, t: nat, d: Discipline)
    requires InLine(s) && ValuesInLine(s, d) && Possible(s, PutRecord(t)) && s.tails[s.txs[t].manager] >= |s.log|
    ensures ValuesInLine(Next(s, PutRecord(t)), d)
  {
    var later := Next(s, PutRecord(t));
    assert later.log[..|s.log|] == s.log;
    MoveKeepsValues(s, later, t, d);
  }

  /** The steps that compare and append nothing. */
  predicate IsTurn(s: System, step: Step)
    requires Possible(s, step)
  {
    || step.Commit? || step.StartScan? || step.Scan? || step.List? || step.Abandon?
    || (step.PutRecord? && s.tails[s.txs[step.tx].manager] < |s.log|)
  }

  lemma {:induction false} TurnsCompareNothing(s: System, step: Step)
    requires Possible(s, step) && IsTurn(s, step)
    ensures var t, later := step.tx, Next(s, step);
            && IsIn(s, t) && Unfinished(s.txs[t].phase) && IsIn(later, t) && !later.txs[t].phase.Committed?
            && later.txs[t] == s.txs[t].(phase := later.txs[t].phase, unseen := later.txs[t].unseen)
            && later == s.(txs := s.txs[t := later.txs[t]], tails := later.tails)
            && ComparedKeys(later.txs[t]) <= ComparedKeys(s.txs[t])
  {
    assert s.txs[step.tx := s.txs[step.tx]] == s.txs;
  }

  lemma {:induction false} TurnKeepsValues(s: System, step: Step, d: Discipline)
    requires InLine(s) && ValuesInLine(s, d) && Possible(s, step) && IsTurn(s, step)
    ensures ValuesInLine(Next(s, step), d)
  {
    TurnsCompareNothing(s, step);
    MoveKeepsValues(s, Next(s, step), step.tx, d);
  }

  lemma {:induction false} StepOfTransactionKeepsValues(s: System, step: Step, d: Discipline)
    requires InLine(s) && ValuesInLine(s, d) && Possible(s, step) && (IsTurn(s, step) || step.PutRecord?)
    ensures ValuesInLine(Next(s, step), d)
  {
    if IsTurn(s, step) {
      TurnKeepsValues(s, step, d);
    } else {
      WinKeepsValues(s, step.tx, d);
    }
  }

  lemma {:induction false} BeginKeepsValues(s: System, step: Step, d: Discipline)
    requires InLine(s) && ValuesInLine(s, d) && step.Begin? && Possible(s, step)
    ensures ValuesInLine(Next(s, step), d)
  {
    OthersStay(s, Next(s, step), step.tx, d);
  }

  /** Every step with a lawful write, and in full discipline a harmless one, keeps the values in line. */
  lemma {:induction false} StepKeepsValues(s: System, step: Step, d: Discipline)
    requires InLine(s) && ValuesInLine(s, d) && Possible(s, step) && Lawful(s, step) && (d.reading ==> Harmless(s, step))
    ensures ValuesInLine(Next(s, step), d)
  {
    match step
    case Begin(t, manager, program) => BeginKeepsValues(s, step, d);
    case Act(t) => ActKeepsValues(s, t, d);
    case Compare(t, k) => CompareKeepsValues(s, t, k, d);
    case WriteObject(op, generation, upTo) => WriteKeepsValues(s, op, generation, upTo, d);
    case Prune(to) => ReadsUnmoved(s, Next(s, step), d);
    case _ => StepOfTransactionKeepsValues(s, step, d);
  }

  /**
    The record of transaction `tx` is serial at place `n + 1`: the transaction read and was handed what
    the records before it leave, and did what its program does when it runs alone against that.
  */
  ghost predicate SerialRecord(s: System, n: nat)
    requires n < |s.log| && HasAuthor(s, n)
  {
    var tx, before := Author(s, n), StoreAt(s.base, s.log[..n]);
    && ReadsFold(s.base, s.log[..n], RecordOf(tx)) && Saw(before, tx.sightings)
    && Finishes(tx.program, before, tx.turns) && Serially(tx.program, before, tx.turns) == tx.local
  }

  /** From here on to the end of the log that it examined, the transaction saw every commit. */
  function InSightFrom(tx: Tx): nat {
    if tx.unseen.from < tx.unseen.to then tx.unseen.to else tx.begin
  }

  /** The transaction read what the first `b` records leave, and read nothing twice differently. */
  ghost predicate ReadWhatIsAt(s: System, tx: Tx, b: nat) {
    b <= |s.log| && ReadsFold(s.base, s.log[..b], RecordOf(tx)) && SameAgain(tx.sightings, tx.readSet)
  }

  /** What the first `b` records had still to do to a key when it was compared, leaves what was read. */
  ghost predicate AgreedWith(s: System, tx: Tx, b: nat) {
    && b <= |s.log| && SameAgain(tx.sightings, tx.readSet)
    && forall k :: k in tx.readSet ==> k in tx.at && Agrees(OpsOfLog(s.log[..b]), tx.at[k], k, ContentOf(tx.readSet[k]))
  }

  /** Nothing that record `n` read was written by a record after the first `b` and before its place. */
  ghost predicate UnwrittenSince(s: System, n: nat, b: nat)
    requires n < |s.log| && HasAuthor(s, n)
  {
    b <= n && Clear(s.log[b..n], Author(s, n).readSet.Keys)
  }

  /** Nothing that record `n` read was written by a record between its begin tail and its place. */
  ghost predicate WindowClosed(s: System, n: nat)
    requires n < |s.log| && HasAuthor(s, n)
  {
    UnwrittenSince(s, n, Author(s, n).begin)
  }

  lemma {:induction false} AuthorsWindow(s: System, n: nat)
    requires InLine(s) && n < |s.log|
    ensures HasAuthor(s, n) && ProgramInLine(Author(s, n)) && Author(s, n).phase == Committed(n + 1)
    ensures IsRecordOf(s, n + 1, s.log[n].entries[0].ticket, Author(s, n)) && Author(s, n).begin <= n
  {
    assert HasAuthor(s, n);
    var t := s.log[n].entries[0].ticket;
    assert TxInLine(s, t, s.txs[t]);
  }

  /** The window of a record is closed exactly when the commits that it passed over wrote nothing it read. */
  lemma {:induction false} WindowExactly(s: System, n: nat)
    requires InLine(s) && n < |s.log|
    ensures HasAuthor(s, n) && (WindowClosed(s, n) <==> ClearOf(s, Author(s, n), Author(s, n).unseen))
  {
    AuthorsWindow(s, n);
    var tx := Author(s, n);
    var window := s.log[tx.begin..n];
    assert forall i :: tx.begin <= i < n ==> window[i - tx.begin] == s.log[i];
    if ClearOf(s, tx, tx.unseen) {
      forall i | 0 <= i < |window|
        ensures WritesOf(window[i]) * tx.readSet.Keys == {}
      {
        assert window[i] == s.log[tx.begin + i];
      }
    }
  }

  /** The commits that a transaction saw last wrote nothing it read. */
  lemma {:induction false} UnwrittenInSight(s: System, n: nat)
    requires InLine(s) && n < |s.log|
    ensures HasAuthor(s, n) && UnwrittenSince(s, n, InSightFrom(Author(s, n)))
  {
    AuthorsWindow(s, n);
    var tx, b := Author(s, n), InSightFrom(Author(s, n));
    var window := s.log[b..n];
    forall i | 0 <= i < |window|
      ensures WritesOf(window[i]) * tx.readSet.Keys == {}
    {
      assert window[i] == s.log[b + i];
    }
  }

  /** If nothing it read was written since, a record is serial exactly when it read what the first `b` records leave. */
  lemma {:induction false} SerialExactly(s: System, n: nat, b: nat)
    requires InLine(s) && n < |s.log| && HasAuthor(s, n) && UnwrittenSince(s, n, b)
    ensures SerialRecord(s, n) <==> ReadWhatIsAt(s, Author(s, n), b)
  {
    AuthorsWindow(s, n);
    var tx, before := Author(s, n), StoreAt(s.base, s.log[..n]);
    ClearWindowBefore(s.base, s.log, n, b, RecordOf(tx));
    if ReadsFold(s.base, s.log[..n], RecordOf(tx)) {
      SawExactly(before, tx.sightings, tx.readSet);
      if Saw(before, tx.sightings) {
        assert Serially(tx.program, before, tx.turns) == tx.local;
      }
    }
  }

  /** A read that was a fold, with nothing written since: what the first `b` records leave, exactly when they agree. */
  lemma {:induction false} KeyExactly(s: System, n: nat, tx: Tx, b: nat, d: Discipline, k: Key)
    requires b <= n <= |s.log| && Before(s, tx) == s.log[..n] && Clear(s.log[b..n], tx.readSet.Keys)
    requires k in tx.readSet && ReadInLine(s, tx, d, k)
    ensures ContentOf(tx.readSet[k]) == Lookup(StoreAt(s.base, s.log[..b]), k)
       <==> Agrees(OpsOfLog(s.log[..b]), tx.at[k], k, ContentOf(tx.readSet[k]))
  {
    ReadIsSerialBefore(s.base, s.log, n, b, tx.readSet.Keys, k, ContentOf(tx.readSet[k]), tx.at[k]);
    var window := s.log[..n];
    assert window[b..] == s.log[b..n] && window[..b] == s.log[..b];
    ClearReadIsStable(s.base, window, b, tx.readSet.Keys, k);
  }

  /** With lawful writes, exactly when what it read agreed with the first `b` records. */
  lemma {:induction false} LawfulSerialExactly(s: System, n: nat, b: nat, d: Discipline)
    requires InLine(s) && ValuesInLine(s, d) && n < |s.log| && HasAuthor(s, n) && UnwrittenSince(s, n, b)
    ensures SerialRecord(s, n) <==> AgreedWith(s, Author(s, n), b)
  {
    SerialExactly(s, n, b);
    AuthorsWindow(s, n);
    var tx := Author(s, n);
    assert ReadsInLine(s, tx, d);
    forall k | k in tx.readSet
      ensures k in tx.at
      ensures ContentOf(tx.readSet[k]) == Lookup(StoreAt(s.base, s.log[..b]), k)
         <==> Agrees(OpsOfLog(s.log[..b]), tx.at[k], k, ContentOf(tx.readSet[k]))
    {
      assert ReadInLine(s, tx, d, k);
      KeyExactly(s, n, tx, b, d, k);
    }
  }

  lemma {:induction false} SameValue(base: Contents, log: TxLog, n: nat, b: nat, keys: set<Key>, k: Key,
      v: Option<Data>, at: nat, w: Option<Data>, other: nat)
    requires b <= n <= |log| && Clear(log[b..n], keys) && k in keys
    requires WasFold(base, log[..n], k, v, at) && Agrees(OpsOfLog(log[..b]), at, k, v)
    requires WasFold(base, log[..n], k, w, other) && Agrees(OpsOfLog(log[..b]), other, k, w)
    ensures v == w
  {
    ReadIsSerialBefore(base, log, n, b, keys, k, v, at);
    ReadIsSerialBefore(base, log, n, b, keys, k, w, other);
  }

  /** In full discipline, a value handed out twice is the same twice. */
  lemma {:induction false} DisciplinedSighting(s: System, n: nat, tx: Tx, seen: Sighting)
    requires tx.begin <= n <= |s.log| && Before(s, tx) == s.log[..n] && Clear(s.log[tx.begin..n], tx.readSet.Keys)
    requires seen.key in tx.readSet && ReadInLine(s, tx, FULL, seen.key) && SightingInLine(s, tx, FULL, seen)
    ensures seen.value == ContentOf(tx.readSet[seen.key])
  {
    if seen.value != ContentOf(tx.readSet[seen.key]) {
      SameValue(s.base, s.log, n, tx.begin, tx.readSet.Keys, seen.key, ContentOf(tx.readSet[seen.key]), tx.at[seen.key],
        seen.value, seen.at);
    }
  }

  /** In full discipline every record is serial. */
  lemma {:induction false} DisciplinedIsSerial(s: System, n: nat)
    requires InLine(s) && ValuesInLine(s, FULL) && n < |s.log| && HasAuthor(s, n) && WindowClosed(s, n)
    ensures SerialRecord(s, n)
  {
    AuthorsWindow(s, n);
    var tx := Author(s, n);
    LawfulSerialExactly(s, n, tx.begin, FULL);
    assert ReadsInLine(s, tx, FULL);
    forall k | k in tx.readSet
      ensures k in tx.at && AgreesAtBegin(s, tx, k, ContentOf(tx.readSet[k]), tx.at[k])
    {
      assert ReadInLine(s, tx, FULL, k);
    }
    forall i | 0 <= i < |tx.sightings|
      ensures tx.sightings[i].key in tx.readSet
      ensures tx.sightings[i].value == ContentOf(tx.readSet[tx.sightings[i].key])
    {
      assert SightingInLine(s, tx, FULL, tx.sightings[i]) && ReadInLine(s, tx, FULL, tx.sightings[i].key);
      DisciplinedSighting(s, n, tx, tx.sightings[i]);
    }
  }

  ghost function JobOf(s: System, n: nat): Job
    requires n < |s.log| && HasAuthor(s, n)
  {
    Job(Author(s, n).program, Author(s, n).turns)
  }

  ghost predicate AllSerial(s: System)
    requires AllHaveAuthors(s)
  {
    forall n :: 0 <= n < |s.log| ==> SerialRecord(s, n)
  }

  /** The programs behind the first `n` records, in log order. */
  ghost function JobsOf(s: System, n: nat): (jobs: seq<Job>)
    requires n <= |s.log| && AllHaveAuthors(s)
    ensures |jobs| == n
  {
    if n == 0 then []
    else
      assert HasAuthor(s, n - 1);
      JobsOf(s, n - 1) + [JobOf(s, n - 1)]
  }

  /** A serial record does to what the records before it leave what its program does there. */
  lemma {:induction false} RecordRuns(s: System, n: nat)
    requires InLine(s) && n < |s.log| && HasAuthor(s, n) && SerialRecord(s, n)
    ensures RunJob(StoreAt(s.base, s.log[..n]), JobOf(s, n)) == StoreAt(s.base, s.log[..n + 1])
  {
    AuthorsWindow(s, n);
    OpsOfOneEntry(s.log[n]);
    StorePrefix(s.base, s.log, n);
  }

  lemma {:induction false} OneMoreRuns(s: System, n: nat)
    requires InLine(s) && AllHaveAuthors(s) && n < |s.log| && SerialRecord(s, n)
    requires RunSerially(s.base, JobsOf(s, n)) == StoreAt(s.base, s.log[..n])
    ensures RunSerially(s.base, JobsOf(s, n + 1)) == StoreAt(s.base, s.log[..n + 1])
  {
    RecordRuns(s, n);
    OneMoreJob(s.base, JobsOf(s, n), JobOf(s, n));
  }

  /** Running the programs of the first `n` records one at a time leaves what these records leave. */
  lemma {:induction false} RecordsRunSerially(s: System, n: nat)
    requires InLine(s) && n <= |s.log| && AllSerial(s)
    ensures RunSerially(s.base, JobsOf(s, n)) == StoreAt(s.base, s.log[..n])
    decreases n
  {
    if n > 0 {
      RecordsRunSerially(s, n - 1);
      OneMoreRuns(s, n - 1);
    }
  }

  lemma {:induction false} RunKeepsInLine(s: System, steps: seq<Step>)
    requires InLine(s) && PossibleRun(s, steps)
    ensures InLine(Run(s, steps)) && s.log <= Run(s, steps).log
    decreases |steps|
  {
    if steps != [] {
      StepKeepsInLine(s, steps[0]);
      RunKeepsInLine(Next(s, steps[0]), steps[1..]);
    }
  }

  /** What the disciplines keep. */
  ghost predicate KeptBy(s: System, d: Discipline) {
    InLine(s) && (d.windows ==> WindowsClosed(s)) && (d.writes ==> ValuesInLine(s, d))
  }

  lemma {:induction false} StepKeepsDiscipline(s: System, step: Step, d: Discipline)
    requires KeptBy(s, d) && Possible(s, step) && Disciplined(s, step, d)
    ensures KeptBy(Next(s, step), d)
  {
    StepKeepsInLine(s, step);
    if d.windows {
      WindowsExactly(s, step);
    }
    if d.writes {
      StepKeepsValues(s, step, d);
    }
  }

  lemma {:induction false} RunKeepsDiscipline(s: System, steps: seq<Step>, d: Discipline)
    requires KeptBy(s, d) && DisciplinedRun(s, steps, d)
    ensures PossibleRun(s, steps) && KeptBy(Run(s, steps), d)
    decreases |steps|
  {
    if steps != [] {
      StepKeepsDiscipline(s, steps[0], d);
      RunKeepsDiscipline(Next(s, steps[0]), steps[1..], d);
    }
  }

  lemma {:induction false} BaseStays(s: System, steps: seq<Step>)
    requires PossibleRun(s, steps)
    ensures Run(s, steps).base == s.base
    decreases |steps|
  {
    if steps != [] {
      BaseStays(Next(s, steps[0]), steps[1..]);
    }
  }

  /** What a disciplined run comes to. */
  lemma {:induction false} RunComesTo(objects: Objects, steps: seq<Step>, d: Discipline) returns (s: System)
    requires DisciplinedRun(Initial(objects), steps, d) && (d.writes ==> Tagged(objects))
    ensures PossibleRun(Initial(objects), steps) && s == Run(Initial(objects), steps) && s.base == ValuesOf(objects)
    ensures KeptBy(s, d) && AllHaveAuthors(s)
    ensures d.windows ==> forall n :: 0 <= n < |s.log| ==> WindowClosed(s, n)
  {
    InitiallyFolds(ValuesOf(objects), []);
    RunKeepsDiscipline(Initial(objects), steps, d);
    BaseStays(Initial(objects), steps);
    s := Run(Initial(objects), steps);
    forall n | 0 <= n < |s.log| && d.windows
      ensures WindowClosed(s, n)
    {
      AuthorsWindow(s, n);
      assert IsIn(s, s.log[n].entries[0].ticket);
      WindowExactly(s, n);
    }
  }

  /**
    Serial isolation of the transactions of a system that started with the store `base`:

    - each record is that of one committed transaction, which read exactly what the records before it
      leave, and did what its program does when it runs alone against that (`SerialRecord`);
    - each committed transaction has its record, and no second one;
    - the log leaves what running these programs one at a time, in log order, leaves: no update is
      lost and no write skewed.
  */
  ghost predicate Serialized(base: Contents, s: System) {
    && AllHaveAuthors(s) && AllSerial(s)
    && (forall t: nat, n: nat :: HasRecord(s, t, n) <==> IsIn(s, t) && s.txs[t].phase == Committed(n))
    && RunSerially(base, JobsOf(s, |s.log|)) == StoreAt(base, s.log)
  }

  ghost predicate HasRecord(s: System, t: nat, n: nat) {
    1 <= n <= |s.log| && IsIn(s, t) && s.log[n - 1].entries == [EntryOf(t, s.txs[t])]
  }

  lemma {:induction false} SerializedIffAllSerial(s: System)
    requires InLine(s)
    ensures AllHaveAuthors(s) && (Serialized(s.base, s) <==> AllSerial(s))
  {
    forall t: nat, n: nat
      ensures HasRecord(s, t, n) <==> IsIn(s, t) && s.txs[t].phase == Committed(n)
    {
      if 1 <= n <= |s.log| {
        AuthorsWindow(s, n - 1);
      }
      if IsIn(s, t) {
        assert TxInLine(s, t, s.txs[t]);
      }
    }
    if AllSerial(s) {
      RecordsRunSerially(s, |s.log|);
      assert s.log[..|s.log|] == s.log;
    }
  }

  lemma {:induction false} PossibleIsUndisciplined(s: System, steps: seq<Step>)
    requires PossibleRun(s, steps)
    ensures DisciplinedRun(s, steps, Discipline(false, false, false))
    decreases |steps|
  {
    if steps != [] {
      PossibleIsUndisciplined(Next(s, steps[0]), steps[1..]);
    }
  }

  /**
    Every run, in no discipline at all, whatever is written to the objects: a record is serial exactly
    when it read what the records up to the last commit out of its sight leave, and isolation is serial
    exactly when all do. No commit after the begin tail is out of sight of a record, or those that are
    wrote nothing it read, exactly when its window is closed; then the begin tail will do.
  */
  lemma {:induction false} EveryRunExactly(objects: Objects, steps: seq<Step>)
    requires PossibleRun(Initial(objects), steps)
    ensures AllHaveAuthors(Run(Initial(objects), steps))
    ensures var s := Run(Initial(objects), steps);
            && (forall n :: 0 <= n < |s.log| ==>
                  && (SerialRecord(s, n) <==> ReadWhatIsAt(s, Author(s, n), InSightFrom(Author(s, n))))
                  && (WindowClosed(s, n) <==> ClearOf(s, Author(s, n), Author(s, n).unseen))
                  && (WindowClosed(s, n) ==> (SerialRecord(s, n) <==> ReadWhatIsAt(s, Author(s, n), Author(s, n).begin))))
            && (Serialized(ValuesOf(objects), s) <==>
                  forall n :: 0 <= n < |s.log| ==> ReadWhatIsAt(s, Author(s, n), InSightFrom(Author(s, n))))
  {
    PossibleIsUndisciplined(Initial(objects), steps);
    var s := RunComesTo(objects, steps, Discipline(false, false, false));
    forall n | 0 <= n < |s.log|
      ensures SerialRecord(s, n) <==> ReadWhatIsAt(s, Author(s, n), InSightFrom(Author(s, n)))
      ensures WindowClosed(s, n) <==> ClearOf(s, Author(s, n), Author(s, n).unseen)
      ensures WindowClosed(s, n) ==> (SerialRecord(s, n) <==> ReadWhatIsAt(s, Author(s, n), Author(s, n).begin))
    {
      RecordExactly(s, n);
    }
    SerializedIffAllSerial(s);
  }

  lemma {:induction false} RecordExactly(s: System, n: nat)
    requires InLine(s) && n < |s.log| && HasAuthor(s, n)
    ensures SerialRecord(s, n) <==> ReadWhatIsAt(s, Author(s, n), InSightFrom(Author(s, n)))
    ensures WindowClosed(s, n) <==> ClearOf(s, Author(s, n), Author(s, n).unseen)
    ensures WindowClosed(s, n) ==> (SerialRecord(s, n) <==> ReadWhatIsAt(s, Author(s, n), Author(s, n).begin))
  {
    UnwrittenInSight(s, n);
    SerialExactly(s, n, InSightFrom(Author(s, n)));
    WindowExactly(s, n);
    if WindowClosed(s, n) {
      SerialExactly(s, n, Author(s, n).begin);
    }
  }

  /**
    Every run that keeps the windows closed, whatever is written to the objects: nothing that a record
    read was written after its begin tail, and isolation is serial exactly when each record read what the
    records up to its begin tail leave.
  */
  lemma {:induction false} EveryWindowedRunExactly(objects: Objects, steps: seq<Step>)
    requires DisciplinedRun(Initial(objects), steps, Discipline(true, false, false))
    ensures PossibleRun(Initial(objects), steps) && AllHaveAuthors(Run(Initial(objects), steps))
    ensures var s := Run(Initial(objects), steps);
            && (forall n :: 0 <= n < |s.log| ==> WindowClosed(s, n))
            && (Serialized(ValuesOf(objects), s) <==>
                  forall n :: 0 <= n < |s.log| ==> ReadWhatIsAt(s, Author(s, n), Author(s, n).begin))
  {
    var s := RunComesTo(objects, steps, Discipline(true, false, false));
    forall n | 0 <= n < |s.log|
      ensures SerialRecord(s, n) <==> ReadWhatIsAt(s, Author(s, n), Author(s, n).begin)
    {
      SerialExactly(s, n, Author(s, n).begin);
    }
    SerializedIffAllSerial(s);
  }

  /**
    Every run with lawful writes: a record is serial exactly when what the records up to the last commit
    out of its sight had still to do to each key it read, when it was compared, leaves what was read; and
    if its window is closed, the begin tail will do.
  */
  lemma {:induction false} EveryLawfulRunExactly(objects: Objects, steps: seq<Step>)
    requires Tagged(objects) && DisciplinedRun(Initial(objects), steps, Discipline(false, true, false))
    ensures PossibleRun(Initial(objects), steps) && AllHaveAuthors(Run(Initial(objects), steps))
    ensures var s := Run(Initial(objects), steps);
            && (forall n :: 0 <= n < |s.log| ==>
                  && (SerialRecord(s, n) <==> AgreedWith(s, Author(s, n), InSightFrom(Author(s, n))))
                  && (WindowClosed(s, n) ==> (SerialRecord(s, n) <==> AgreedWith(s, Author(s, n), Author(s, n).begin))))
            && (Serialized(ValuesOf(objects), s) <==>
                  forall n :: 0 <= n < |s.log| ==> AgreedWith(s, Author(s, n), InSightFrom(Author(s, n))))
  {
    var d := Discipline(false, true, false);
    var s := RunComesTo(objects, steps, d);
    forall n | 0 <= n < |s.log|
      ensures SerialRecord(s, n) <==> AgreedWith(s, Author(s, n), InSightFrom(Author(s, n)))
      ensures WindowClosed(s, n) ==> (SerialRecord(s, n) <==> AgreedWith(s, Author(s, n), Author(s, n).begin))
    {
      UnwrittenInSight(s, n);
      LawfulSerialExactly(s, n, InSightFrom(Author(s, n)), d);
      if WindowClosed(s, n) {
        LawfulSerialExactly(s, n, Author(s, n).begin, d);
      }
    }
    SerializedIffAllSerial(s);
  }

  /** After every disciplined run of any number of transactions and managers, isolation is serial. */
  lemma {:induction false} EveryDisciplinedRunIsSerial(objects: Objects, steps: seq<Step>)
    requires Tagged(objects) && DisciplinedRun(Initial(objects), steps, FULL)
    ensures PossibleRun(Initial(objects), steps)
    ensures Serialized(ValuesOf(objects), Run(Initial(objects), steps))
  {
    var s := RunComesTo(objects, steps, FULL);
    forall n | 0 <= n < |s.log|
      ensures SerialRecord(s, n)
    {
      DisciplinedIsSerial(s, n);
    }
    SerializedIffAllSerial(s);
  }

  /** The store itself is what the serial run leaves, exactly when every object agrees with what has not reached it. */
  lemma {:induction false} StoreIsSerialExactly(s: System, d: Discipline)
    requires InLine(s) && ValuesInLine(s, d) && AllSerial(s)
    ensures ValuesOf(s.objects) == RunSerially(s.base, JobsOf(s, |s.log|)) <==> forall k :: UpToDate(s, |s.log|, k)
  {
    assert s.log[..|s.log|] == s.log;
    RecordsRunSerially(s, |s.log|);
    forall k
      ensures Lookup(ValuesOf(s.objects), k) == Lookup(StoreAt(s.base, s.log), k) <==> UpToDate(s, |s.log|, k)
    {
      assert s.log[|s.log|..] == [];
      assert WasFold(s.base, s.log, k, Lookup(ValuesOf(s.objects), k), PlaceOf(s.reached, k));
      ReadIsSerialExactly(s.base, s.log, |s.log|, {k}, k, Lookup(ValuesOf(s.objects), k), At(s, k));
    }
    if forall k :: UpToDate(s, |s.log|, k) {
      SameEverywhere(ValuesOf(s.objects), StoreAt(s.base, s.log));
    }
  }
}
