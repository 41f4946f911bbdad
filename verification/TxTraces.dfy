/**
  Runs that lose an update: where the discipline of `TxProtocol` is broken, the checks of the code do
  not notice. In each, two transactions append an "x" to the same object, both commit, and one "x" is
  left; and all steps but one are in full discipline.
*/
module TxTraces {
  import opened Wrappers
  import LogProtocol
  import opened TxRecords
  import opened TxPrograms
  import opened TxChecks
  import opened TxProtocol

  const K: Key := "k"

  /** Appends an "x" to the object. */
  function AppendX(answers: seq<Option<Data>>): Action {
    if |answers| == 0 then Get(K)
    else if |answers| == 1 then Write(Put(K, answers[0].GetOr("") + "x"))
    else Finish
  }

  /** There is a disciplined run from `s` to `t`. */
  ghost predicate Reaches(s: System, t: System) {
    exists steps: seq<Step> :: DisciplinedRun(s, steps, FULL) && PossibleRun(s, steps) && Run(s, steps) == t
  }

  lemma {:induction false} RunOneMore(s: System, steps: seq<Step>, step: Step)
    requires DisciplinedRun(s, steps, FULL) && PossibleRun(s, steps)
    requires Possible(Run(s, steps), step) && Disciplined(Run(s, steps), step, FULL)
    ensures DisciplinedRun(s, steps + [step], FULL) && PossibleRun(s, steps + [step])
    ensures Run(s, steps + [step]) == Next(Run(s, steps), step)
    decreases |steps|
  {
    if steps == [] {
      assert steps + [step] == [step] && [step][1..] == [];
    } else {
      RunOneMore(Next(s, steps[0]), steps[1..], step);
      assert (steps + [step])[1..] == steps[1..] + [step];
    }
  }

  lemma {:induction false} Reached(s: System, t: System, step: Step)
    requires Reaches(s, t) && Possible(t, step) && Disciplined(t, step, FULL)
    ensures Reaches(s, Next(t, step))
  {
    var steps :| DisciplinedRun(s, steps, FULL) && PossibleRun(s, steps) && Run(s, steps) == t;
    RunOneMore(s, steps, step);
  }

  /** A transaction that found no object, from its beginning to its record. */
  function Asking(manager: nat, begin: nat): Tx {
    Tx(manager, AppendX, begin, map[], Fresh(), 0, [], map[], Piece(0, 0), Open)
  }

  function Writing(manager: nat, begin: nat): Tx {
    Tx(manager, AppendX, begin, map[K := None], Local([None], {K}, map[], [], []), 1, [Sighting(K, None, 0)], map[], Piece(0, 0), Open)
  }

  /** Once compared, its key is noted with the place 0 of an object that nothing has reached. */
  function Staged(manager: nat, begin: nat, phase: Phase): Tx {
    Tx(manager, AppendX, begin, map[K := None],
       Local([None, None], {K}, map[K := Some("x")], [Put(K, "x")], []), 2, [Sighting(K, None, 0)],
       if phase.Open? || phase == Comparing({K}) then map[] else map[K := 0], Piece(0, 0), phase)
  }

  function With(s: System, t: nat, tx: Tx): System {
    s.(txs := s.txs[t := tx])
  }

  lemma {:induction false} Replaced(s: System, t: nat, tx: Tx, next: Tx)
    ensures With(With(s, t, tx), t, next) == With(s, t, next)
  {
    assert s.txs[t := tx][t := next] == s.txs[t := next];
  }

  /** Nothing has been stored or applied. */
  ghost predicate Untried(s: System) {
    s.objects == map[] && s.reached == map[]
  }

  lemma {:induction false} Asks(s: System, manager: nat, begin: nat)
    requires Untried(s)
    ensures ActionOf(Asking(manager, begin)) == Get(K) && Acted(s, Asking(manager, begin)) == Writing(manager, begin)
  {
  }

  lemma {:induction false} Writes(s: System, manager: nat, begin: nat)
    ensures ActionOf(Writing(manager, begin)) == Write(Put(K, "x"))
    ensures Acted(s, Writing(manager, begin)) == Staged(manager, begin, Open)
  {
    assert "" + "x" == "x";
  }

  /** The other transactions of the manager do not hold its commit lock. */
  ghost predicate OthersUnlocked(s: System, t: nat, manager: nat) {
    forall u :: IsIn(s, u) && u != t && s.txs[u].manager == manager ==> !Locked(s.txs[u].phase)
  }

  lemma {:induction false} Begins(from: System, s: System, t: nat, manager: nat)
    requires Reaches(from, s) && Untried(s) && s.floor == 0 && !IsIn(s, t)
    ensures Reaches(from, With(s, t, Asking(manager, |s.log|)))
  {
    Reached(from, s, Begin(t, manager, AppendX));
  }

  lemma {:induction false} ActsTwice(from: System, s: System, t: nat, manager: nat, begin: nat)
    requires Untried(s) && Reaches(from, With(s, t, Asking(manager, begin)))
    ensures Reaches(from, With(s, t, Staged(manager, begin, Open)))
  {
    Asks(With(s, t, Asking(manager, begin)), manager, begin);
    Reached(from, With(s, t, Asking(manager, begin)), Act(t));
    Replaced(s, t, Asking(manager, begin), Writing(manager, begin));
    Writes(With(s, t, Writing(manager, begin)), manager, begin);
    Reached(from, With(s, t, Writing(manager, begin)), Act(t));
    Replaced(s, t, Writing(manager, begin), Staged(manager, begin, Open));
  }

  lemma {:induction false} Leaves(from: System, s: System, t: nat, manager: nat, begin: nat)
    requires OthersUnlocked(s, t, manager) && Reaches(from, With(s, t, Staged(manager, begin, Open)))
    ensures Reaches(from, With(s, t, Staged(manager, begin, Comparing({K}))))
  {
    var open := With(s, t, Staged(manager, begin, Open));
    assert open.txs[t].readSet.Keys == {K};
    assert forall u :: IsIn(open, u) && u != t ==> IsIn(s, u);
    Reached(from, open, Commit(t));
    Replaced(s, t, Staged(manager, begin, Open), Staged(manager, begin, Comparing({K})));
  }

  /** A transaction is prepared up to the commit lock. */
  lemma {:induction false} Prepares(from: System, s: System, t: nat, manager: nat)
    requires Reaches(from, s) && Untried(s) && s.floor == 0 && !IsIn(s, t) && OthersUnlocked(s, t, manager)
    ensures Reaches(from, With(s, t, Staged(manager, |s.log|, Comparing({K}))))
  {
    Begins(from, s, t, manager);
    ActsTwice(from, s, t, manager, |s.log|);
    Leaves(from, s, t, manager, |s.log|);
  }

  /** The comparison, with the object still absent. */
  lemma {:induction false} Compares(s: System, t: nat, manager: nat, begin: nat)
    requires Untried(s)
    ensures var c := With(s, t, Staged(manager, begin, Comparing({K})));
            Possible(c, Compare(t, K)) && Next(c, Compare(t, K)) == With(s, t, Staged(manager, begin, Comparing({})))
  {
    var c := With(s, t, Staged(manager, begin, Comparing({K})));
    assert {K} - {K} == {};
    Replaced(s, t, Staged(manager, begin, Comparing({K})), Staged(manager, begin, Comparing({})));
  }

  lemma {:induction false} Scans(from: System, s: System, t: nat, manager: nat)
    requires Reaches(from, With(s, t, Staged(manager, |s.log|, Comparing({}))))
    ensures Reaches(from, With(s, t, Staged(manager, |s.log|, Appending(|s.log|))))
  {
    var b := |s.log|;
    Reached(from, With(s, t, Staged(manager, b, Comparing({}))), StartScan(t));
    Replaced(s, t, Staged(manager, b, Comparing({})), Staged(manager, b, Scanning(b)));
    Reached(from, With(s, t, Staged(manager, b, Scanning(b))), Scan(t));
    Replaced(s, t, Staged(manager, b, Scanning(b)), Staged(manager, b, Appending(b)));
  }

  /** With an empty log, one transaction gets as far as its append. */
  lemma {:induction false} Readies(from: System, s: System, t: nat, manager: nat)
    requires Reaches(from, s) && Untried(s) && s.floor == 0 && !IsIn(s, t) && OthersUnlocked(s, t, manager) && s.log == []
    ensures Reaches(from, With(s, t, Staged(manager, 0, Appending(0))))
  {
    Prepares(from, s, t, manager);
    Compares(s, t, manager, 0);
    assert OpsOfLog(s.log[..0]) == [];
    Reached(from, With(s, t, Staged(manager, 0, Comparing({K}))), Compare(t, K));
    Scans(from, s, t, manager);
  }

  /** The record of an append that found no object. */
  function OneX(number: nat, t: nat, manager: nat): LogProtocol.Commit<TxEvent> {
    LogProtocol.Commit(number, [LogProtocol.Entry(manager, t, Record(map[K := None], [Put(K, "x")], []))])
  }

  lemma {:induction false} WritesK(number: nat, t: nat, manager: nat)
    ensures K in WritesOf(OneX(number, t, manager)) && !Clear([OneX(number, t, manager)], {K})
    ensures OpsOfEntries(OneX(number, t, manager).entries) == [Put(K, "x")]
  {
    var one := OneX(number, t, manager);
    OpsOfOneEntry(one);
    assert OpsOf(one.entries[0].event)[0].key == K;
    assert K in WriteSet(one.entries[0].event);
    assert K in WritesOf([one][0]) * {K};
  }

  /** Alone on the log, a transaction lists the tail and commits. */
  lemma {:induction false} Lists(from: System, s: System, t: nat, manager: nat)
    requires Reaches(from, With(s, t, Staged(manager, 0, Appending(0)))) && s.log == [] && manager !in s.tails
    ensures Reaches(from, With(s, t, Staged(manager, 0, Appending(0))).(tails := s.tails[manager := 0]))
  {
    Reached(from, With(s, t, Staged(manager, 0, Appending(0))), List(t));
  }

  /** What winning the first number makes of a system with an empty log. */
  lemma {:induction false} WinsFirst(s: System, t: nat, manager: nat)
    requires s.log == []
    ensures var ready := With(s, t, Staged(manager, 0, Appending(0))).(tails := s.tails[manager := 0]);
            && Possible(ready, PutRecord(t)) && Disciplined(ready, PutRecord(t), FULL)
            && Next(ready, PutRecord(t))
               == With(s, t, Staged(manager, 0, Committed(1))).(log := [OneX(1, t, manager)], tails := s.tails[manager := 1])
  {
    Replaced(s, t, Staged(manager, 0, Appending(0)), Staged(manager, 0, Committed(1)));
    assert s.tails[manager := 0][manager := 1] == s.tails[manager := 1];
  }

  lemma {:induction false} CommitsFirst(from: System, s: System, t: nat, manager: nat)
    requires Reaches(from, With(s, t, Staged(manager, 0, Appending(0)))) && s.log == [] && manager !in s.tails
    ensures Reaches(from, With(s, t, Staged(manager, 0, Committed(1))).(log := [OneX(1, t, manager)], tails := s.tails[manager := 1]))
  {
    Lists(from, s, t, manager);
    WinsFirst(s, t, manager);
    Reached(from, With(s, t, Staged(manager, 0, Appending(0))).(tails := s.tails[manager := 0]), PutRecord(t));
  }

  /** Both appends are in the log, one "x" is left, and one after the other they leave two. */
  ghost predicate UpdateIsLost(s: System) {
    && IsIn(s, 1) && IsIn(s, 2) && s.txs[1].program == s.txs[2].program == AppendX
    && {s.txs[1].phase, s.txs[2].phase} == {Committed(1), Committed(2)} && |s.log| == 2
    && StoreAt(map[], s.log) == map[K := "x"]
    && RunSerially(map[], [Job(AppendX, 2), Job(AppendX, 2)]) == map[K := "xx"]
  }

  lemma {:induction false} OnePut(c: Contents, data: Data)
    ensures ApplyOps(c, [Put(K, data)]) == c[K := data]
  {
    assert [Put(K, data)][..0] == [];
  }

  lemma {:induction false} AppendsX(c: Contents, was: Data)
    requires Lookup(c, K).GetOr("") == was
    ensures RunJob(c, Job(AppendX, 2)) == c[K := was + "x"]
  {
    var value := Lookup(c, K);
    assert Serially(AppendX, c, 0) == Fresh();
    assert Serially(AppendX, c, 1) == Local([value], {K}, map[], [], []);
    assert AppendX([value]) == Write(Put(K, was + "x"));
    assert Serially(AppendX, c, 2).ops == [Put(K, was + "x")];
    OnePut(c, was + "x");
  }

  lemma {:induction false} TwoRecords(base: Contents, first: LogProtocol.Commit<TxEvent>,
      second: LogProtocol.Commit<TxEvent>)
    ensures StoreAt(base, [first, second]) == ApplyOps(ApplyOps(base, OpsOfEntries(first.entries)), OpsOfEntries(second.entries))
  {
    assert [first, second][..0] == [] && [first, second][..1] == [first];
    assert StoreAt(base, []) == base;
    assert [first, second][..2] == [first, second];
    StorePrefix(base, [first, second], 0);
    StorePrefix(base, [first, second], 1);
  }

  lemma {:induction false} TwoJobs(base: Contents, job: Job, other: Job)
    ensures RunSerially(base, [job, other]) == RunJob(RunJob(base, job), other)
  {
    assert [job, other][..1] == [job] && [job][..0] == [];
    assert RunSerially(base, []) == base;
  }

  lemma {:induction false} TwoAppendsLeaveOne(t: nat, manager: nat, u: nat, other: nat)
    ensures StoreAt(map[], [OneX(1, t, manager), OneX(2, u, other)]) == map[K := "x"]
  {
    WritesK(1, t, manager);
    WritesK(2, u, other);
    TwoRecords(map[], OneX(1, t, manager), OneX(2, u, other));
    OnePut(map[], "x");
    OnePut(map[K := "x"], "x");
  }

  lemma {:induction false} TwoAppendsInSeries()
    ensures RunSerially(map[], [Job(AppendX, 2), Job(AppendX, 2)]) == map[K := "xx"]
  {
    assert "" + "x" == "x" && "x" + "x" == "xx";
    AppendsX(map[], "");
    AppendsX(map[K := "x"], "x");
    TwoJobs(map[], Job(AppendX, 2), Job(AppendX, 2));
  }

  /** The second transaction wins its put: its committer believes that the tail is 1. */
  lemma {:induction false} CommitsSecond(s: System, t: nat, manager: nat, first: LogProtocol.Commit<TxEvent>,
      begin: nat, upTo: nat)
    requires s.log == [first] && manager in s.tails && s.tails[manager] == 1
    ensures var ready := With(s, t, Staged(manager, begin, Appending(upTo)));
            && Possible(ready, PutRecord(t))
            && Next(ready, PutRecord(t)).log == [first, OneX(2, t, manager)]
            && IsIn(Next(ready, PutRecord(t)), t)
            && Next(ready, PutRecord(t)).txs == s.txs[t := Next(ready, PutRecord(t)).txs[t]]
            && Next(ready, PutRecord(t)).txs[t].program == AppendX && Next(ready, PutRecord(t)).txs[t].phase == Committed(2)
  {
    var ready := With(s, t, Staged(manager, begin, Appending(upTo)));
    Replaced(s, t, Staged(manager, begin, Appending(upTo)), Next(ready, PutRecord(t)).txs[t]);
    assert [first] + [OneX(2, t, manager)] == [first, OneX(2, t, manager)];
  }

  /** What the second of the two puts comes to. */
  lemma {:induction false} LosesUpdate(s: System, t: nat, manager: nat, u: nat, other: nat, begin: nat, upTo: nat)
    requires {t, u} == {1, 2} && t != u && s.log == [OneX(1, u, other)]
    requires IsIn(s, u) && s.txs[u] == Staged(other, 0, Committed(1))
    requires manager in s.tails && s.tails[manager] == 1 && IsIn(s, t) && s.txs[t] == Staged(manager, begin, Appending(upTo))
    ensures Possible(s, PutRecord(t)) && UpdateIsLost(Next(s, PutRecord(t)))
  {
    assert With(s, t, Staged(manager, begin, Appending(upTo))) == s;
    CommitsSecond(s, t, manager, OneX(1, u, other), begin, upTo);
    TwoAppendsLeaveOne(u, other, t, manager);
    TwoAppendsInSeries();
    assert u in {1, 2} && t in {1, 2};
  }

  /** The scan of a cold manager has reached the end of the log, and then another record was won. */
  function ColdAndOvertaken(): System {
    System(map[], [OneX(1, 2, 2)], 0, map[], map[], map[2 := 1],
           map[1 := Staged(1, 0, Appending(0)), 2 := Staged(2, 0, Committed(1))])
  }

  lemma {:induction false} ColdAndOvertakenIsReached()
    ensures Reaches(Initial(map[]), ColdAndOvertaken())
  {
    var start := Initial(map[]);
    assert Run(start, []) == start && DisciplinedRun(start, [], FULL);
    Readies(start, start, 1, 1);
    var one := With(start, 1, Staged(1, 0, Appending(0)));
    Readies(start, one, 2, 2);
    CommitsFirst(start, one, 2, 2);
    assert ColdAndOvertaken() == With(one, 2, Staged(2, 0, Committed(1))).(log := [OneX(1, 2, 2)], tails := one.tails[2 := 1]);
  }

  /**
    A cold committer: transaction 1 scans the log up to its end; transaction 2, of another manager,
    commits; and only then the committer of transaction 1 lists its first tail. Its put is not even
    contested, and the update of transaction 2 is lost. Only the put breaks the discipline.
  */
  lemma {:induction false} ColdCommitterLosesAnUpdate() returns (s: System)
    ensures Reaches(Initial(map[]), s)
    ensures Possible(s, List(1)) && Disciplined(s, List(1), FULL)
    ensures var listed := Next(s, List(1));
            Possible(listed, PutRecord(1)) && !Windowed(listed, PutRecord(1)) && UpdateIsLost(Next(listed, PutRecord(1)))
  {
    ColdAndOvertakenIsReached();
    s := ColdAndOvertaken();
    WritesK(1, 2, 2);
    var listed := Next(s, List(1));
    assert listed.txs[1].readSet.Keys == {K} && WritesOf(listed.log[0]) * {K} != {};
    LosesUpdate(listed, 1, 1, 2, 2, 0, 0);
  }

  /** A record of this manager is committed, and has not reached the store. */
  function CommittedNotApplied(): System {
    System(map[], [OneX(1, 1, 1)], 0, map[], map[], map[1 := 1], map[1 := Staged(1, 0, Committed(1))])
  }

  lemma {:induction false} CommittedNotAppliedIsReached()
    ensures Reaches(Initial(map[]), CommittedNotApplied())
  {
    var start := Initial(map[]);
    assert Run(start, []) == start && DisciplinedRun(start, [], FULL);
    Readies(start, start, 1, 1);
    CommitsFirst(start, start, 1, 1);
    assert CommittedNotApplied() == With(start, 1, Staged(1, 0, Committed(1))).(log := [OneX(1, 1, 1)], tails := start.tails[1 := 1]);
  }

  /** The second transaction has read, and is about to be compared. */
  lemma {:induction false} SecondIsPrepared() returns (s: System)
    ensures s == With(CommittedNotApplied(), 2, Staged(1, 1, Comparing({K}))) && Reaches(Initial(map[]), s)
    ensures Possible(s, Compare(2, K)) && Windowed(s, Compare(2, K)) && !Harmless(s, Compare(2, K))
    ensures Next(s, Compare(2, K)) == With(CommittedNotApplied(), 2, Staged(1, 1, Comparing({})))
  {
    CommittedNotAppliedIsReached();
    Prepares(Initial(map[]), CommittedNotApplied(), 2, 1);
    s := With(CommittedNotApplied(), 2, Staged(1, 1, Comparing({K})));
    Compares(CommittedNotApplied(), 2, 1, 1);
    PendingX(s);
  }

  /** It is compared with success, and has its record. */
  lemma {:induction false} SecondGetsThrough(compared: System) returns (e: System)
    requires compared == With(CommittedNotApplied(), 2, Staged(1, 1, Comparing({})))
    ensures Reaches(compared, e)
    ensures Possible(e, PutRecord(2)) && Disciplined(e, PutRecord(2), FULL) && UpdateIsLost(Next(e, PutRecord(2)))
  {
    assert Run(compared, []) == compared && DisciplinedRun(compared, [], FULL);
    Scans(compared, CommittedNotApplied(), 2, 1);
    e := With(CommittedNotApplied(), 2, Staged(1, 1, Appending(1)));
    LosesUpdate(e, 2, 1, 1, 1, 1, 1);
  }

  /**
    A record that has not been applied: transaction 2, of the same manager, begins after transaction 1
    committed and before its record reached the store. It reads the store, compares with the store,
    finds nothing committed since it began, and the update of transaction 1 is lost. Only the comparison
    breaks the discipline.
  */
  lemma {:induction false} UnappliedRecordIsLost() returns (s: System, e: System)
    ensures Reaches(Initial(map[]), s)
    ensures Possible(s, Compare(2, K)) && Windowed(s, Compare(2, K)) && !Harmless(s, Compare(2, K))
    ensures Reaches(Next(s, Compare(2, K)), e)
    ensures Possible(e, PutRecord(2)) && Disciplined(e, PutRecord(2), FULL) && UpdateIsLost(Next(e, PutRecord(2)))
  {
    s := SecondIsPrepared();
    e := SecondGetsThrough(Next(s, Compare(2, K)));
  }

  lemma {:induction false} PendingX(s: System)
    requires s.log == [OneX(1, 1, 1)] && s.reached == map[] && s.objects == map[]
    ensures !UpToDate(s, 1, K)
  {
    WritesK(1, 1, 1);
    assert s.log[..1] == s.log && s.log[..0] == [];
    assert OpsOfLog(s.log) == [Put(K, "x")];
    assert [Put(K, "x")][0..] == [Put(K, "x")] && LastOn([Put(K, "x")], K) == Some(Some("x"));
  }

  /** Leaves a note and is done. */
  function LeaveNote(answers: seq<Option<Data>>): Action {
    if |answers| == 0 then Note("n") else Finish
  }

  function Noted(phase: Phase): Tx {
    Tx(1, LeaveNote, 1, map[], Local([None], {}, map[], [], ["n"]), 1, [], map[], Piece(0, 0), phase)
  }

  function NoteRecord(): LogProtocol.Commit<TxEvent> {
    LogProtocol.Commit(2, [LogProtocol.Entry(1, 3, Record(map[], [], ["n"]))])
  }

  /** Transaction 1 has read and not left its block; transaction 2, of another manager, has committed. */
  function OvertakenInBlock(): System {
    System(map[], [OneX(1, 2, 2)], 0, map[], map[], map[2 := 1],
           map[1 := Staged(1, 0, Open), 2 := Staged(2, 0, Committed(1))])
  }

  lemma {:induction false} OvertakenInBlockIsReached()
    ensures Reaches(Initial(map[]), OvertakenInBlock())
  {
    var start := Initial(map[]);
    assert Run(start, []) == start && DisciplinedRun(start, [], FULL);
    Begins(start, start, 1, 1);
    ActsTwice(start, start, 1, 1, 0);
    var one := With(start, 1, Staged(1, 0, Open));
    Readies(start, one, 2, 2);
    CommitsFirst(start, one, 2, 2);
    assert OvertakenInBlock() == With(one, 2, Staged(2, 0, Committed(1))).(log := [OneX(1, 2, 2)], tails := one.tails[2 := 1]);
  }

  lemma {:induction false} NoteIsLeft(from: System, s: System)
    requires Reaches(from, s) && s == OvertakenInBlock()
    ensures Reaches(from, With(s, 3, Noted(Open)))
  {
    var asking := Tx(1, LeaveNote, 1, map[], Fresh(), 0, [], map[], Piece(0, 0), Open);
    Reached(from, s, Begin(3, 1, LeaveNote));
    assert Acted(With(s, 3, asking), asking) == Noted(Open);
    Reached(from, With(s, 3, asking), Act(3));
    Replaced(s, 3, asking, Noted(Open));
  }

  lemma {:induction false} NoteIsTaken(from: System, s: System)
    requires Reaches(from, With(s, 3, Noted(Open))) && s == OvertakenInBlock()
    ensures Reaches(from, With(s, 3, Noted(Comparing({}))))
  {
    assert Noted(Open).readSet.Keys == {};
    Reached(from, With(s, 3, Noted(Open)), Commit(3));
    Replaced(s, 3, Noted(Open), Noted(Comparing({})));
  }

  lemma {:induction false} NoteIsScanned(from: System, s: System)
    requires Reaches(from, With(s, 3, Noted(Comparing({})))) && s == OvertakenInBlock()
    ensures Reaches(from, With(s, 3, Noted(Appending(1))))
  {
    Reached(from, With(s, 3, Noted(Comparing({}))), StartScan(3));
    Replaced(s, 3, Noted(Comparing({})), Noted(Scanning(1)));
    Reached(from, With(s, 3, Noted(Scanning(1))), Scan(3));
    Replaced(s, 3, Noted(Scanning(1)), Noted(Appending(1)));
  }

  /** The note is committed, and the first record pruned. */
  function PrunedInBlock(): System {
    System(map[], [OneX(1, 2, 2), NoteRecord()], 1, map[], map[], map[2 := 1, 1 := 2],
           map[1 := Staged(1, 0, Open), 2 := Staged(2, 0, Committed(1)), 3 := Noted(Committed(2))])
  }

  lemma {:induction false} NoteIsListed(from: System, s: System)
    requires Reaches(from, With(s, 3, Noted(Appending(1)))) && s == OvertakenInBlock()
    ensures Reaches(from, With(s, 3, Noted(Appending(1))).(tails := map[2 := 1, 1 := 1]))
  {
    Reached(from, With(s, 3, Noted(Appending(1))), List(3));
  }

  lemma {:induction false} NoteIsWon(s: System)
    requires s == OvertakenInBlock()
    ensures var listed := With(s, 3, Noted(Appending(1))).(tails := map[2 := 1, 1 := 1]);
            && Possible(listed, PutRecord(3)) && Disciplined(listed, PutRecord(3), FULL)
            && Next(listed, PutRecord(3)) == PrunedInBlock().(floor := 0)
  {
    var listed := With(s, 3, Noted(Appending(1))).(tails := map[2 := 1, 1 := 1]);
    Replaced(s, 3, Noted(Appending(1)), Noted(Committed(2)));
    assert [OneX(1, 2, 2)] + [NoteRecord()] == [OneX(1, 2, 2), NoteRecord()];
    assert listed.tails[1 := 2] == map[2 := 1, 1 := 2];
  }

  lemma {:induction false} NoteIsCommitted(from: System, s: System)
    requires Reaches(from, With(s, 3, Noted(Appending(1))).(tails := map[2 := 1, 1 := 1])) && s == OvertakenInBlock()
    ensures Reaches(from, PrunedInBlock().(floor := 0))
  {
    NoteIsWon(s);
    Reached(from, With(s, 3, Noted(Appending(1))).(tails := map[2 := 1, 1 := 1]), PutRecord(3));
  }

  lemma {:induction false} RecordIsPruned(from: System)
    requires Reaches(from, PrunedInBlock().(floor := 0))
    ensures Reaches(from, PrunedInBlock())
  {
    Reached(from, PrunedInBlock().(floor := 0), Prune(1));
  }

  lemma {:induction false} PrunedInBlockIsReached()
    ensures Reaches(Initial(map[]), PrunedInBlock())
  {
    OvertakenInBlockIsReached();
    var start, s := Initial(map[]), OvertakenInBlock();
    NoteIsLeft(start, s);
    NoteIsTaken(start, s);
    NoteIsScanned(start, s);
    NoteIsListed(start, s);
    NoteIsCommitted(start, s);
    RecordIsPruned(start);
  }

  lemma {:induction false} PrunedIsCompared(from: System)
    requires Reaches(from, PrunedInBlock())
    ensures Reaches(from, With(PrunedInBlock(), 1, Staged(1, 0, Comparing({}))))
  {
    var s := PrunedInBlock();
    assert With(s, 1, Staged(1, 0, Open)) == s;
    Leaves(from, s, 1, 1, 0);
    Compares(s, 1, 1, 0);
    assert OpsOfLog(s.log[..0]) == [];
    Reached(from, With(s, 1, Staged(1, 0, Comparing({K}))), Compare(1, K));
  }

  /** The scan finds nothing: the record it should find is gone. */
  lemma {:induction false} PrunedIsScanned(from: System)
    requires Reaches(from, With(PrunedInBlock(), 1, Staged(1, 0, Comparing({}))))
    ensures Reaches(from, With(PrunedInBlock(), 1, Staged(1, 0, Appending(0))))
  {
    var s := PrunedInBlock();
    Reached(from, With(s, 1, Staged(1, 0, Comparing({}))), StartScan(1));
    Replaced(s, 1, Staged(1, 0, Comparing({})), Staged(1, 0, Scanning(0)));
    Reached(from, With(s, 1, Staged(1, 0, Scanning(0))), Scan(1));
    Replaced(s, 1, Staged(1, 0, Scanning(0)), Staged(1, 0, Appending(0)));
  }

  lemma {:induction false} ThreeRecords()
    ensures StoreAt(map[], [OneX(1, 2, 2), NoteRecord(), OneX(3, 1, 1)]) == map[K := "x"]
  {
    var log := [OneX(1, 2, 2), NoteRecord(), OneX(3, 1, 1)];
    WritesK(1, 2, 2);
    WritesK(3, 1, 1);
    OpsOfOneEntry(NoteRecord());
    TwoRecords(map[], log[0], log[1]);
    assert log[..2] == [log[0], log[1]] && log[..3] == log;
    StorePrefix(map[], log, 2);
    OnePut(map[], "x");
    OnePut(map[K := "x"], "x");
  }

  lemma {:induction false} NotesChangeNothing(c: Contents)
    ensures RunJob(c, Job(LeaveNote, 1)) == c
  {
    assert Serially(LeaveNote, c, 0) == Fresh();
    assert Serially(LeaveNote, c, 1).ops == [];
  }

  lemma {:induction false} ThreeJobsRun(base: Contents, a: Job, b: Job, c: Job)
    ensures RunSerially(base, [a, b, c]) == RunJob(RunJob(RunJob(base, a), b), c)
  {
    TwoJobs(base, a, b);
    OneMoreJob(base, [a, b], c);
    assert [a, b] + [c] == [a, b, c];
  }

  lemma {:induction false} ThreeJobs()
    ensures RunSerially(map[], [Job(AppendX, 2), Job(LeaveNote, 1), Job(AppendX, 2)]) == map[K := "xx"]
  {
    ThreeJobsRun(map[], Job(AppendX, 2), Job(LeaveNote, 1), Job(AppendX, 2));
    TwoAppendsInSeries();
    TwoJobs(map[], Job(AppendX, 2), Job(AppendX, 2));
    AppendsX(map[], "");
    assert "" + "x" == "x";
    NotesChangeNothing(map[K := "x"]);
  }

  lemma {:induction false} UnscannedIsPut(s: System)
    requires s == With(PrunedInBlock(), 1, Staged(1, 0, Appending(0)))
    ensures Possible(s, PutRecord(1)) && IsIn(Next(s, PutRecord(1)), 1)
    ensures Next(s, PutRecord(1)).txs[1].phase == Committed(3) && Next(s, PutRecord(1)).txs[1].program == AppendX
    ensures Next(s, PutRecord(1)).log == [OneX(1, 2, 2), NoteRecord(), OneX(3, 1, 1)]
  {
    assert [OneX(1, 2, 2), NoteRecord()] + [OneX(3, 1, 1)] == [OneX(1, 2, 2), NoteRecord(), OneX(3, 1, 1)];
  }

  lemma {:induction false} UnscannedIsNotWindowed(s: System)
    requires s == With(PrunedInBlock(), 1, Staged(1, 0, Appending(0)))
    ensures Possible(s, PutRecord(1)) && !Windowed(s, PutRecord(1))
  {
    WritesK(1, 2, 2);
    assert s.txs[1].readSet.Keys == {K} && s.log[0] == OneX(1, 2, 2);
    assert K in WritesOf(s.log[0]) * s.txs[1].readSet.Keys;
  }

  /**
    A pruned record: transaction 1 has read; transaction 2, of another manager, commits; the manager of
    transaction 1 commits a note, so that its committer knows the tail; the record of transaction 2 is
    pruned before it was applied; and the scan of transaction 1 misses it. Only the put breaks the
    discipline, and the update of transaction 2 is lost.
  */
  lemma {:induction false} PrunedRecordIsLost() returns (s: System)
    ensures Reaches(Initial(map[]), s)
    ensures Possible(s, PutRecord(1)) && !Windowed(s, PutRecord(1))
    ensures var e := Next(s, PutRecord(1));
            && IsIn(e, 1) && e.txs[1].phase == Committed(3) && e.txs[1].program == AppendX
            && StoreAt(map[], e.log) == map[K := "x"]
            && RunSerially(map[], [Job(AppendX, 2), Job(LeaveNote, 1), Job(AppendX, 2)]) == map[K := "xx"]
  {
    PrunedInBlockIsReached();
    PrunedIsCompared(Initial(map[]));
    PrunedIsScanned(Initial(map[]));
    s := With(PrunedInBlock(), 1, Staged(1, 0, Appending(0)));
    UnscannedIsPut(s);
    UnscannedIsNotWindowed(s);
    ThreeRecords();
    ThreeJobs();
  }
}
