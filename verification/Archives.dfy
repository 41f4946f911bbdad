/**
  The bucket as its readers and its janitor see it: commits, snapshots, and what gets deleted.

  `history` is the dense, append-only log (module LogProtocol proves that it is); `floor` is the
  prune point: commits up to it may be gone, commits above it are there; `newest` is the highest
  number a snapshot was ever published under.
*/
module Archives {
  import opened Wrappers
  import opened LogProtocol
  import opened Folding

  datatype Shelf<D, E> = Shelf(
    history: seq<Commit<E>>,
    floor: nat,
    live: set<nat>,
    snapshots: map<nat, Database<D>>,
    newest: nat)

  datatype Move<E> =
    | Append(commit: Commit<E>)
    | Prune(to: nat)
    | EraseCommit(number: nat)
    | Publish(number: nat)
    | Drop(number: nat)

  /** Moves that can happen at all: the log is dense, and a snapshot is a replay from 0. */
  predicate Possible<D, E>(h: Handlers<D, E>, s: Shelf<D, E>, move: Move<E>) {
    match move
    case Append(commit) => commit.number == |s.history| + 1 && commit.entries != []
    case Prune(to) => s.floor <= to <= |s.history|
    case EraseCommit(number) => number <= s.floor
    case Publish(number) => 1 <= number <= |s.history| && number !in s.snapshots && FoldTo(h, s.history, number).Some?
    case Drop(number) => number in s.snapshots
  }

  function Made<D, E>(h: Handlers<D, E>, s: Shelf<D, E>, move: Move<E>): Shelf<D, E>
    requires Possible(h, s, move)
  {
    match move
    case Append(commit) => s.(history := s.history + [commit], live := s.live + {commit.number})
    case Prune(to) => s.(floor := to)
    case EraseCommit(number) => s.(live := s.live - {number})
    case Publish(number) =>
      s.(snapshots := s.snapshots[number := FoldTo(h, s.history, number).value], newest := if s.newest < number then number else s.newest)
    case Drop(number) => s.(snapshots := s.snapshots - {number})
  }

  /**
    The discipline that retention rests on: prune no further than the oldest snapshot, never drop
    the newest one, and publish no snapshot below the prune point.
  */
  predicate Orderly<D, E>(s: Shelf<D, E>, move: Move<E>) {
    match move
    case Append(_) => true
    case Prune(to) => to == s.floor || (s.newest in s.snapshots && NoneBelow(s.snapshots, to))
    case EraseCommit(_) => true
    case Publish(number) => s.floor <= number
    case Drop(number) => number != s.newest
  }

  ghost predicate Sound<D, E>(h: Handlers<D, E>, s: Shelf<D, E>) {
    && Numbered(s.history) && s.floor <= |s.history| && s.newest <= |s.history|
    && (forall n :: n in s.live ==> 1 <= n <= |s.history|)
    && (forall n :: s.floor < n <= |s.history| ==> n in s.live)
    && (forall n :: n in s.snapshots ==> 1 <= n <= s.newest && FoldTo(h, s.history, n) == Some(s.snapshots[n]))
  }

  /** Every snapshot can be replayed from, the newest one stays, and without one nothing was pruned. */
  predicate Retained<D, E>(s: Shelf<D, E>) {
    && NoneBelow(s.snapshots, s.floor)
    && (if s.newest == 0 then s.floor == 0 else s.newest in s.snapshots)
  }

  lemma {:induction false} AppendKeepsSound<D, E>(h: Handlers<D, E>, s: Shelf<D, E>, commit: Commit<E>)
    requires Sound(h, s) && Possible(h, s, Append(commit))
    ensures Sound(h, Made(h, s, Append(commit)))
  {
    var t := Made(h, s, Append(commit));
    forall n | n in t.snapshots
      ensures FoldTo(h, t.history, n) == Some(t.snapshots[n])
    {
      assert t.history[..n] == s.history[..n];
    }
  }

  lemma {:induction false} MoveKeepsSound<D, E>(h: Handlers<D, E>, s: Shelf<D, E>, move: Move<E>)
    requires Sound(h, s) && Possible(h, s, move)
    ensures Sound(h, Made(h, s, move))
  {
    if move.Append? {
      AppendKeepsSound(h, s, move.commit);
    }
  }

  /** The discipline is exact: a move keeps retention if and only if it is orderly. */
  lemma {:induction false} RetainedExactly<D, E>(h: Handlers<D, E>, s: Shelf<D, E>, move: Move<E>)
    requires Sound(h, s) && Retained(s) && Possible(h, s, move)
    ensures Retained(Made(h, s, move)) <==> Orderly(s, move)
  {
    var t := Made(h, s, move);
    if move.Publish? {
      assert move.number in t.snapshots;
    }
  }

  /** What no move undoes: commits are only appended, and what was deleted stays deleted. */
  ghost predicate Onwards<D, E>(s: Shelf<D, E>, t: Shelf<D, E>) {
    && s.history <= t.history && s.floor <= t.floor && s.newest <= t.newest
    && forall n :: n in t.live && n <= |s.history| ==> n in s.live
  }

  lemma {:induction false} MoveIsOnwards<D, E>(h: Handlers<D, E>, s: Shelf<D, E>, move: Move<E>)
    requires Sound(h, s) && Possible(h, s, move)
    ensures Onwards(s, Made(h, s, move))
  {
  }

  /** A run in which every move is possible; `orderly` says that every move was orderly as well. */
  ghost predicate PossibleRun<D, E>(h: Handlers<D, E>, s: Shelf<D, E>, moves: seq<Move<E>>, orderly: bool)
    decreases |moves|
  {
    moves == [] ||
    (Possible(h, s, moves[0]) && (orderly ==> Orderly(s, moves[0])) && PossibleRun(h, Made(h, s, moves[0]), moves[1..], orderly))
  }

  ghost function RunOf<D, E>(h: Handlers<D, E>, s: Shelf<D, E>, moves: seq<Move<E>>): Shelf<D, E>
    requires PossibleRun(h, s, moves, false)
    decreases |moves|
  {
    if moves == [] then s else RunOf(h, Made(h, s, moves[0]), moves[1..])
  }

  lemma {:induction false} OrderlyRunIsPossible<D, E>(h: Handlers<D, E>, s: Shelf<D, E>, moves: seq<Move<E>>)
    requires PossibleRun(h, s, moves, true)
    ensures PossibleRun(h, s, moves, false)
    decreases |moves|
  {
    if moves != [] {
      OrderlyRunIsPossible(h, Made(h, s, moves[0]), moves[1..]);
    }
  }

  /** Any number of janitors, builders and writers, taking orderly moves, keep history usable. */
  lemma {:induction false} EveryOrderlyRunRetains<D, E>(h: Handlers<D, E>, s: Shelf<D, E>, moves: seq<Move<E>>)
    requires Sound(h, s) && Retained(s) && PossibleRun(h, s, moves, true)
    ensures PossibleRun(h, s, moves, false)
    ensures Sound(h, RunOf(h, s, moves)) && Retained(RunOf(h, s, moves))
    decreases |moves|
  {
    OrderlyRunIsPossible(h, s, moves);
    if moves != [] {
      MoveKeepsSound(h, s, moves[0]);
      RetainedExactly(h, s, moves[0]);
      EveryOrderlyRunRetains(h, Made(h, s, moves[0]), moves[1..]);
    }
  }

  /**
    What retention is for: from every snapshot the commits up to any later one are still there, and
    replaying them gives what the whole, unpruned log gives.
  */
  lemma {:induction false} RetainedHistoryIsUsable<D, E>(h: Handlers<D, E>, s: Shelf<D, E>, n: nat, c: nat)
    requires Sound(h, s) && Retained(s) && n in s.snapshots && n <= c <= |s.history|
    ensures forall m :: n < m <= c ==> m in s.live
    ensures FoldFrom(h, s.snapshots[n], s.history[n..c]) == FoldTo(h, s.history, c)
  {
    GoingOnIsFold(h, s.history, n, c);
  }

  /** The archive view of a log state. */
  ghost function ViewOf<D, E>(s: State<E>, snapshots: map<nat, Database<D>>, newest: nat): Shelf<D, E> {
    Shelf(s.history, s.floor, s.live.Keys, snapshots, newest)
  }

  /** Every step of the commit protocol is, to the readers, nothing or one possible move. */
  lemma {:induction false} LogStepIsMove<D, E>(h: Handlers<D, E>, s: State<E>, snapshots: map<nat, Database<D>>,
      newest: nat, step: Step<E>)
    requires Dense(s) && Legal(s, step)
    ensures var view, after := ViewOf(s, snapshots, newest), ViewOf(Apply(s, step), snapshots, newest);
      match step
      case Win(_, commit) => Possible(h, view, Append(commit)) && after == Made(h, view, Append(commit))
      case RaiseFloor(to) => Possible(h, view, Prune(to)) && after == Made(h, view, Prune(to))
      case Erase(n) => Possible(h, view, EraseCommit(n)) && after == Made(h, view, EraseCommit(n))
      case _ => after == view
  {
  }

  /** What readers see of a step of the commit protocol. */
  function MoveOf<E>(step: Step<E>): seq<Move<E>> {
    match step
    case Win(_, commit) => [Append(commit)]
    case RaiseFloor(to) => [Prune(to)]
    case Erase(n) => [EraseCommit(n)]
    case _ => []
  }

  function MovesOf<E>(steps: seq<Step<E>>): seq<Move<E>> {
    if steps == [] then [] else MoveOf(steps[0]) + MovesOf(steps[1..])
  }

  lemma {:induction false} OneMoveFirst<D, E>(h: Handlers<D, E>, s: Shelf<D, E>, move: Move<E>, rest: seq<Move<E>>)
    requires Possible(h, s, move) && PossibleRun(h, Made(h, s, move), rest, false)
    ensures PossibleRun(h, s, [move] + rest, false)
    ensures RunOf(h, s, [move] + rest) == RunOf(h, Made(h, s, move), rest)
  {
    assert ([move] + rest)[1..] == rest;
  }

  /** Every run of the commit protocol is a possible run of the archive: both tell of the same log. */
  lemma {:induction false} LogRunIsRun<D, E>(h: Handlers<D, E>, s: State<E>, snapshots: map<nat, Database<D>>,
      newest: nat, steps: seq<Step<E>>)
    requires Dense(s) && LegalRun(s, steps)
    ensures PossibleRun(h, ViewOf(s, snapshots, newest), MovesOf(steps), false)
    ensures RunOf(h, ViewOf(s, snapshots, newest), MovesOf(steps)) == ViewOf(Run(s, steps), snapshots, newest)
    decreases |steps|
  {
    if steps != [] {
      var rest := MovesOf(steps[1..]);
      StepKeepsDense(s, steps[0]);
      LogRunIsRun(h, Apply(s, steps[0]), snapshots, newest, steps[1..]);
      LogStepIsMove(h, s, snapshots, newest, steps[0]);
      if MoveOf(steps[0]) == [] {
        assert MovesOf(steps) == rest;
      } else {
        OneMoveFirst(h, ViewOf(s, snapshots, newest), MoveOf(steps[0])[0], rest);
      }
    }
  }

  /** No snapshot below `watch` is new. */
  ghost predicate NoneAppears<D>(before: map<nat, Database<D>>, now: map<nat, Database<D>>, watch: nat) {
    forall n :: n in now && n < watch ==> n in before
  }

  /** All that a move leads to. */
  lemma {:induction false} MoveLeads<D, E>(h: Handlers<D, E>, s: Shelf<D, E>, move: Move<E>, orderly: bool, watch: nat)
    requires Sound(h, s) && Possible(h, s, move) && (orderly ==> Retained(s))
    ensures Sound(h, Made(h, s, move)) && Onwards(s, Made(h, s, move))
    ensures orderly && Orderly(s, move) ==> Retained(Made(h, s, move))
    ensures !(move.Publish? && move.number < watch) ==> NoneAppears(s.snapshots, Made(h, s, move).snapshots, watch)
  {
    MoveKeepsSound(h, s, move);
    MoveIsOnwards(h, s, move);
    if orderly {
      RetainedExactly(h, s, move);
    }
  }

  class Archive<D, E> {
    const handlers: Handlers<D, E>
    var s: Shelf<D, E>

    /** How many commits may still be appended by others: any number, but finite. */
    var budget: nat

    /** Every move so far was orderly. */
    ghost var orderly: bool

    /** How many moves other clients have made, and whether one of those was not orderly. */
    ghost var others: nat
    ghost var disturbed: bool

    /** A janitor watches a number; `undercut` says that a snapshot below it was published since. */
    ghost var watch: nat
    ghost var undercut: bool

    ghost predicate Valid()
      reads this
    {
      Sound(handlers, s) && (orderly ==> Retained(s))
    }

    ghost function Horizon(): nat
      reads this
    {
      |s.history| + budget
    }

    /** What a client may rely on between two of its own calls. */
    twostate predicate Later()
      reads this
    {
      && Onwards(old(s), s) && (orderly ==> old(orderly))
      && old(others) <= others && (old(disturbed) ==> disturbed)
      && Horizon() <= old(Horizon())
    }

    /** The same number is watched, and below it no snapshot appeared unless it is undercut. */
    twostate predicate Watched()
      reads this
    {
      && watch == old(watch) && (old(undercut) ==> undercut) && (Alone() ==> undercut == old(undercut))
      && (!undercut ==> NoneAppears(old(s).snapshots, s.snapshots, watch))
    }

    /** Nobody else did anything. */
    twostate predicate Alone()
      reads this
    {
      others == old(others)
    }

    constructor (handlers: Handlers<D, E>, budget: nat)
      ensures Valid() && this.handlers == handlers && this.budget == budget
      ensures s == Shelf([], 0, {}, map[], 0) && orderly && others == 0 && !disturbed && watch == 0 && !undercut
    {
      this.handlers := handlers;
      this.s := Shelf([], 0, {}, map[], 0);
      this.budget := budget;
      this.orderly := true;
      this.others := 0;
      this.disturbed := false;
      this.watch := 0;
      this.undercut := false;
    }

    ghost method Watch(number: nat)
      modifies this`watch, this`undercut
      ensures watch == number && !undercut
    {
      watch, undercut := number, false;
    }

    method Take(move: Move<E>)
      requires Valid() && Possible(handlers, s, move)
      modifies this`s, this`orderly, this`undercut
      ensures Valid() && s == Made(handlers, old(s), move)
      ensures orderly == (old(orderly) && Orderly(old(s), move))
      ensures undercut == (old(undercut) || (move.Publish? && move.number < watch))
      ensures Onwards(old(s), s) && (!undercut ==> NoneAppears(old(s).snapshots, s.snapshots, watch))
    {
      MoveLeads(handlers, s, move, orderly, watch);
      orderly := orderly && Orderly(s, move);
      undercut := undercut || (move.Publish? && move.number < watch);
      s := Made(handlers, s, move);
    }

    /** One move of another client. */
    method Intrude(move: Move<E>)
      requires Valid() && Possible(handlers, s, move) && (move.Append? ==> budget > 0)
      modifies this
      ensures Valid() && Later() && Watched() && others == old(others) + 1
      ensures old(orderly) && !disturbed ==> orderly
    {
      ghost var fine := Orderly(s, move);
      Take(move);
      CountOther(move, fine);
    }

    /** The move was that of another client. */
    method CountOther(move: Move<E>, ghost fine: bool)
      requires move.Append? ==> budget > 0
      modifies this`others, this`disturbed, this`budget
      ensures others == old(others) + 1 && disturbed == (old(disturbed) || !fine)
      ensures budget == old(budget) - if move.Append? then 1 else 0
    {
      disturbed := disturbed || !fine;
      others := others + 1;
      budget := if move.Append? then budget - 1 else budget;
    }

    /** Writers, builders and other janitors take any moves between two calls of this client. */
    method Interfere()
      requires Valid()
      modifies this
      ensures Valid() && Later() && Watched()
      ensures Alone() ==> s == old(s) && orderly == old(orderly)
      ensures old(orderly) && !disturbed ==> orderly
    {
      var moves: seq<Move<E>> := *;
      for i := 0 to |moves|
        invariant Valid() && Later() && Watched()
        invariant Alone() ==> s == old(s) && orderly == old(orderly)
        invariant old(orderly) && !disturbed ==> orderly
      {
        if Possible(handlers, s, moves[i]) && (moves[i].Append? ==> budget > 0) {
          Intrude(moves[i]);
        }
      }
    }

    method GetCommit(number: nat) returns (found: Option<Commit<E>>)
      requires Valid()
      modifies this
      ensures Valid() && Later() && Watched()
      ensures Alone() ==> s == old(s) && orderly == old(orderly)
      ensures old(orderly) && !disturbed ==> orderly
      ensures if number in s.live then found == Some(s.history[number - 1]) else found == None
    {
      Interfere();
      found := if number in s.live then Some(s.history[number - 1]) else None;
    }

    method ListSnapshots() returns (listed: seq<nat>)
      requires Valid()
      modifies this
      ensures Valid() && Later() && Watched()
      ensures Alone() ==> s == old(s) && orderly == old(orderly)
      ensures old(orderly) && !disturbed ==> orderly
      ensures Ascending(listed)
      ensures forall n :: n in listed <==> n in s.snapshots
    {
      Interfere();
      listed := Sorted(s.snapshots.Keys);
    }

    /** The highest snapshot number, if there is a snapshot. */
    method FindLatestSnapshot() returns (latest: Option<nat>)
      requires Valid()
      modifies this
      ensures Valid() && Later() && Watched()
      ensures Alone() ==> s == old(s)
      ensures latest.None? <==> s.snapshots == map[]
      ensures latest.Some? ==> latest.value in s.snapshots && forall n :: n in s.snapshots ==> n <= latest.value
    {
      var listed := ListSnapshots();
      if listed == [] {
        assert forall n :: n in s.snapshots ==> n in listed;
        return None;
      }
      latest := Some(listed[|listed| - 1]);
      assert latest.value in listed;
    }

    /** A snapshot that has been deleted since it was listed is an error. */
    method GetSnapshot(number: nat) returns (found: Option<Database<D>>)
      requires Valid()
      modifies this
      ensures Valid() && Later() && Watched()
      ensures Alone() ==> s == old(s) && orderly == old(orderly)
      ensures old(orderly) && !disturbed ==> orderly
      ensures found.Some? <==> number in s.snapshots
      ensures found.Some? ==>
        found.value == s.snapshots[number] && 1 <= number <= |s.history| && FoldTo(handlers, s.history, number) == found
    {
      Interfere();
      found := if number in s.snapshots then Some(s.snapshots[number]) else None;
    }

    /** put_snapshot: put-if-absent. Losing the race is no harm, replay being deterministic. */
    method PutSnapshot(number: nat, db: Database<D>) returns (created: bool)
      requires Valid() && 1 <= number <= |s.history| && FoldTo(handlers, s.history, number) == Some(db)
      modifies this
      ensures Valid() && Later()
      ensures number in s.snapshots && s.snapshots[number] == db
      ensures old(orderly) && !disturbed && s.floor <= number ==> orderly
      ensures Alone() ==>
        && created == (number !in old(s).snapshots)
        && s == old(s).(snapshots := old(s).snapshots[number := db], newest := s.newest)
    {
      ghost var h := s.history;
      Interfere();
      assert s.history[..number] == h[..number];
      created := number !in s.snapshots;
      if created {
        Take(Publish(number));
      }
    }

    method DeleteSnapshot(number: nat)
      requires Valid()
      modifies this
      ensures Valid() && Later() && Watched() && number !in s.snapshots
      ensures old(orderly) && !disturbed && number < old(s).newest ==> orderly
      ensures Alone() ==> s == old(s).(snapshots := old(s).snapshots - {number})
    {
      Interfere();
      assert number !in s.snapshots ==> s.snapshots - {number} == s.snapshots;
      if number in s.snapshots {
        Take(Drop(number));
      }
    }

    /** Deletes one of the listed snapshots; `start` and `others0` are the shelf and the count of moves at the first. */
    method DeleteNext(listed: seq<nat>, k: nat, number: nat, ghost start: Shelf<D, E>, ghost others0: nat)
        returns (next: nat)
      requires Valid() && Ascending(listed) && k < |listed| && listed[k] < number && others0 <= others
      requires number <= watch && !undercut ==> AllNamed(s.snapshots.Keys, number, listed, k)
      requires others == others0 ==> s == Dropped(start, listed, k)
      modifies this
      ensures Valid() && Later() && Watched() && next == k + 1
      ensures old(orderly) && !disturbed && listed[k] < old(s).newest ==> orderly
      ensures number <= watch && !undercut ==> AllNamed(s.snapshots.Keys, number, listed, next)
      ensures others == others0 ==> s == Dropped(start, listed, next)
    {
      DeleteSnapshot(listed[k]);
      next := k + 1;
      if number <= watch && !undercut {
        OneNameLess(old(s).snapshots, s.snapshots, number, listed, k);
      }
      OneDropMore(start, old(s), s, listed, k);
    }

    /** Deletes the listed snapshots below `number`, one object after the other. */
    method DeleteListed(listed: seq<nat>, number: nat) returns (deleted: nat)
      requires Valid() && Ascending(listed) && AllNamed(s.snapshots.Keys, number, listed, 0)
      modifies this
      ensures Valid() && Later() && Watched()
      ensures number <= old(s).newest && old(orderly) && !disturbed ==> orderly
      ensures number <= watch && !undercut ==> NoneBelow(s.snapshots, number)
      ensures deleted <= |listed| && forall j :: 0 <= j < |listed| ==> (listed[j] < number <==> j < deleted)
      ensures Alone() ==> s == Dropped(old(s), listed, deleted)
    {
      deleted := 0;
      ghost var start, others0 := s, others;
      while deleted < |listed| && listed[deleted] < number
        invariant deleted <= |listed| && Valid() && Later() && Watched()
        invariant forall j :: 0 <= j < deleted ==> listed[j] < number
        invariant number <= watch && !undercut ==> AllNamed(s.snapshots.Keys, number, listed, deleted)
        invariant number <= old(s).newest && old(orderly) && !disturbed ==> orderly
        invariant others == others0 ==> s == Dropped(start, listed, deleted)
      {
        deleted := DeleteNext(listed, deleted, number, start, others0);
      }
      CutIsExact(listed, deleted, number);
      if number <= watch && !undercut {
        NoNameLeft(s.snapshots, number, listed, deleted);
      }
    }

    /** delete_snapshots_before: lists, then deletes. */
    method DeleteSnapshotsBefore(number: nat) returns (deleted: nat)
      requires Valid()
      modifies this
      ensures Valid() && Later() && Watched()
      ensures number <= old(s).newest && old(orderly) && !disturbed ==> orderly
      ensures number <= watch && !undercut ==> NoneBelow(s.snapshots, number)
      ensures Alone() ==>
        && s == old(s).(snapshots := From(old(s).snapshots, number))
        && deleted + |s.snapshots.Keys| == |old(s).snapshots.Keys|
    {
      var listed := ListSnapshots();
      ghost var all := s.snapshots;
      deleted := DeleteListed(listed, number);
      RemovedBelow(all, listed, deleted, number);
    }

    method DeleteCommit(number: nat)
      requires Valid() && number <= s.floor
      modifies this
      ensures Valid() && Later() && Watched() && number !in s.live
      ensures old(orderly) && !disturbed ==> orderly
      ensures Alone() ==> s == old(s).(live := old(s).live - {number})
    {
      Interfere();
      Take(EraseCommit(number));
    }

    /** Deletes the listed commits below `number`, one object after the other. */
    method DeleteListedCommits(listed: seq<nat>, number: nat) returns (deleted: nat)
      requires Valid() && Ascending(listed) && forall n :: n in listed && n < number ==> n <= s.floor
      modifies this
      ensures Valid() && Later() && Watched()
      ensures old(orderly) && !disturbed ==> orderly
      ensures deleted <= |listed| && forall j :: 0 <= j < |listed| ==> (listed[j] < number <==> j < deleted)
      ensures Alone() ==> s == old(s).(live := old(s).live - Names(listed, deleted))
    {
      deleted := 0;
      while deleted < |listed| && listed[deleted] < number
        invariant deleted <= |listed| && Valid() && Later() && Watched()
        invariant forall j :: 0 <= j < deleted ==> listed[j] < number
        invariant old(orderly) && !disturbed ==> orderly
        invariant Alone() ==> s == old(s).(live := old(s).live - Names(listed, deleted))
      {
        assert listed[deleted] in listed;
        DeleteCommit(listed[deleted]);
        NamesOneMore(listed, deleted);
        assert old(s).live - Names(listed, deleted) - {listed[deleted]} == old(s).live - Names(listed, deleted + 1);
        deleted := deleted + 1;
      }
    }

    /** The prune point goes up to `number - 1`, as far as there are commits. */
    method PruneBelow(number: nat)
      requires Valid() && number >= 1
      modifies this`s, this`orderly, this`undercut
      ensures Valid() && Onwards(old(s), s) && s == old(s).(floor := s.floor) && undercut == old(undercut)
      ensures forall n :: n in s.live && n < number ==> n <= s.floor
      ensures (orderly ==> old(orderly)) && (old(orderly) && s.newest > 0 && NoneBelow(s.snapshots, number - 1) ==> orderly)
    {
      var to: nat := if number - 1 <= |s.history| then number - 1 else |s.history|;
      to := if to < s.floor then s.floor else to;
      Take(Prune(to));
    }

    /** Lists the commits; from here on those below `number` may be gone. */
    method MarkPruned(number: nat) returns (listed: seq<nat>)
      requires Valid() && number >= 1
      modifies this
      ensures Valid() && Later() && Watched()
      ensures Ascending(listed) && forall n :: n in listed <==> n in s.live
      ensures forall n :: n in listed && n < number ==> n <= s.floor
      ensures old(orderly) && !disturbed && !undercut && watch == number - 1 && old(s).newest > 0 && NoneBelow(old(s).snapshots, watch) ==> orderly
      ensures Alone() ==> s == old(s).(floor := s.floor)
    {
      Interfere();
      listed := Sorted(s.live);
      assert !undercut && watch == number - 1 && NoneBelow(old(s).snapshots, watch) ==> NoneBelow(s.snapshots, number - 1);
      PruneBelow(number);
    }

    /** delete_commits_before: lists, then deletes. */
    method DeleteCommitsBefore(number: nat) returns (deleted: nat)
      requires Valid() && number >= 1
      modifies this
      ensures Valid() && Later() && Watched()
      ensures old(orderly) && !disturbed && !undercut && watch == number - 1 && old(s).newest > 0 && NoneBelow(old(s).snapshots, watch) ==> orderly
      ensures Alone() ==>
        && s == old(s).(floor := s.floor, live := set n | n in old(s).live && n >= number)
        && deleted + |s.live| == |old(s).live|
    {
      var listed := MarkPruned(number);
      ghost var all := s.live;
      deleted := DeleteListedCommits(listed, number);
      ErasedBelow(all, listed, deleted, number);
    }
  }

  predicate NoneBelow<D>(snapshots: map<nat, Database<D>>, number: nat) {
    forall n :: n in snapshots ==> number <= n
  }

  /** Taking away the listed commits below `number` leaves those from `number` on. */
  lemma {:induction false} ErasedBelow(all: set<nat>, listed: seq<nat>, k: nat, number: nat)
    requires k <= |listed| && Ascending(listed)
    requires forall n :: n in listed <==> n in all
    requires forall j :: 0 <= j < |listed| ==> (listed[j] < number <==> j < k)
    ensures all - Names(listed, k) == set n | n in all && n >= number
    ensures k + |all - Names(listed, k)| == |all|
  {
    NamesCount(listed, k);
    forall n | n in all
      ensures n in Names(listed, k) <==> n < number
    {
      assert n in listed;
    }
    assert Names(listed, k) <= all by {
      forall n | n in Names(listed, k) ensures n in all {
        assert n in listed;
      }
    }
  }

  /** The snapshots numbered `number` and higher. */
  function From<D>(snapshots: map<nat, Database<D>>, number: nat): map<nat, Database<D>> {
    map n | n in snapshots && n >= number :: snapshots[n]
  }

  /** Every number below `number` is among the names from `from` on. */
  ghost predicate AllNamed(numbers: set<nat>, number: nat, names: seq<nat>, from: nat) {
    forall n :: n in numbers && n < number ==> exists j :: from <= j < |names| && names[j] == n
  }

  lemma {:induction false} NoNameLeft<D>(snapshots: map<nat, Database<D>>, number: nat, names: seq<nat>, from: nat)
    requires Ascending(names) && AllNamed(snapshots.Keys, number, names, from)
    requires from < |names| ==> names[from] >= number
    ensures NoneBelow(snapshots, number)
  {
  }

  lemma {:induction false} OneNameLess<D>(before: map<nat, Database<D>>, after: map<nat, Database<D>>, number: nat,
      names: seq<nat>, from: nat)
    requires forall n :: n in after && n < number ==> n in before
    requires AllNamed(before.Keys, number, names, from) && from < |names| && names[from] !in after
    ensures AllNamed(after.Keys, number, names, from + 1)
  {
  }

  function Names(listed: seq<nat>, k: nat): set<nat>
    requires k <= |listed|
  {
    set j | 0 <= j < k :: listed[j]
  }

  lemma {:induction false} NamesOneMore(listed: seq<nat>, k: nat)
    requires k < |listed| && Ascending(listed)
    ensures Names(listed, k + 1) == Names(listed, k) + {listed[k]} && listed[k] !in Names(listed, k)
  {
  }

  lemma {:induction false} NamesCount(listed: seq<nat>, k: nat)
    requires k <= |listed| && Ascending(listed)
    ensures |Names(listed, k)| == k
    decreases k
  {
    if k > 0 {
      NamesCount(listed, k - 1);
      NamesOneMore(listed, k - 1);
    }
  }

  /** What dropping the first `k` listed snapshots, and nothing else, makes of a shelf. */
  function Dropped<D, E>(s: Shelf<D, E>, listed: seq<nat>, k: nat): Shelf<D, E>
    requires k <= |listed|
  {
    s.(snapshots := s.snapshots - Names(listed, k))
  }

  lemma {:induction false} OneDropMore<D, E>(s: Shelf<D, E>, t: Shelf<D, E>, u: Shelf<D, E>, listed: seq<nat>, k: nat)
    requires k < |listed| && Ascending(listed)
    ensures t == Dropped(s, listed, k) && u == t.(snapshots := t.snapshots - {listed[k]}) ==> u == Dropped(s, listed, k + 1)
  {
    assert s.snapshots - Names(listed, k) - {listed[k]} == s.snapshots - Names(listed, k + 1);
  }

  lemma {:induction false} CutIsExact(listed: seq<nat>, k: nat, number: nat)
    requires Ascending(listed) && k <= |listed| && forall j :: 0 <= j < k ==> listed[j] < number
    requires k < |listed| ==> listed[k] >= number
    ensures forall j :: 0 <= j < |listed| ==> (listed[j] < number <==> j < k)
  {
  }

  /** Taking away the listed names below `number` leaves those from `number` on. */
  lemma {:induction false} RemovedBelow<D>(all: map<nat, Database<D>>, listed: seq<nat>, k: nat, number: nat)
    requires k <= |listed| && Ascending(listed)
    requires forall n :: n in listed <==> n in all
    requires forall j :: 0 <= j < |listed| ==> (listed[j] < number <==> j < k)
    ensures all - Names(listed, k) == From(all, number)
    ensures k + |From(all, number).Keys| == |all.Keys|
  {
    ErasedBelow(all.Keys, listed, k, number);
    assert From(all, number).Keys == all.Keys - Names(listed, k);
  }
}
