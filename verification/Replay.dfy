/**
  The replay engine: commits are read forward until a gap and applied to a database file, each in a
  transaction of its own.
*/
module Replay {
  import opened Wrappers
  import opened LogProtocol
  import opened Folding
  import opened Archives

  datatype Trouble =
    | HandlerFailed(commit: nat)
    | SnapshotVanished(number: nat)
    | NothingToBuildFrom

  /** A database file; `None` is a path at which there is no file. */
  class DbFile<D> {
    var content: Option<Database<D>>

    constructor ()
      ensures content == None
    {
      content := None;
    }
  }

  /** What a replay did: it applied `commits`, which follow `after` in the log. */
  ghost predicate Replayed<D, E>(h: Handlers<D, E>, before: Option<Database<D>>, now: Option<Database<D>>,
      commits: seq<Commit<E>>, history: seq<Commit<E>>, after: nat) {
    && before.Some? && now.Some?
    && IsPiece(commits, after + 1, history)
    && FoldFrom(h, before.value, commits) == now
  }

  /** Why a replay came to its end without failing: the end asked for, or a number not in the log. */
  ghost predicate Ended(live: set<nat>, reached: nat, endAt: Option<nat>) {
    (endAt.Some? && endAt.value <= reached) || reached + 1 !in live
  }

  function PastEnd(endAt: Option<nat>, number: nat): bool {
    endAt.Some? && number > endAt.value
  }

  /**
    Applies one commit inside one transaction: all of it and its position, or nothing. `trace` are the
    rows before the first event and after each one, up to a handler that raises if there is one.
  */
  method ApplyInTransaction<D, E>(h: Handlers<D, E>, file: DbFile<D>, commit: Commit<E>)
      returns (ok: bool, ghost trace: seq<D>)
    requires file.content.Some?
    modifies file
    ensures ok ==>
      && IsTrace(h, old(file.content).value.rows, SlotsOf(commit.number, commit.entries), trace)
      && file.content == Some(Database(trace[|commit.entries|],
           Some(Sequence(commit.number, if commit.entries == [] then 0 else |commit.entries| - 1))))
    ensures !ok ==>
      && Breaks(h, old(file.content).value.rows, SlotsOf(commit.number, commit.entries), trace)
      && file.content == old(file.content)
  {
    var work := file.content.value.rows;
    trace := [work];
    ghost var slots := SlotsOf(commit.number, commit.entries);
    for i := 0 to |commit.entries|
      invariant IsTrace(h, file.content.value.rows, slots[..i], trace) && trace[i] == work
      invariant file.content == old(file.content)
    {
      var event := commit.entries[i].event;
      if h.handles(event) {
        var done := h.run(work, Sequence(commit.number, i), event);
        if done.None? {
          return false, trace;
        }
        work := done.value;
      }
      trace := trace + [work];
    }
    assert slots[..|slots|] == slots;
    file.content := Some(Database(work, Some(LastSequence(commit))));
    ok := true;
  }

  /** The commits above `lo` and up to `hi` are in the bucket. */
  ghost predicate AllLive(live: set<nat>, lo: nat, hi: nat) {
    forall m :: lo < m <= hi ==> m in live
  }

  function LastOf<D, E>(now: Option<Database<D>>, commits: seq<Commit<E>>): Option<Sequence> {
    if commits == [] || now.None? then None else now.value.position
  }

  /** A replay on its way: what it applied, no further than asked for, and, undisturbed, all of it still there. */
  ghost predicate Underway<D, E>(h: Handlers<D, E>, s: Shelf<D, E>, alone: bool, before: Option<Database<D>>,
      now: Option<Database<D>>, commits: seq<Commit<E>>, after: nat, endAt: Option<nat>) {
    && Replayed(h, before, now, commits, s.history, after)
    && (endAt.Some? && after <= endAt.value ==> after + |commits| <= endAt.value)
    && (alone ==> AllLive(s.live, after, after + |commits|))
  }

  /** Why it stopped: at the end asked for or a gap, or before a commit that fails. */
  ghost predicate Stopped<D, E>(h: Handlers<D, E>, s: Shelf<D, E>, alone: bool, now: Option<Database<D>>,
      commits: seq<Commit<E>>, after: nat, endAt: Option<nat>, r: Result<Option<Sequence>, Trouble>) {
    var reached := after + |commits|;
    match r
    case Success(last) => last == LastOf(now, commits) && Ended(s.live, reached, endAt)
    case Failure(trouble) =>
      && trouble == HandlerFailed(reached + 1) && reached < |s.history|
      && !PastEnd(endAt, reached + 1) && (alone ==> reached + 1 in s.live)
      && now.Some? && ApplyCommit(h, now.value, s.history[reached]).None?
  }

  lemma {:induction false} UnderwayLater<D, E>(h: Handlers<D, E>, s: Shelf<D, E>, alone: bool, t: Shelf<D, E>,
      stillAlone: bool,
      before: Option<Database<D>>, now: Option<Database<D>>, commits: seq<Commit<E>>, after: nat, endAt: Option<nat>)
    requires Underway(h, s, alone, before, now, commits, after, endAt)
    requires s.history <= t.history && (stillAlone ==> alone && t == s)
    ensures Underway(h, t, stillAlone, before, now, commits, after, endAt)
  {
  }

  lemma {:induction false} UnderwayOneMore<D, E>(h: Handlers<D, E>, s: Shelf<D, E>, alone: bool,
      before: Option<Database<D>>, now: Option<Database<D>>, commits: seq<Commit<E>>, after: nat, endAt: Option<nat>, commit: Commit<E>)
    requires Underway(h, s, alone, before, now, commits, after, endAt) && !PastEnd(endAt, after + |commits| + 1)
    requires after + |commits| < |s.history| && commit == s.history[after + |commits|] && after + |commits| + 1 in s.live
    requires ApplyCommit(h, now.value, commit).Some?
    ensures Underway(h, s, alone, before, ApplyCommit(h, now.value, commit), commits + [commit], after, endAt)
  {
    assert (commits + [commit])[..|commits|] == commits;
  }

  /** Asks for commit `number`, the one after those applied so far. */
  method ReadNext<D, E>(a: Archive<D, E>, number: nat, ghost others: nat, ghost before: Option<Database<D>>,
      ghost now: Option<Database<D>>, ghost commits: seq<Commit<E>>, ghost after: nat, ghost endAt: Option<nat>)
    returns (commit: Option<Commit<E>>)
    requires a.Valid() && others <= a.others && number == after + |commits| + 1
    requires Underway(a.handlers, a.s, a.others == others, before, now, commits, after, endAt)
    modifies a
    ensures a.Valid() && a.Later() && (old(a.orderly) && !a.disturbed ==> a.orderly)
    ensures a.Alone() ==> a.s == old(a.s)
    ensures Underway(a.handlers, a.s, a.others == others, before, now, commits, after, endAt)
    ensures if commit.None? then number !in a.s.live
            else number in a.s.live && number <= |a.s.history| && commit.value == a.s.history[number - 1]
  {
    ghost var s, alone := a.s, a.others == others;
    commit := a.GetCommit(number);
    UnderwayLater(a.handlers, s, alone, a.s, a.others == others, before, now, commits, after, endAt);
  }

  /** How a turn ends: with the reason to stop, or with one commit more. */
  ghost predicate TurnEnded<D, E>(h: Handlers<D, E>, s: Shelf<D, E>, alone: bool, before: Option<Database<D>>,
      now: Option<Database<D>>, commits: seq<Commit<E>>, after: nat, endAt: Option<nat>,
      stop: Option<Result<Option<Sequence>, Trouble>>, commit: Option<Commit<E>>) {
    if stop.Some? then
      && Underway(h, s, alone, before, now, commits, after, endAt)
      && Stopped(h, s, alone, now, commits, after, endAt, stop.value)
    else
      && commit.Some? && Underway(h, s, alone, before, now, commits + [commit.value], after, endAt)
      && now.Some? && now.value.position == Some(LastSequence(commit.value))
  }

  /** Applies the commit that was read. */
  method ReplayOne<D, E>(h: Handlers<D, E>, file: DbFile<D>, number: nat, commit: Commit<E>, ghost s: Shelf<D, E>,
      ghost alone: bool, ghost before: Option<Database<D>>, ghost commits: seq<Commit<E>>, ghost after: nat,
      ghost endAt: Option<nat>)
    returns (stop: Option<Result<Option<Sequence>, Trouble>>)
    requires Underway(h, s, alone, before, file.content, commits, after, endAt) && file.content.Some?
    requires number == after + |commits| + 1 && !PastEnd(endAt, number)
    requires number in s.live && number <= |s.history| && commit == s.history[number - 1]
    modifies file
    ensures TurnEnded(h, s, alone, before, file.content, commits, after, endAt, stop, Some(commit))
  {
    ghost var now := file.content;
    ghost var trace;
    var ok;
    ok, trace := ApplyInTransaction(h, file, commit);
    CommitIsTrace(h, now.value, commit, trace);
    if !ok {
      return Some(Failure(HandlerFailed(number)));
    }
    UnderwayOneMore(h, s, alone, before, now, commits, after, endAt, commit);
    stop := None;
  }

  /** One turn of the replay: reads the next commit, if there is one, and applies it. */
  method ReplayNext<D, E>(a: Archive<D, E>, file: DbFile<D>, number: nat, last: Option<Sequence>, ghost others: nat,
      ghost before: Option<Database<D>>, ghost commits: seq<Commit<E>>, ghost after: nat, ghost endAt: Option<nat>)
    returns (stop: Option<Result<Option<Sequence>, Trouble>>, commit: Option<Commit<E>>)
    requires a.Valid() && others <= a.others && number == after + |commits| + 1 && !PastEnd(endAt, number)
    requires Underway(a.handlers, a.s, a.others == others, before, file.content, commits, after, endAt)
    requires last == LastOf(file.content, commits)
    modifies a, file
    ensures a.Valid() && a.Later() && (old(a.orderly) && !a.disturbed ==> a.orderly)
    ensures a.Alone() ==> a.s == old(a.s)
    ensures TurnEnded(a.handlers, a.s, a.others == others, before, file.content, commits, after, endAt, stop, commit)
  {
    ghost var now := file.content;
    commit := ReadNext(a, number, others, before, now, commits, after, endAt);
    if commit.None? {
      return Some(Success(last)), None;
    }
    stop := ReplayOne(a.handlers, file, number, commit.value, a.s, a.others == others, before, commits, after, endAt);
  }

  /**
    Replays the commits in (after, endAt] onto the file. Whatever the others do meanwhile, the file
    ends up with a contiguous piece of the log applied; on failure, with the piece before the commit
    that fails.
  */
  method ReplayOnto<D, E>(a: Archive<D, E>, file: DbFile<D>, after: nat, endAt: Option<nat>)
    returns (r: Result<Option<Sequence>, Trouble>, ghost commits: seq<Commit<E>>)
    requires a.Valid() && file.content.Some?
    modifies a, file
    ensures a.Valid() && a.Later() && (old(a.orderly) && !a.disturbed ==> a.orderly)
    ensures a.Alone() ==> a.s == old(a.s)
    ensures Underway(a.handlers, a.s, a.Alone(), old(file.content), file.content, commits, after, endAt)
    ensures Stopped(a.handlers, a.s, a.Alone(), file.content, commits, after, endAt, r)
  {
    commits := [];
    ghost var before, others := file.content, a.others;
    var last: Option<Sequence> := None;
    var number := after + 1;
    while !PastEnd(endAt, number)
      invariant a.Valid() && a.Later() && (old(a.orderly) && !a.disturbed ==> a.orderly)
      invariant a.Alone() ==> a.s == old(a.s)
      invariant number == after + |commits| + 1 && last == LastOf(file.content, commits)
      invariant Underway(a.handlers, a.s, a.others == others, before, file.content, commits, after, endAt)
      decreases old(a.Horizon()) + 1 - number
    {
      var stop, commit := ReplayNext(a, file, number, last, others, before, commits, after, endAt);
      if stop.Some? {
        return stop.value, commits;
      }
      last := Some(LastSequence(commit.value));
      commits := commits + [commit.value];
      number := number + 1;
    }
    r := Success(last);
  }

  /** From a projection, replaying gives a projection again, further on. */
  lemma {:induction false} ReplayedIsFold<D, E>(h: Handlers<D, E>, before: Database<D>, now: Database<D>,
      commits: seq<Commit<E>>, history: seq<Commit<E>>)
    requires Numbered(history) && IsFold(h, history, before)
    requires Replayed(h, Some(before), Some(now), commits, history, Reached(before))
    ensures IsFold(h, history, now) && Reached(now) == Reached(before) + |commits|
    ensures commits == [] ==> now == before
    ensures commits != [] ==> now.position.Some?
  {
    var p, q := Reached(before), Reached(before) + |commits|;
    assert commits == history[p..q];
    GoingOnIsFold(h, history, p, q);
    FoldToReaches(h, history, q);
  }

  /** How replaying a projection comes to its end. */
  ghost predicate FoldEnded<D, E>(h: Handlers<D, E>, s: Shelf<D, E>, after: nat, db: Database<D>, endAt: Option<nat>,
      r: Result<Option<Sequence>, Trouble>) {
    match r
    case Success(last) =>
      && Ended(s.live, Reached(db), endAt)
      && (if Reached(db) == after then last.None? else last == db.position && last.Some?)
    case Failure(trouble) =>
      && trouble == HandlerFailed(Reached(db) + 1) && Reached(db) < |s.history| && !PastEnd(endAt, Reached(db) + 1)
      && FoldTo(h, s.history, Reached(db) + 1).None?
  }

  /** Replays onto a file that holds a projection: it holds a later one then. */
  method ReplayFold<D, E>(a: Archive<D, E>, file: DbFile<D>, endAt: Option<nat>)
      returns (r: Result<Option<Sequence>, Trouble>)
    requires a.Valid() && file.content.Some? && IsFold(a.handlers, a.s.history, file.content.value)
    modifies a, file
    ensures a.Valid() && a.Later() && (old(a.orderly) && !a.disturbed ==> a.orderly)
    ensures file.content.Some? && IsFold(a.handlers, a.s.history, file.content.value)
    ensures var after, reached := Reached(old(file.content).value), Reached(file.content.value);
      && after <= reached && (endAt.Some? && after <= endAt.value ==> reached <= endAt.value)
      && (a.Alone() ==> a.s == old(a.s) && AllLive(a.s.live, after, reached) && (r.Failure? ==> reached + 1 in a.s.live))
      && FoldEnded(a.handlers, a.s, after, file.content.value, endAt, r)
  {
    ghost var base, log := file.content.value, a.s.history;
    ghost var commits;
    r, commits := ReplayOnto(a, file, Reached(file.content.value), endAt);
    FoldOn(a.handlers, log, a.s.history, base, file.content.value, commits);
  }

  lemma {:induction false} FoldOn<D, E>(h: Handlers<D, E>, log: seq<Commit<E>>, longer: seq<Commit<E>>,
      base: Database<D>, now: Database<D>, commits: seq<Commit<E>>)
    requires Numbered(longer) && log <= longer && IsFold(h, log, base)
    requires Replayed(h, Some(base), Some(now), commits, longer, Reached(base))
    ensures IsFold(h, longer, now) && Reached(now) == Reached(base) + |commits|
    ensures commits != [] ==> now.position.Some?
    ensures Reached(now) < |longer| ==> FoldTo(h, longer, Reached(now) + 1) == ApplyCommit(h, now, longer[Reached(now)])
  {
    IsFoldOfLongerLog(h, log, longer, base);
    ReplayedIsFold(h, base, now, commits, longer);
    if Reached(now) < |longer| {
      IsFoldOneMore(h, longer, now);
    }
  }
}
