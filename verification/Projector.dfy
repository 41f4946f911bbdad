/**
  The projector: a visible database file that is replaced, never edited.

  An update builds its database at a second path and renames it over the visible one. Whatever the
  way it came about (an empty base, a copy, a snapshot), the visible database is absent or is the
  fold of exactly the commits that its recorded position names.
*/
module Projector {
  import opened Wrappers
  import opened LogProtocol
  import opened Folding
  import opened Archives
  import opened Replay

  ghost predicate Faithful<D, E>(h: Handlers<D, E>, log: seq<Commit<E>>, db: Option<Database<D>>) {
    db.Some? ==> IsFold(h, log, db.value)
  }

  function PositionOf<D>(db: Option<Database<D>>): Option<Sequence> {
    if db.Some? then db.value.position else None
  }

  function CommitOf(position: Option<Sequence>): nat {
    if position.Some? then position.value.commit else 0
  }

  /** The base that an update replays onto. */
  ghost predicate IsBase<D, E>(h: Handlers<D, E>, log: seq<Commit<E>>, visible: Option<Database<D>>,
      left: Option<Database<D>>, snapshot: Option<nat>, base: Option<Database<D>>, after: nat) {
    if snapshot.Some? then after == snapshot.value && 1 <= after <= |log| && FoldTo(h, log, after) == base && base.Some?
    else if visible.Some? then base == visible && after == Reached(visible.value)
    else after == 0 && base == Some(if left.None? then Base(h) else Database(h.prepare(left.value.rows), left.value.position))
  }

  /** Nothing stale can get into the next update: the file it would build on is there, or the scratch path is free. */
  predicate Clean<D>(visible: Option<Database<D>>, left: Option<Database<D>>, snapshot: Option<nat>) {
    visible.Some? || left.None? || snapshot.Some?
  }

  lemma {:induction false} BaseIsFold<D, E>(h: Handlers<D, E>, log: seq<Commit<E>>, visible: Option<Database<D>>,
      left: Option<Database<D>>, snapshot: Option<nat>, base: Option<Database<D>>, after: nat)
    requires Numbered(log) && Faithful(h, log, visible) && Clean(visible, left, snapshot)
    requires IsBase(h, log, visible, left, snapshot, base, after)
    ensures base.Some? && IsFold(h, log, base.value) && Reached(base.value) == after
  {
  }

  /** A finished update: the fold of a log that has nothing more to give, further on than before. */
  ghost predicate Advanced<D, E>(h: Handlers<D, E>, s: Shelf<D, E>, before: Option<Database<D>>,
      now: Option<Database<D>>) {
    && now.Some? && IsFold(h, s.history, now.value) && now.value.position.Some?
    && Reached(now.value) > CommitOf(PositionOf(before))
    && CaughtUp(s, Reached(now.value))
  }

  /** There is no next commit: this is the tail, unless the log is pruned past it. */
  ghost predicate CaughtUp<D, E>(s: Shelf<D, E>, p: nat) {
    p + 1 !in s.live && (s.floor <= p ==> p == |s.history|)
  }

  /** The highest of the snapshots, if there are any. */
  ghost predicate IsLatest<D>(snapshots: map<nat, Database<D>>, latest: Option<nat>) {
    match latest
    case None => snapshots == map[]
    case Some(n) => n in snapshots && forall m :: m in snapshots ==> m <= n
  }

  /**
    An update fails for one of two reasons: a handler raised, or the snapshot that was listed is gone,
    which takes somebody else to delete it.
  */
  ghost predicate Blamed<D, E>(h: Handlers<D, E>, s: Shelf<D, E>, before: Option<Database<D>>, clean: bool,
      snapshot: Option<nat>, alone: bool, trouble: Trouble) {
    match trouble
    case HandlerFailed(n) => clean ==> CommitOf(PositionOf(before)) < n <= |s.history| && FoldTo(h, s.history, n).None?
    case SnapshotVanished(n) => snapshot == Some(n) && n !in s.snapshots && !alone && PositionOf(before).None?
    case NothingToBuildFrom => false
  }

  /** What replaying onto a base comes to. */
  lemma {:induction false} ReplayAdvances<D, E>(h: Handlers<D, E>, s: Shelf<D, E>, visible: Option<Database<D>>,
      base: Database<D>, now: Database<D>, commits: seq<Commit<E>>, after: nat)
    requires Sound(h, s) && IsFold(h, s.history, base) && Reached(base) == after
    requires CommitOf(PositionOf(visible)) <= after
    requires Replayed(h, Some(base), Some(now), commits, s.history, after)
    ensures IsFold(h, s.history, now) && Reached(now) == after + |commits|
    ensures commits == [] ==> now == base
    ensures after + |commits| + 1 !in s.live && now.position.Some? && Reached(now) > CommitOf(PositionOf(visible)) ==>
      Advanced(h, s, visible, Some(now))
    ensures after + |commits| < |s.history| && ApplyCommit(h, now, s.history[after + |commits|]).None? ==>
      CommitOf(PositionOf(visible)) < after + |commits| + 1 && FoldTo(h, s.history, after + |commits| + 1).None?
  {
    ReplayedIsFold(h, base, now, commits, s.history);
    if after + |commits| < |s.history| {
      IsFoldOneMore(h, s.history, now);
    }
  }

  /** What replaying onto a base comes to, which is a projection if it is clean. */
  ghost predicate BaseReplayed<D, E>(h: Handlers<D, E>, s: Shelf<D, E>, visible: Option<Database<D>>,
      base: Option<Database<D>>, now: Option<Database<D>>, after: nat, clean: bool, r: Result<Option<Sequence>, Trouble>) {
    match r
    case Failure(trouble) => trouble.HandlerFailed? && Blamed(h, s, visible, clean, None, true, trouble)
    case Success(None) => now == base && (clean ==> CaughtUp(s, after))
    case Success(Some(last)) => PositionOf(now) == Some(last) && (clean ==> Advanced(h, s, visible, now))
  }

  lemma {:induction false} BaseIsReplayed<D, E>(h: Handlers<D, E>, s: Shelf<D, E>, alone: bool,
      visible: Option<Database<D>>, base: Option<Database<D>>, now: Option<Database<D>>, commits: seq<Commit<E>>,
      after: nat, clean: bool, r: Result<Option<Sequence>, Trouble>)
    requires Sound(h, s) && Underway(h, s, alone, base, now, commits, after, None)
    requires Stopped(h, s, alone, now, commits, after, None, r)
    requires clean ==>
      base.Some? && IsFold(h, s.history, base.value) && Reached(base.value) == after >= CommitOf(PositionOf(visible))
    ensures BaseReplayed(h, s, visible, base, now, after, clean, r)
  {
    if clean {
      ReplayAdvances(h, s, visible, base.value, now.value, commits, after);
    }
  }

  class Projector<D, E> {
    const archive: Archive<D, E>
    const visible: DbFile<D>
    const scratch: DbFile<D>

    /** How many updates have been made. */
    ghost var updates: nat

    ghost predicate Valid()
      reads this, archive, visible
    {
      && archive.Valid() && visible != scratch
      && Faithful(archive.handlers, archive.s.history, visible.content)
    }

    constructor (archive: Archive<D, E>)
      requires archive.Valid()
      ensures Valid() && this.archive == archive && visible.content == None && scratch.content == None && updates == 0
    {
      this.archive := archive;
      this.visible := new DbFile();
      this.scratch := new DbFile();
      this.updates := 0;
    }

    twostate lemma StillValid()
      requires old(Valid()) && archive.Valid() && visible.content == old(visible.content) && old(archive.s.history) <= archive.s.history
      ensures Valid()
    {
      if visible.content.Some? {
        IsFoldOfLongerLog(archive.handlers, old(archive.s.history), archive.s.history, visible.content.value);
      }
    }

    /** The recorded position; `None` without a file or before the first commit. */
    function CurrentSequence(): Option<Sequence>
      reads this, visible
    {
      PositionOf(visible.content)
    }

    /** One read of the next commit number. */
    method HasNewCommits(current: Option<Sequence>) returns (found: bool)
      requires Valid()
      modifies archive
      ensures Valid() && archive.Later()
      ensures archive.Alone() ==> archive.s == old(archive.s)
      ensures found <==> CommitOf(current) + 1 in archive.s.live
      ensures !found && CommitOf(current) <= |archive.s.history| ==> CaughtUp(archive.s, CommitOf(current))
    {
      var next := if current.None? then 1 else current.value.commit + 1;
      var commit := archive.GetCommit(next);
      StillValid();
      found := commit.Some?;
    }

    /** Creates the base: a downloaded snapshot, a copy of the visible file, or an empty database. */
    method PrepareNewDb(current: Option<Sequence>, snapshot: Option<nat>) returns (r: Result<(nat, bool), Trouble>)
      requires Valid() && current == CurrentSequence()
      requires snapshot.Some? ==> current.None? && snapshot.value in archive.s.snapshots
      modifies archive, scratch
      ensures Valid() && archive.Later()
      ensures r.Success? ==>
        && r.value.1 == snapshot.Some?
        && IsBase(archive.handlers, archive.s.history, visible.content, old(scratch.content), snapshot, scratch.content, r.value.0)
      ensures r.Failure? ==>
        && snapshot.Some? && r.error == SnapshotVanished(snapshot.value) && snapshot.value !in archive.s.snapshots
        && !archive.Alone()
    {
      if current.None? && snapshot.Some? {
        var data := archive.GetSnapshot(snapshot.value);
        StillValid();
        if data.None? {
          return Failure(SnapshotVanished(snapshot.value));
        }
        scratch.content := data;
        return Success((snapshot.value, true));
      }
      if visible.content.Some? {
        scratch.content := visible.content;
      } else {
        var h := archive.handlers;
        scratch.content := Some(if scratch.content.None? then Base(h) else Database(h.prepare(scratch.content.value.rows), scratch.content.value.position));
      }
      r := Success((CommitOf(current), false));
    }

    /** Replays the log onto the base; `None` when nothing was applied. */
    method ReplayBase(after: nat, ghost clean: bool) returns (r: Result<Option<Sequence>, Trouble>)
      requires Valid() && scratch.content.Some?
      requires clean ==>
        IsFold(archive.handlers, archive.s.history, scratch.content.value) && Reached(scratch.content.value) == after >= CommitOf(CurrentSequence())
      modifies archive, scratch
      ensures Valid() && archive.Later()
      ensures BaseReplayed(archive.handlers, archive.s, visible.content, old(scratch.content), scratch.content, after, clean, r)
    {
      ghost var base, log := scratch.content, archive.s.history;
      ghost var commits;
      r, commits := ReplayOnto(archive, scratch, after, None);
      StillValid();
      if clean {
        IsFoldOfLongerLog(archive.handlers, log, archive.s.history, base.value);
      }
      BaseIsReplayed(archive.handlers, archive.s, archive.Alone(), visible.content, base, scratch.content, commits, after, clean, r);
    }

    /** Prepares the base and replays the log onto it; `None` when there was nothing to apply after all. */
    method Build(current: Option<Sequence>, snapshot: Option<nat>, ghost others: nat)
        returns (r: Result<Option<Sequence>, Trouble>)
      requires Valid() && current == CurrentSequence() && others <= archive.others
      requires snapshot.Some? ==> current.None? && snapshot.value in archive.s.snapshots
      modifies archive, scratch
      ensures Valid() && archive.Later()
      ensures var clean := Clean(visible.content, old(scratch.content), snapshot);
        match r
        case Failure(trouble) =>
          Blamed(archive.handlers, archive.s, visible.content, clean, snapshot, archive.others == others, trouble)
        case Success(None) => clean ==> CaughtUp(archive.s, CommitOf(current))
        case Success(Some(last)) =>
          && PositionOf(scratch.content) == Some(last)
          && (clean ==> Advanced(archive.handlers, archive.s, visible.content, scratch.content))
    {
      var prepared := PrepareNewDb(current, snapshot);
      if prepared.Failure? {
        return Failure(prepared.error);
      }
      var after, bootstrapped := prepared.value.0, prepared.value.1;
      ghost var clean, base, log := Clean(visible.content, old(scratch.content), snapshot), scratch.content, archive.s.history;
      if clean {
        BaseIsFold(archive.handlers, log, visible.content, old(scratch.content), snapshot, base, after);
      }
      r := ReplayBase(after, clean);
      if r == Success(None) && bootstrapped {
        IsFoldOfLongerLog(archive.handlers, log, archive.s.history, base.value);
        r := Success(PositionOf(scratch.content));
      }
    }

    /** Where to start: bootstraps ask for the latest snapshot, everything else polls the next number. */
    method Poll(current: Option<Sequence>) returns (go: bool, snapshot: Option<nat>)
      requires Valid() && current == CurrentSequence()
      modifies archive
      ensures Valid() && archive.Later()
      ensures snapshot.Some? ==> go && current.None? && IsLatest(archive.s.snapshots, snapshot)
      ensures archive.Alone() ==> archive.s == old(archive.s) && (current.None? ==> IsLatest(archive.s.snapshots, snapshot))
      ensures snapshot.None? ==> (go <==> CommitOf(current) + 1 in archive.s.live)
      ensures !go ==> CaughtUp(archive.s, CommitOf(current))
    {
      snapshot := None;
      if current.None? {
        snapshot := archive.FindLatestSnapshot();
        StillValid();
      }
      go := true;
      if snapshot.None? {
        go := HasNewCommits(current);
      }
    }

    /** How an update may end, seen from the databases at the two paths before it and the snapshot listed. */
    ghost predicate UpdateEnded(before: Option<Database<D>>, clean: bool, snapshot: Option<nat>, alone: bool,
        r: Result<(bool, Option<Sequence>), Trouble>)
      reads this, archive, visible, scratch
    {
      match r
      case Failure(trouble) =>
        && visible.content == before && scratch.content == None
        && Blamed(archive.handlers, archive.s, before, clean, snapshot, alone, trouble)
      case Success((updated, sequence)) =>
        && sequence == PositionOf(visible.content)
        && (if updated then sequence.Some? && scratch.content == None else visible.content == before)
        && (clean ==> CaughtUp(archive.s, CommitOf(sequence)))
        && (updated && clean ==> Advanced(archive.handlers, archive.s, before, visible.content))
    }

    /** Renames the new database over the visible one, or cleans up. */
    method Install(current: Option<Sequence>, built: Result<Option<Sequence>, Trouble>, ghost clean: bool,
        ghost snapshot: Option<nat>, ghost alone: bool)
        returns (r: Result<(bool, Option<Sequence>), Trouble>)
      requires Valid() && current == CurrentSequence()
      requires match built
               case Failure(trouble) => Blamed(archive.handlers, archive.s, visible.content, clean, snapshot, alone, trouble)
               case Success(None) => clean ==> CaughtUp(archive.s, CommitOf(current))
               case Success(Some(last)) =>
                 && PositionOf(scratch.content) == Some(last)
                 && (clean ==> Advanced(archive.handlers, archive.s, visible.content, scratch.content))
      modifies scratch, visible
      ensures (clean ==> Valid()) && UpdateEnded(old(visible.content), clean, snapshot, alone, r) && scratch.content == None
    {
      match built
      case Failure(trouble) =>
        scratch.content := None;
        r := Failure(trouble);
      case Success(None) =>
        scratch.content := None;
        r := Success((false, current));
      case Success(Some(last)) =>
        visible.content := scratch.content;
        scratch.content := None;
        r := Success((true, Some(last)));
    }

    /**
      One update. Readers see the old database or the new one, never anything between; a failed
      update leaves the old one untouched. Behind the prune point an update finds nothing to do.
    */
    method ApplyUpdates() returns (r: Result<(bool, Option<Sequence>), Trouble>, ghost snapshot: Option<nat>)
      requires Valid()
      modifies this`updates, archive, scratch, visible
      ensures updates == old(updates) + 1
      ensures archive.Valid() && archive.Later()
      ensures snapshot.Some? ==> old(CurrentSequence()).None?
      ensures scratch.content == None || scratch.content == old(scratch.content)
      ensures Clean(old(visible.content), old(scratch.content), snapshot) ==> Valid()
      ensures UpdateEnded(old(visible.content), Clean(old(visible.content), old(scratch.content), snapshot), snapshot, archive.Alone(), r)
      ensures archive.Alone() && old(CurrentSequence()).None? ==> IsLatest(old(archive.s.snapshots), snapshot)
      ensures old(CurrentSequence()).Some? && LostNext(old(archive.s), CommitOf(old(CurrentSequence()))) ==>
        r == Success((false, old(CurrentSequence())))
    {
      updates := updates + 1;
      var current := CurrentSequence();
      ghost var others := archive.others;
      var go, latest := Poll(current);
      snapshot := latest;
      if !go {
        return Success((false, current)), snapshot;
      }
      var built := Build(current, latest, others);
      r := Install(current, built, Clean(visible.content, old(scratch.content), snapshot), snapshot, archive.others == others);
    }

    /** Discards the visible database and builds a new one; an empty log leaves an empty database. */
    method RebuildFromScratch() returns (r: Result<Option<Sequence>, Trouble>, ghost snapshot: Option<nat>)
      requires Valid()
      modifies this`updates, archive, scratch, visible
      ensures archive.Valid() && archive.Later()
      ensures r.Failure? ==>
        && visible.content == None && scratch.content == None
        && Blamed(archive.handlers, archive.s, None, old(scratch.content).None? || snapshot.Some?, snapshot, archive.Alone(), r.error)
      ensures r.Success? ==> visible.content.Some? && r.value == CurrentSequence()
      ensures archive.Alone() ==> IsLatest(old(archive.s.snapshots), snapshot)
      ensures r.Success? && (old(scratch.content).None? || snapshot.Some?) ==>
        Valid() && CaughtUp(archive.s, CommitOf(CurrentSequence()))
    {
      visible.content := None;
      var updated;
      updated, snapshot := ApplyUpdates();
      if updated.Failure? {
        return Failure(updated.error), snapshot;
      }
      if !updated.value.0 && visible.content.None? {
        visible.content := Some(Base(archive.handlers));
        assert archive.s.history[..0] == [];
      }
      r := Success(updated.value.1);
    }
  }

  /** The commit after `p` existed and has been deleted. */
  predicate LostNext<D, E>(s: Shelf<D, E>, p: nat) {
    p < |s.history| && p + 1 !in s.live
  }

  /** There is an event at this place. */
  ghost predicate IsPlace<E>(log: seq<Commit<E>>, at: Sequence) {
    1 <= at.commit <= |log| && at.index < |log[at.commit - 1].entries|
  }

  /** A caught-up projection is past every event of the log, unless the log is pruned past it. */
  lemma {:induction false} CaughtUpIsPast<D, E>(h: Handlers<D, E>, s: Shelf<D, E>, db: Option<Database<D>>,
      target: Sequence)
    requires Sound(h, s) && Faithful(h, s.history, db) && CaughtUp(s, CommitOf(PositionOf(db)))
    requires IsPlace(s.history, target) && s.floor <= CommitOf(PositionOf(db))
    ensures PositionOf(db).Some? && AtOrAfter(PositionOf(db).value, target)
  {
    AppliedIsShown(h, s.history, db.value, target.commit, target.index);
  }

  /**
    The reader's side of read-your-writes: trigger updates until the target is reached, or time is up.

    The answer is always about the visible database: true exactly when its position has reached the
    target. Once an update was made, false means that there is no such event, or that the log is pruned
    past the projection.
  */
  method WaitForSequence<D, E>(projector: Projector<D, E>, target: Sequence, polls: nat)
      returns (r: Result<bool, Trouble>)
    requires projector.Valid() && Clean(projector.visible.content, projector.scratch.content, None)
    modifies projector`updates, projector.archive, projector.scratch, projector.visible
    ensures projector.updates <= old(projector.updates) + polls
    ensures r == Success(false) ==> projector.updates == old(projector.updates) + polls
    ensures projector.Valid() && Clean(projector.visible.content, projector.scratch.content, None)
    ensures old(projector.archive.s.history) <= projector.archive.s.history
    ensures r.Success? ==>
      (r.value <==> projector.CurrentSequence().Some? && AtOrAfter(projector.CurrentSequence().value, target))
    ensures r == Success(false) && polls > 0 && IsPlace(projector.archive.s.history, target) ==>
      CommitOf(projector.CurrentSequence()) < projector.archive.s.floor
    ensures CommitOf(projector.CurrentSequence()) >= old(CommitOf(projector.CurrentSequence()))
    ensures old(projector.CurrentSequence()).Some? && AtOrAfter(old(projector.CurrentSequence()).value, target) ==>
      r == Success(true) && projector.visible.content == old(projector.visible.content)
    ensures r.Failure? ==> match r.error
      case HandlerFailed(n) =>
        && CommitOf(projector.CurrentSequence()) < n <= |projector.archive.s.history|
        && FoldTo(projector.archive.handlers, projector.archive.s.history, n).None?
      case SnapshotVanished(n) =>
        n !in projector.archive.s.snapshots && !projector.archive.Alone() && projector.CurrentSequence().None?
      case NothingToBuildFrom => false
  {
    var left: nat := polls;
    while true
      invariant projector.Valid() && Clean(projector.visible.content, projector.scratch.content, None)
      invariant CommitOf(projector.CurrentSequence()) >= old(CommitOf(projector.CurrentSequence()))
      invariant old(projector.archive.s.history) <= projector.archive.s.history && old(projector.archive.others) <= projector.archive.others
      invariant left < polls ==> CaughtUp(projector.archive.s, CommitOf(projector.CurrentSequence()))
      invariant left == polls ==> projector.visible.content == old(projector.visible.content)
      invariant left < polls ==>
        old(projector.CurrentSequence()).None? || !AtOrAfter(old(projector.CurrentSequence()).value, target)
      invariant left <= polls && projector.updates == old(projector.updates) + polls - left
      decreases left
    {
      var current := projector.CurrentSequence();
      if current.Some? && AtOrAfter(current.value, target) {
        return Success(true);
      }
      if left == 0 {
        if polls > 0 && IsPlace(projector.archive.s.history, target) && projector.archive.s.floor <= CommitOf(current) {
          CaughtUpIsPast(projector.archive.handlers, projector.archive.s, projector.visible.content, target);
        }
        return Success(false);
      }
      var updated, _ := projector.ApplyUpdates();
      if updated.Failure? {
        return Failure(updated.error);
      }
      left := left - 1;
    }
  }
}
