/**
  Snapshots: built by replaying the log from the beginning, published once, and used as bases for
  time travel.
*/
module Snapshots {
  import opened Wrappers
  import opened LogProtocol
  import opened Folding
  import opened Archives
  import opened Replay

  function Least(a: nat, b: nat): nat {
    if a < b then a else b
  }

  /** An empty database is the projection of no commits. */
  method NewBase<D, E>(a: Archive<D, E>, file: DbFile<D>)
    requires a.Valid()
    modifies file
    ensures file.content == Some(Base(a.handlers)) && IsFold(a.handlers, a.s.history, Base(a.handlers))
  {
    file.content := Some(Base(a.handlers));
    assert a.s.history[..0] == [];
  }

  /** How building ends. `whole` says that nothing was pruned when it began. */
  ghost predicate Built<D, E>(h: Handlers<D, E>, s: Shelf<D, E>, alone: bool, whole: bool, endAt: Option<nat>,
      r: Result<nat, Trouble>) {
    match r
    case Success(n) =>
      && n in s.snapshots && 1 <= n <= |s.history| && FoldTo(h, s.history, n) == Some(s.snapshots[n])
      && (endAt.Some? ==> n <= endAt.value)
      && (alone ==> Ended(s.live, n, endAt))
      && (alone && whole ==> n == if endAt.Some? then Least(endAt.value, |s.history|) else |s.history|)
    case Failure(HandlerFailed(n)) => 1 <= n <= |s.history| && FoldTo(h, s.history, n).None?
    case Failure(NothingToBuildFrom) => 1 !in s.live || endAt == Some(0)
    case Failure(SnapshotVanished(_)) => false
  }

  lemma {:induction false} NotBuilt<D, E>(h: Handlers<D, E>, s: Shelf<D, E>, alone: bool, whole: bool, db: Database<D>,
      endAt: Option<nat>, replayed: Result<Option<Sequence>, Trouble>)
    requires FoldEnded(h, s, 0, db, endAt, replayed)
    ensures replayed.Failure? ==> Built(h, s, alone, whole, endAt, Failure(replayed.error))
    ensures replayed == Success(None) ==> Built(h, s, alone, whole, endAt, Failure(NothingToBuildFrom))
  {
  }

  lemma {:induction false} IsBuilt<D, E>(h: Handlers<D, E>, before: Shelf<D, E>, s: Shelf<D, E>, alone: bool,
      whole: bool, db: Database<D>, n: nat, endAt: Option<nat>)
    requires Sound(h, s) && n in s.snapshots && s.snapshots[n] == db && FoldTo(h, s.history, n) == Some(db)
    requires 1 <= n <= |before.history| <= |s.history| && Ended(before.live, n, endAt)
    requires endAt.Some? ==> n <= endAt.value
    requires alone ==> s.live == before.live && (whole ==> s.floor == 0)
    ensures Built(h, s, alone, whole, endAt, Success(n))
  {
  }

  /** Replays from 0 into a temporary file and publishes it, if absent, under its last commit. */
  method BuildSnapshot<D, E>(a: Archive<D, E>, endAt: Option<nat>) returns (r: Result<nat, Trouble>)
    requires a.Valid()
    modifies a
    ensures a.Valid() && a.Later()
    ensures old(a.orderly) && !a.disturbed && (r.Success? ==> a.s.floor <= r.value) ==> a.orderly
    ensures Built(a.handlers, a.s, a.Alone(), old(a.s.floor) == 0, endAt, r)
  {
    ghost var whole, others := a.s.floor == 0, a.others;
    var file := new DbFile<D>();
    NewBase(a, file);
    var replayed := ReplayFold(a, file, endAt);
    NotBuilt(a.handlers, a.s, a.others == others, whole, file.content.value, endAt, replayed);
    if replayed.Failure? {
      return Failure(replayed.error);
    }
    if replayed.value.None? {
      return Failure(NothingToBuildFrom);
    }
    var number := replayed.value.value.commit;
    ghost var before := a.s;
    var created := a.PutSnapshot(number, file.content.value);
    IsFoldOfLongerLog(a.handlers, before.history, a.s.history, file.content.value);
    IsBuilt(a.handlers, before, a.s, a.others == others, whole, file.content.value, number, endAt);
    r := Success(number);
  }

  /** The best base for a target: the highest snapshot at or before it. */
  ghost predicate IsBest(numbers: set<nat>, target: nat, best: Option<nat>) {
    match best
    case None => forall n :: n in numbers ==> n > target
    case Some(b) => b in numbers && b <= target && forall n :: n in numbers && n <= target ==> n <= b
  }

  method BestBase(listed: seq<nat>, ghost numbers: set<nat>, target: nat) returns (best: Option<nat>)
    requires Ascending(listed) && forall n :: n in listed <==> n in numbers
    ensures IsBest(numbers, target, best)
  {
    best := None;
    for i := 0 to |listed|
      invariant best.None? ==> forall j :: 0 <= j < i ==> listed[j] > target
      invariant best.Some? ==> best.value in listed && best.value <= target && forall j :: 0 <= j < i && listed[j] <= target ==> listed[j] <= best.value
    {
      if listed[i] <= target {
        best := Some(listed[i]);
      }
    }
    assert forall n :: n in numbers ==> n in listed;
  }

  method ChooseBase<D, E>(a: Archive<D, E>, target: nat) returns (base: Option<nat>)
    requires a.Valid()
    modifies a
    ensures a.Valid() && a.Later() && (a.Alone() ==> a.s == old(a.s))
    ensures IsBest(a.s.snapshots.Keys, target, base)
  {
    var listed := a.ListSnapshots();
    base := BestBase(listed, a.s.snapshots.Keys, target);
  }

  /** Puts the base at the destination: the best snapshot, or an empty database when there is none. */
  method PlaceBase<D, E>(a: Archive<D, E>, dest: DbFile<D>, base: Option<nat>) returns (ok: bool)
    requires a.Valid()
    modifies a, dest
    ensures a.Valid() && a.Later() && (a.Alone() ==> a.s == old(a.s))
    ensures a.Alone() && (base.Some? ==> base.value in old(a.s.snapshots)) ==> ok
    ensures !ok ==> base.Some?
    ensures ok ==>
      && dest.content.Some? && IsFold(a.handlers, a.s.history, dest.content.value)
      && Reached(dest.content.value) == base.GetOr(0)
  {
    if base.None? {
      NewBase(a, dest);
      return true;
    }
    var data := a.GetSnapshot(base.value);
    if data.None? {
      return false;
    }
    dest.content := data;
    FoldToReaches(a.handlers, a.s.history, base.value);
    ok := true;
  }

  /** Nothing between the base and the target has been deleted. */
  ghost predicate Covered<D, E>(s: Shelf<D, E>, base: nat, target: nat) {
    AllLive(s.live, base, Least(target, |s.history|))
  }

  /** What time travel gives, disturbed or not. */
  ghost predicate Travelled<D, E>(h: Handlers<D, E>, s: Shelf<D, E>, target: nat, result: Option<Database<D>>) {
    && result.Some? && IsFold(h, s.history, result.value) && Reached(result.value) <= target
    && Ended(s.live, Reached(result.value), Some(target))
    && (s.floor <= Reached(result.value) ==> result == FoldTo(h, s.history, Least(target, |s.history|)))
  }

  /** What it gives when nobody interferes: the projection of the target exactly when it is covered. */
  ghost predicate TravelledAlone<D, E>(h: Handlers<D, E>, s: Shelf<D, E>, target: nat, base: Option<nat>,
      result: Option<Database<D>>, r: Result<(), Trouble>) {
    && IsBest(s.snapshots.Keys, target, base)
    && match r
       case Success(_) => result == FoldTo(h, s.history, Least(target, |s.history|)) <==> Covered(s, base.GetOr(0), target)
       case Failure(trouble) =>
         && trouble.HandlerFailed? && 1 <= trouble.commit <= Least(target, |s.history|) && trouble.commit in s.live
         && FoldTo(h, s.history, trouble.commit).None?
  }

  /**
    Time travel. The result is a projection, of as much of the log up to the target as could be read.
    A target before the prune point does not make it fail: with no snapshot to start from and the
    first commit gone, the result is an empty database.
  */
  method AsOf<D, E>(a: Archive<D, E>, dest: DbFile<D>, target: nat)
      returns (r: Result<(), Trouble>, ghost base: Option<nat>)
    requires a.Valid()
    modifies a, dest
    ensures a.Valid() && a.Later() && (a.Alone() ==> a.s == old(a.s))
    ensures r.Success? ==> Travelled(a.handlers, a.s, target, dest.content)
    ensures a.Alone() ==> TravelledAlone(a.handlers, a.s, target, base, dest.content, r)
    ensures a.Alone() && base.None? && 1 !in a.s.live ==> r.Success? && Reached(dest.content.value) == 0
    ensures r.Failure? ==> match r.error
      case HandlerFailed(n) => 1 <= n <= Least(target, |a.s.history|) && FoldTo(a.handlers, a.s.history, n).None?
      case SnapshotVanished(n) => base == Some(n) && !a.Alone()
      case NothingToBuildFrom => false
  {
    dest.content := None;
    var best := ChooseBase(a, target);
    base := best;
    var placed := PlaceBase(a, dest, best);
    if !placed {
      return Failure(SnapshotVanished(best.value)), base;
    }
    r := Travel(a, dest, target, base);
  }

  method Travel<D, E>(a: Archive<D, E>, dest: DbFile<D>, target: nat, ghost base: Option<nat>)
      returns (r: Result<(), Trouble>)
    requires a.Valid() && dest.content.Some? && IsFold(a.handlers, a.s.history, dest.content.value)
    requires Reached(dest.content.value) == base.GetOr(0) <= target
    modifies a, dest
    ensures a.Valid() && a.Later() && (a.Alone() ==> a.s == old(a.s))
    ensures r.Success? ==> Travelled(a.handlers, a.s, target, dest.content)
    ensures a.Alone() && IsBest(a.s.snapshots.Keys, target, base) ==>
      TravelledAlone(a.handlers, a.s, target, base, dest.content, r)
    ensures a.Alone() && base.None? && 1 !in a.s.live ==> r.Success? && Reached(dest.content.value) == 0
    ensures r.Failure? ==>
      && r.error.HandlerFailed? && 1 <= r.error.commit <= Least(target, |a.s.history|)
      && FoldTo(a.handlers, a.s.history, r.error.commit).None?
  {
    var replayed := ReplayFold(a, dest, Some(target));
    TravelEnds(a.handlers, a.s, a.Alone(), dest.content.value, target, base, replayed);
    r := if replayed.Failure? then Failure(replayed.error) else Success(());
  }

  /** From how the replay ended to what time travel gives. */
  lemma {:induction false} TravelEnds<D, E>(h: Handlers<D, E>, s: Shelf<D, E>, alone: bool, db: Database<D>,
      target: nat,
      base: Option<nat>, replayed: Result<Option<Sequence>, Trouble>)
    requires Sound(h, s) && IsFold(h, s.history, db) && base.GetOr(0) <= Reached(db) <= target
    requires FoldEnded(h, s, base.GetOr(0), db, Some(target), replayed)
    requires alone ==> AllLive(s.live, base.GetOr(0), Reached(db)) && (replayed.Failure? ==> Reached(db) + 1 in s.live)
    ensures replayed.Success? ==> Travelled(h, s, target, Some(db))
    ensures alone && IsBest(s.snapshots.Keys, target, base) ==>
      TravelledAlone(h, s, target, base, Some(db), if replayed.Failure? then Failure(replayed.error) else Success(()))
    ensures alone && base.None? && 1 !in s.live ==> replayed.Success? && Reached(db) == 0
    ensures replayed.Failure? ==>
      && replayed.error.HandlerFailed? && 1 <= replayed.error.commit <= Least(target, |s.history|)
      && FoldTo(h, s.history, replayed.error.commit).None?
  {
    if replayed.Success? {
      ReachedIsTarget(h, s, db, target);
    }
  }

  /** How far a projection that stopped at a gap or at the target has got. */
  lemma {:induction false} ReachedIsTarget<D, E>(h: Handlers<D, E>, s: Shelf<D, E>, db: Database<D>, target: nat)
    requires Sound(h, s) && IsFold(h, s.history, db) && Reached(db) <= target && Ended(s.live, Reached(db), Some(target))
    ensures s.floor <= Reached(db) ==> Reached(db) == Least(target, |s.history|)
    ensures Some(db) == FoldTo(h, s.history, Least(target, |s.history|)) <==> Reached(db) == Least(target, |s.history|)
    ensures Reached(db) != Least(target, |s.history|) ==>
      Reached(db) < Least(target, |s.history|) && Reached(db) + 1 !in s.live
  {
  }

  /** With retention in force, every target from the oldest snapshot on is covered by its best base. */
  lemma {:induction false} RetainedTargetsAreCovered<D, E>(h: Handlers<D, E>, s: Shelf<D, E>, target: nat,
      base: Option<nat>)
    requires Sound(h, s) && Retained(s) && IsBest(s.snapshots.Keys, target, base)
    requires base.Some? || s.snapshots == map[]
    ensures Covered(s, base.GetOr(0), target)
  {
  }
}
