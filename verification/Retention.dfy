/**
  The retention job: which snapshots stay, which commits go, and that history stays usable.

  `Archive.Valid` ties `orderly` to `Retained`, and it holds at every storage call, so what the job
  promises about the end holds after every single deletion.
*/
module Retention {
  import opened Wrappers
  import opened Folding
  import opened Archives

  datatype GcResult = GcResult(snapshotsDeleted: nat, commitsDeleted: nat, oldestKept: Option<nat>)

  /** `left` are the newest `keep` of all snapshots, or all when there are fewer; `oldest` is the lowest of them. */
  ghost predicate Kept<D>(all: map<nat, Database<D>>, left: map<nat, Database<D>>, keep: nat, oldest: Option<nat>) {
    && |left.Keys| == (if keep < |all.Keys| then keep else |all.Keys|)
    && match oldest
       case None => all == map[] && left == all
       case Some(o) => o in all && left == From(all, o)
  }

  /** What one undisturbed run leaves: the newest snapshots, and the commits above the oldest of them. */
  ghost predicate Collected<D, E>(s: Shelf<D, E>, t: Shelf<D, E>, keep: nat, pruneLog: bool, r: GcResult) {
    && t.history == s.history
    && Kept(s.snapshots, t.snapshots, keep, r.oldestKept)
    && t.live == (if pruneLog && r.oldestKept.Some? then set n | n in s.live && n > r.oldestKept.value else s.live)
    && r.snapshotsDeleted + |t.snapshots.Keys| == |s.snapshots.Keys|
    && r.commitsDeleted + |t.live| == |s.live|
  }

  lemma {:induction false} ListedCount<D>(all: map<nat, Database<D>>, listed: seq<nat>)
    requires Ascending(listed) && forall n :: n in listed <==> n in all
    ensures |all.Keys| == |listed|
  {
    NamesCount(listed, |listed|);
    assert forall n :: n in all.Keys ==> n in listed;
    assert Names(listed, |listed|) == all.Keys;
  }

  /** From the j-th name on there are `|listed| - j` snapshots. */
  lemma {:induction false} CountFrom<D>(all: map<nat, Database<D>>, listed: seq<nat>, j: nat)
    requires Ascending(listed) && j < |listed| && forall n :: n in listed <==> n in all
    ensures |all.Keys| == |listed| && |From(all, listed[j]).Keys| == |listed| - j
    ensures j == 0 ==> From(all, listed[j]) == all
  {
    ListedCount(all, listed);
    RemovedBelow(all, listed, j, listed[j]);
    assert j == 0 ==> Names(listed, j) == {};
  }

  /** The number that the code keeps from: the lowest of the newest `keep`, or of all. */
  function Choice(numbers: seq<nat>, keep: nat): Option<nat>
    requires keep >= 1
  {
    if numbers == [] then None else Some(if |numbers| <= keep then numbers[0] else numbers[|numbers| - keep])
  }

  /** The code's choice of the oldest snapshot to keep is right. */
  lemma {:induction false} ChoiceIsKept<D>(all: map<nat, Database<D>>, numbers: seq<nat>, keep: nat)
    requires Ascending(numbers) && keep >= 1 && forall n :: n in numbers <==> n in all
    ensures |numbers| <= keep ==> Kept(all, all, keep, Choice(numbers, keep))
    ensures 0 < |numbers| <= keep ==> NoneBelow(all, numbers[0])
    ensures |numbers| > keep ==> Kept(all, From(all, Choice(numbers, keep).value), keep, Choice(numbers, keep))
  {
    if numbers != [] {
      var j := if |numbers| <= keep then 0 else |numbers| - keep;
      CountFrom(all, numbers, j);
      assert numbers[j] in numbers;
    } else {
      assert forall n :: n in all ==> n in numbers;
    }
  }

  /** Lists the snapshots and watches the oldest one to keep. */
  method Choose<D, E>(a: Archive<D, E>, keep: nat) returns (numbers: seq<nat>, oldest: Option<nat>)
    requires a.Valid() && keep >= 1
    modifies a
    ensures a.Valid() && a.Later() && (a.Alone() ==> a.s == old(a.s))
    ensures old(a.orderly) && !a.disturbed ==> a.orderly
    ensures oldest == Choice(numbers, keep) && Ascending(numbers) && forall n :: n in numbers <==> n in a.s.snapshots
    ensures oldest.Some? ==> oldest.value <= a.s.newest && a.s.newest > 0 && a.watch == oldest.value && !a.undercut
  {
    numbers := a.ListSnapshots();
    oldest := Choice(numbers, keep);
    if oldest.Some? {
      assert oldest.value in numbers;
      a.Watch(oldest.value);
    }
  }

  /** Deletes the snapshots below the oldest one to keep, which is watched. */
  method DropOlder<D, E>(a: Archive<D, E>, numbers: seq<nat>, keep: nat, oldest: nat) returns (deleted: nat)
    requires a.Valid() && keep >= 1 && |numbers| > keep && Choice(numbers, keep) == Some(oldest)
    requires oldest <= a.s.newest && a.s.newest > 0 && a.watch == oldest && !a.undercut
    modifies a
    ensures a.Valid() && a.Later() && a.s.newest > 0 && a.watch == oldest
    ensures old(a.orderly) && !a.disturbed ==> a.orderly
    ensures !a.undercut ==> NoneBelow(a.s.snapshots, oldest)
    ensures a.Alone() ==>
      && a.s == old(a.s).(snapshots := From(old(a.s).snapshots, oldest))
      && deleted + |a.s.snapshots.Keys| == |old(a.s).snapshots.Keys| && !a.undercut
  {
    deleted := a.DeleteSnapshotsBefore(oldest);
  }

  /** Keeps the newest snapshots; the result is the oldest one kept. */
  method KeepNewest<D, E>(a: Archive<D, E>, keep: nat) returns (oldest: Option<nat>, deleted: nat)
    requires a.Valid() && keep >= 1
    modifies a
    ensures a.Valid() && a.Later()
    ensures old(a.orderly) && !a.disturbed ==> a.orderly
    ensures oldest.Some? ==> a.s.newest > 0 && a.watch == oldest.value && (!a.undercut ==> NoneBelow(a.s.snapshots, a.watch))
    ensures a.Alone() ==>
      && a.s == old(a.s).(snapshots := a.s.snapshots)
      && Kept(old(a.s).snapshots, a.s.snapshots, keep, oldest)
      && deleted + |a.s.snapshots.Keys| == |old(a.s).snapshots.Keys|
      && (oldest.Some? ==> !a.undercut)
  {
    var numbers;
    numbers, oldest := Choose(a, keep);
    ChoiceIsKept(a.s.snapshots, numbers, keep);
    deleted := 0;
    if |numbers| > keep {
      deleted := DropOlder(a, numbers, keep, oldest.value);
    }
  }

  /**
    One run of the job. It breaks retention neither by its deletions nor by its prune, unless between
    its listing and its prune a snapshot was published below the oldest one it keeps (`undercut`).
  */
  method CollectGarbage<D, E>(a: Archive<D, E>, keepSnapshots: int, pruneLog: bool)
      returns (r: Result<GcResult, string>)
    requires a.Valid()
    modifies a
    ensures a.Valid() && a.Later()
    ensures r.Failure? <==> keepSnapshots < 1
    ensures r.Failure? ==> a.s == old(a.s) && a.Alone()
    ensures r.Success? && r.value.oldestKept.Some? ==> a.watch == r.value.oldestKept.value
    ensures old(a.orderly) && !a.disturbed && (pruneLog && r.Success? && r.value.oldestKept.Some? ==> !a.undercut) ==>
      a.orderly
    ensures r.Success? && a.Alone() && r.value.oldestKept.Some? ==> !a.undercut
    ensures r.Success? && a.Alone() ==> Collected(old(a.s), a.s, keepSnapshots, pruneLog, r.value)
  {
    if keepSnapshots < 1 {
      return Failure("keep_snapshots must be >= 1");
    }
    var oldest, snapshotsDeleted := KeepNewest(a, keepSnapshots);
    var commitsDeleted := 0;
    if pruneLog && oldest.Some? {
      commitsDeleted := a.DeleteCommitsBefore(oldest.value + 1);
    }
    r := Success(GcResult(snapshotsDeleted, commitsDeleted, oldest));
  }
}
