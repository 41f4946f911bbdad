/**
  What a revalidation hook makes of a batch, over all the races the batch loses.

  A hook sees the pending events and the commits that interleaved. It returns one decision per
  event: the event to commit in its place, or nothing to reject it. A hook may also raise, or
  return a list of the wrong length.
*/
module Revalidation {
  import opened Wrappers
  import opened LogProtocol

  type Hook<!E> = (seq<E>, seq<Commit<E>>) -> Option<seq<Option<E>>>

  function Events<E>(entries: seq<Entry<E>>): (events: seq<E>)
    ensures |events| == |entries|
    ensures forall i :: 0 <= i < |entries| ==> events[i] == entries[i].event
  {
    seq(|entries|, i requires 0 <= i < |entries| => entries[i].event)
  }

  /** The surviving entries, in their order, each with the event decided for it. */
  function Keep<E>(entries: seq<Entry<E>>, decisions: seq<Option<E>>): seq<Entry<E>>
    requires |entries| == |decisions|
  {
    if entries == [] then []
    else
      var last := |entries| - 1;
      var kept := Keep(entries[..last], decisions[..last]);
      match decisions[last]
      case None => kept
      case Some(event) => kept + [entries[last].(event := event)]
  }

  /** The hook did not raise, and it decided on every event. */
  ghost predicate Answers<E>(revalidate: Hook<E>, entries: seq<Entry<E>>, interleaved: seq<Commit<E>>) {
    && revalidate(Events(entries), interleaved).Some?
    && |revalidate(Events(entries), interleaved).value| == |entries|
  }

  /** What one lost race leaves: everything without a hook, otherwise the entries that the hook keeps. */
  ghost predicate Leaves<E>(hook: Option<Hook<E>>, entries: seq<Entry<E>>, interleaved: seq<Commit<E>>,
      left: seq<Entry<E>>) {
    match hook
    case None => left == entries
    case Some(revalidate) =>
      && Answers(revalidate, entries, interleaved)
      && left == Keep(entries, revalidate(Events(entries), interleaved).value)
  }

  /**
    The course of a batch: the commits that interleaved, lost race by lost race, and what was pending at
    first and after each race.
  */
  datatype Course<E> = Course(rounds: seq<seq<Commit<E>>>, waves: seq<seq<Entry<E>>>) {
    /** What was pending at the end. */
    function Last(): seq<Entry<E>> {
      if waves == [] then [] else waves[|waves| - 1]
    }

    function Next(round: seq<Commit<E>>, left: seq<Entry<E>>): Course<E> {
      Course(rounds + [round], waves + [left])
    }

    /** The last race has no outcome. */
    function Stop(round: seq<Commit<E>>): Course<E> {
      Course(rounds + [round], waves)
    }
  }

  /** From the batch on, every race with a visible winner has left what is pending after it. */
  ghost predicate RunsThrough<E>(hook: Option<Hook<E>>, batch: seq<Entry<E>>, course: Course<E>) {
    && |course.waves| == |course.rounds| + 1 && course.waves[0] == batch
    && forall k :: 0 <= k < |course.rounds| ==>
         course.rounds[k] != [] && Leaves(hook, course.waves[k], course.rounds[k], course.waves[k + 1])
  }

  /** All went well until the last race, when the hook raised or miscounted on what was then pending. */
  ghost predicate FailsLast<E>(hook: Option<Hook<E>>, batch: seq<Entry<E>>, course: Course<E>) {
    && |course.waves| == |course.rounds| >= 1
    && RunsThrough(hook, batch, Course(course.rounds[..|course.rounds| - 1], course.waves))
    && course.rounds[|course.rounds| - 1] != [] && hook.Some?
    && !Answers(hook.value, course.Last(), course.rounds[|course.rounds| - 1])
  }

  /** The commits of all rounds, one after the other. */
  function Shown<E>(rounds: seq<seq<Commit<E>>>): seq<Commit<E>> {
    if rounds == [] then [] else Shown(rounds[..|rounds| - 1]) + rounds[|rounds| - 1]
  }

  function Tickets<E>(entries: seq<Entry<E>>): set<nat> {
    set i | 0 <= i < |entries| :: entries[i].ticket
  }

  /** Entries of one owner in submission order. */
  ghost predicate InOrder<E>(owner: nat, entries: seq<Entry<E>>) {
    && (forall i :: 0 <= i < |entries| ==> entries[i].owner == owner)
    && (forall i, j :: 0 <= i < j < |entries| ==> entries[i].ticket < entries[j].ticket)
  }

  /** What becomes of entry `i` when its decision is an event. */
  function Decided<E>(entries: seq<Entry<E>>, decisions: seq<Option<E>>, i: nat): Entry<E>
    requires |entries| == |decisions| && i < |entries| && decisions[i].Some?
  {
    entries[i].(event := decisions[i].value)
  }

  /** Keeping neither reorders nor invents entries: it drops exactly the rejected ones. */
  lemma {:induction false} KeepKeepsOrder<E>(owner: nat, entries: seq<Entry<E>>, decisions: seq<Option<E>>)
    requires |entries| == |decisions| && InOrder(owner, entries)
    ensures InOrder(owner, Keep(entries, decisions))
    ensures forall i :: 0 <= i < |entries| && decisions[i].Some? ==>
      Decided(entries, decisions, i) in Keep(entries, decisions)
    ensures forall e :: e in Keep(entries, decisions) ==>
      exists i :: 0 <= i < |entries| && decisions[i].Some? && e == Decided(entries, decisions, i)
  {
    if entries != [] {
      var last := |entries| - 1;
      var es, ds := entries[..last], decisions[..last];
      var kept := Keep(es, ds);
      KeepKeepsOrder(owner, es, ds);
      forall i | 0 <= i < last && decisions[i].Some?
        ensures Decided(entries, decisions, i) in kept
      {
        assert Decided(es, ds, i) == Decided(entries, decisions, i);
      }
      forall e | e in kept
        ensures e.ticket < entries[last].ticket && e.owner == owner
        ensures exists i :: 0 <= i < |entries| && decisions[i].Some? && e == Decided(entries, decisions, i)
      {
        var i :| 0 <= i < last && ds[i].Some? && e == Decided(es, ds, i);
        assert e == Decided(entries, decisions, i);
      }
    }
  }

  lemma {:induction false} LeavesInOrder<E>(owner: nat, hook: Option<Hook<E>>, entries: seq<Entry<E>>,
      interleaved: seq<Commit<E>>, left: seq<Entry<E>>)
    requires InOrder(owner, entries) && Leaves(hook, entries, interleaved, left)
    ensures InOrder(owner, left) && Tickets(left) <= Tickets(entries)
  {
    if hook.Some? {
      var decisions := hook.value(Events(entries), interleaved).value;
      KeepKeepsOrder(owner, entries, decisions);
      forall k | 0 <= k < |left|
        ensures left[k].ticket in Tickets(entries)
      {
        assert left[k] in left;
        var i :| 0 <= i < |entries| && decisions[i].Some? && left[k] == Decided(entries, decisions, i);
      }
    }
  }

  /** Over any number of lost races: the survivors keep their order and come from the batch. */
  lemma {:induction false} CourseKeepsOrder<E>(owner: nat, hook: Option<Hook<E>>, batch: seq<Entry<E>>,
      course: Course<E>, k: nat)
    requires InOrder(owner, batch) && RunsThrough(hook, batch, course) && k <= |course.rounds|
    ensures InOrder(owner, course.waves[k]) && Tickets(course.waves[k]) <= Tickets(batch)
  {
    if k > 0 {
      CourseKeepsOrder(owner, hook, batch, course, k - 1);
      LeavesInOrder(owner, hook, course.waves[k - 1], course.rounds[k - 1], course.waves[k]);
    }
  }

  /** Without a hook a batch goes through every lost race unchanged. */
  lemma {:induction false} CourseWithoutHook<E>(batch: seq<Entry<E>>, course: Course<E>, k: nat)
    requires RunsThrough(None, batch, course) && k <= |course.rounds|
    ensures course.waves[k] == batch
  {
    if k > 0 {
      CourseWithoutHook(batch, course, k - 1);
      assert Leaves(None, course.waves[k - 1], course.rounds[k - 1], course.waves[k]);
    }
  }

  /** Hook and races leave no choice: two courses of one batch through the same races are equal, race by race. */
  lemma {:induction false} CourseIsUnique<E>(hook: Option<Hook<E>>, batch: seq<Entry<E>>, one: Course<E>,
      other: Course<E>, k: nat)
    requires RunsThrough(hook, batch, one) && RunsThrough(hook, batch, other)
    requires k <= |one.rounds| && one.rounds <= other.rounds
    ensures one.waves[k] == other.waves[k]
  {
    if k > 0 {
      CourseIsUnique(hook, batch, one, other, k - 1);
      assert Leaves(hook, one.waves[k - 1], one.rounds[k - 1], one.waves[k]);
      assert Leaves(hook, other.waves[k - 1], other.rounds[k - 1], other.waves[k]);
    }
  }

  /** A race that a batch got past was answered by its hook. */
  lemma {:induction false} PassedRaceWasAnswered<E>(hook: Option<Hook<E>>, batch: seq<Entry<E>>, course: Course<E>,
      other: Course<E>)
    requires RunsThrough(hook, batch, course) && RunsThrough(hook, batch, other) && course.rounds < other.rounds && hook.Some?
    ensures Answers(hook.value, course.Last(), other.rounds[|course.rounds|])
  {
    var k := |course.rounds|;
    CourseIsUnique(hook, batch, course, other, k);
    assert Leaves(hook, other.waves[k], other.rounds[k], other.waves[k + 1]);
  }

  /** A batch does not get past a race in which the hook fails, and it fails in no race that it gets past. */
  lemma {:induction false} FailureIsFinal<E>(hook: Option<Hook<E>>, batch: seq<Entry<E>>, failed: Course<E>,
      other: Course<E>)
    requires FailsLast(hook, batch, failed) && RunsThrough(hook, batch, other)
    ensures !(failed.rounds <= other.rounds)
  {
    if failed.rounds <= other.rounds {
      var before := failed.rounds[..|failed.rounds| - 1];
      PassedRaceWasAnswered(hook, batch, Course(before, failed.waves), other);
    }
  }

  lemma {:induction false} OneMoreRace<E>(hook: Option<Hook<E>>, batch: seq<Entry<E>>, course: Course<E>,
      round: seq<Commit<E>>, left: seq<Entry<E>>)
    requires RunsThrough(hook, batch, course) && round != []
    ensures Leaves(hook, course.Last(), round, left) ==> RunsThrough(hook, batch, course.Next(round, left))
    ensures hook.Some? && !Answers(hook.value, course.Last(), round) ==> FailsLast(hook, batch, course.Stop(round))
    ensures Shown(course.rounds + [round]) == Shown(course.rounds) + round
  {
    assert (course.rounds + [round])[..|course.rounds|] == course.rounds;
  }
}
