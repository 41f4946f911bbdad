/**
  The write path: group commit, tail discovery, lost races, revalidation and retry.

  A future becomes a one-shot cell: `results` maps the ticket of a submission to its outcome, and
  a ticket without an entry is still waiting.
*/
module Committer {
  import opened Wrappers
  import opened LogProtocol
  import opened LogBucket
  import opened Revalidation

  datatype Outcome =
    | Acked(commit: nat, index: nat)
    | Rejected
    | Exhausted
    | Failed

  datatype BatchEnd = BatchWon(number: nat) | AllRejected | GaveUp | HookFailed

  /** The answer to a whole batch: its slots in the commit it won, or the same failure for all. */
  datatype Verdict = Slots(number: nat) | All(outcome: Outcome)

  function Answer(verdict: Verdict, k: nat): Outcome {
    match verdict
    case Slots(number) => Acked(number, k)
    case All(outcome) => outcome
  }

  ghost predicate Before(a: Outcome, b: Outcome)
    requires a.Acked? && b.Acked?
  {
    a.commit < b.commit || (a.commit == b.commit && a.index < b.index)
  }

  ghost predicate Holds<E>(history: seq<Commit<E>>, number: nat, index: nat, owner: nat, ticket: nat) {
    && 1 <= number <= |history| && index < |history[number - 1].entries|
    && history[number - 1].entries[index].owner == owner
    && history[number - 1].entries[index].ticket == ticket
  }

  /**
    The books of committer `me` balance: a slot of the log holds one of its submissions exactly
    when that submission was acknowledged with the number of that slot, and acknowledgements rise
    in submission order.
  */
  ghost predicate Balanced<E>(me: nat, history: seq<Commit<E>>, results: map<nat, Outcome>) {
    && (forall n: nat, i: nat, t: nat :: Holds(history, n, i, me, t) ==> t in results && results[t] == Acked(n, i))
    && (forall t :: t in results && results[t].Acked? ==> Holds(history, results[t].commit, results[t].index, me, t))
    && (forall t, u :: t in results && u in results && t < u && results[t].Acked? && results[u].Acked?
          ==> Before(results[t], results[u]))
  }

  /** Exactly the tickets of `batch` that are not in `kept` were newly resolved, all as rejected. */
  ghost predicate OnlyRejections<E>(before: map<nat, Outcome>, after: map<nat, Outcome>, batch: seq<Entry<E>>,
      kept: seq<Entry<E>>) {
    && after.Keys == before.Keys + (Tickets(batch) - Tickets(kept))
    && (forall t :: t in before ==> after[t] == before[t])
    && (forall t :: t in after && t !in before ==> after[t] == Rejected)
  }

  /** All of `batch` was newly resolved: `kept[k]` with the k-th answer of the verdict, the others as rejected. */
  ghost predicate Resolved<E>(before: map<nat, Outcome>, after: map<nat, Outcome>, batch: seq<Entry<E>>,
      kept: seq<Entry<E>>, verdict: Verdict) {
    && after.Keys == before.Keys + Tickets(batch)
    && (forall t :: t in before ==> after[t] == before[t])
    && (forall k :: 0 <= k < |kept| ==> kept[k].ticket in after && after[kept[k].ticket] == Answer(verdict, k))
    && (forall t :: t in Tickets(batch) && t !in Tickets(kept) ==> after[t] == Rejected)
  }

  /** Commits of others and outcomes that acknowledge nothing leave the books balanced. */
  lemma {:induction false} BalancedAfterOthers<E>(me: nat, h: seq<Commit<E>>, g: seq<Commit<E>>,
      before: map<nat, Outcome>, after: map<nat, Outcome>)
    requires Balanced(me, h, before) && Foreign(me, h, g)
    requires before.Keys <= after.Keys
    requires forall t :: t in after ==> if t in before then after[t] == before[t] else !after[t].Acked?
    ensures Balanced(me, g, after)
  {
    forall n: nat, i: nat, t: nat | Holds(g, n, i, me, t)
      ensures t in after && after[t] == Acked(n, i)
    {
      assert n <= |h|;
      assert Holds(h, n, i, me, t);
    }
    forall t | t in after && after[t].Acked?
      ensures Holds(g, after[t].commit, after[t].index, me, t)
    {
      assert Holds(h, before[t].commit, before[t].index, me, t);
    }
  }

  /** Winning a commit and acknowledging its slots keeps the books balanced. */
  lemma {:induction false} BalancedAfterWin<E>(me: nat, h: seq<Commit<E>>, commit: Commit<E>, before: map<nat, Outcome>,
      after: map<nat, Outcome>)
    requires Balanced(me, h, before)
    requires commit.number == |h| + 1 && InOrder(me, commit.entries)
    requires after.Keys == before.Keys + Tickets(commit.entries)
    requires forall t :: t in before ==> after[t] == before[t]
    requires forall t, u :: t in before && u in Tickets(commit.entries) ==> t !in Tickets(commit.entries) && (before[t].Acked? ==> t < u)
    requires forall k :: 0 <= k < |commit.entries| ==> commit.entries[k].ticket in after && after[commit.entries[k].ticket] == Acked(commit.number, k)
    ensures Balanced(me, h + [commit], after)
  {
    var g := h + [commit];
    forall n: nat, i: nat, t: nat | Holds(g, n, i, me, t)
      ensures t in after && after[t] == Acked(n, i)
    {
      if n <= |h| {
        assert Holds(h, n, i, me, t);
      }
    }
    forall t | t in after && after[t].Acked?
      ensures Holds(g, after[t].commit, after[t].index, me, t)
    {
      if t in before {
        assert Holds(h, before[t].commit, before[t].index, me, t);
      } else {
        var k :| 0 <= k < |commit.entries| && commit.entries[k].ticket == t;
      }
    }
    forall t, u | t in after && u in after && t < u && after[t].Acked? && after[u].Acked?
      ensures Before(after[t], after[u])
    {
      AcksRise(me, h, commit, before, after, t, u);
    }
  }

  lemma {:induction false} AcksRise<E>(me: nat, h: seq<Commit<E>>, commit: Commit<E>, before: map<nat, Outcome>,
      after: map<nat, Outcome>, t: nat, u: nat)
    requires Balanced(me, h, before)
    requires commit.number == |h| + 1 && InOrder(me, commit.entries)
    requires after.Keys == before.Keys + Tickets(commit.entries)
    requires forall t :: t in before ==> after[t] == before[t]
    requires forall t, u :: t in before && u in Tickets(commit.entries) ==> t !in Tickets(commit.entries) && (before[t].Acked? ==> t < u)
    requires forall k :: 0 <= k < |commit.entries| ==> commit.entries[k].ticket in after && after[commit.entries[k].ticket] == Acked(commit.number, k)
    requires t in after && u in after && t < u && after[t].Acked? && after[u].Acked?
    ensures Before(after[t], after[u])
  {
  }

  lemma {:induction false} TicketsOfPrefix<E>(entries: seq<Entry<E>>, i: nat)
    requires i < |entries|
    ensures Tickets(entries[..i + 1]) == Tickets(entries[..i]) + {entries[i].ticket}
  {
  }

  lemma {:induction false} RejectionsCompose<E>(r0: map<nat, Outcome>, r1: map<nat, Outcome>, r2: map<nat, Outcome>,
      batch: seq<Entry<E>>, kept: seq<Entry<E>>, fewer: seq<Entry<E>>)
    requires OnlyRejections(r0, r1, batch, kept) && OnlyRejections(r1, r2, kept, fewer)
    requires Tickets(fewer) <= Tickets(kept) <= Tickets(batch)
    ensures OnlyRejections(r0, r2, batch, fewer)
  {
  }

  /** How a batch ended, told by the log: which commits the hook was shown, and what it made of them. */
  ghost predicate Told<E>(hook: Option<Hook<E>>, batch: seq<Entry<E>>, first: nat, course: Course<E>,
      history: seq<Commit<E>>, end: BatchEnd) {
    && 1 <= first <= first - 1 + |Shown(course.rounds)| + 1 <= |history| + 1
    && Shown(course.rounds) == history[first - 1..first - 1 + |Shown(course.rounds)|]
    && (if end.HookFailed? then FailsLast(hook, batch, course) else RunsThrough(hook, batch, course))
    && match end
       case BatchWon(n) =>
         && n == first + |Shown(course.rounds)| && n <= |history|
         && course.Last() != [] && history[n - 1] == Commit(n, course.Last())
       case AllRejected => course.Last() == []
       case GaveUp => course.Last() != []
       case HookFailed => true
  }

  /** A batch between two attempts: nothing of it is answered yet, but for what the hook rejected. */
  ghost predicate Underway<E>(me: nat, hook: Option<Hook<E>>, batch: seq<Entry<E>>, pendings: seq<Entry<E>>,
      course: Course<E>, r0: map<nat, Outcome>, r: map<nat, Outcome>) {
    && pendings != [] && InOrder(me, pendings) && Tickets(pendings) <= Tickets(batch)
    && RunsThrough(hook, batch, course) && course.Last() == pendings
    && OnlyRejections(r0, r, batch, pendings)
  }

  /** What a lost race makes of a batch: it fails, ends with nothing left, or stays underway. */
  ghost predicate Reconsidered<E>(me: nat, hook: Option<Hook<E>>, batch: seq<Entry<E>>, course: Course<E>,
      r0: map<nat, Outcome>, r: map<nat, Outcome>, outcome: Option<seq<Entry<E>>>) {
    match outcome
    case None => FailsLast(hook, batch, course) && Answered(batch, course, HookFailed, r0, r)
    case Some(left) =>
      && RunsThrough(hook, batch, course) && course.Last() == left
      && if left == [] then Answered(batch, course, AllRejected, r0, r) else Underway(me, hook, batch, left, course, r0, r)
  }

  lemma {:induction false} BatchBegins<E>(me: nat, hook: Option<Hook<E>>, batch: seq<Entry<E>>, r: map<nat, Outcome>)
    requires batch != [] && InOrder(me, batch)
    ensures Underway(me, hook, batch, batch, Course([], [batch]), r, r)
  {
  }

  lemma {:induction false} NoneAnsweredYet<E>(me: nat, hook: Option<Hook<E>>, batch: seq<Entry<E>>,
      pendings: seq<Entry<E>>, course: Course<E>, r0: map<nat, Outcome>, r: map<nat, Outcome>)
    requires Underway(me, hook, batch, pendings, course, r0, r)
    requires forall t, u :: t in r0 && u in Tickets(batch) ==> t < u
    ensures Tickets(batch) !! r0.Keys && Tickets(pendings) !! r.Keys
  {
  }

  /** What the outcomes of a batch say, given how it ended. */
  ghost predicate Answered<E>(batch: seq<Entry<E>>, course: Course<E>, end: BatchEnd, r0: map<nat, Outcome>,
      r: map<nat, Outcome>) {
    match end
    case BatchWon(n) => Resolved(r0, r, batch, course.Last(), Slots(n))
    case AllRejected => OnlyRejections(r0, r, batch, [])
    case GaveUp => Resolved(r0, r, batch, course.Last(), All(Exhausted))
    case HookFailed => OnlyRejections(r0, r, batch, course.Last())
  }

  lemma {:induction false} ResolveCompletes<E>(batch: seq<Entry<E>>, kept: seq<Entry<E>>, r0: map<nat, Outcome>,
      r1: map<nat, Outcome>, r2: map<nat, Outcome>, verdict: Verdict)
    requires OnlyRejections(r0, r1, batch, kept) && Tickets(kept) <= Tickets(batch)
    requires Tickets(kept) !! r1.Keys && Tickets(batch) !! r0.Keys
    requires r2.Keys == r1.Keys + Tickets(kept)
    requires forall t :: t in r1 ==> r2[t] == r1[t]
    requires forall k :: 0 <= k < |kept| ==> kept[k].ticket in r2 && r2[kept[k].ticket] == Answer(verdict, k)
    ensures Resolved(r0, r2, batch, kept, verdict)
  {
  }

  /** The log grew by commits of others, and by the won commit as the last one if there is one. */
  ghost predicate LogGrew<E>(me: nat, h0: seq<Commit<E>>, h: seq<Commit<E>>, end: BatchEnd) {
    && h0 <= h
    && if end.BatchWon? then end.number == |h| && |h| >= 1 && Foreign(me, h0, h[..|h| - 1]) else Foreign(me, h0, h)
  }

  /** Every submission of the batch has its answer, and no earlier answer changed. */
  ghost predicate Settled<E>(batch: seq<Entry<E>>, course: Course<E>, end: BatchEnd, r0: map<nat, Outcome>,
      r: map<nat, Outcome>) {
    && r.Keys == r0.Keys + Tickets(batch)
    && (forall t :: t in r0 ==> r[t] == r0[t])
    && if end.HookFailed? then Resolved(r0, r, batch, course.Last(), All(Failed)) else Answered(batch, course, end, r0, r)
  }

  /** No slot of the log holds a submission of the batch. */
  ghost predicate NoSlot<E>(me: nat, history: seq<Commit<E>>, batch: seq<Entry<E>>) {
    forall n: nat, i: nat, t: nat :: t in Tickets(batch) ==> !Holds(history, n, i, me, t)
  }

  /** Everything that is known once a batch has ended: in the log, in the books and in its answers. */
  ghost predicate Concluded<E>(me: nat, hook: Option<Hook<E>>, batch: seq<Entry<E>>, first: nat,
      course: Course<E>,
                               h0: seq<Commit<E>>, h: seq<Commit<E>>, r0: map<nat, Outcome>, r: map<nat, Outcome>, end: BatchEnd) {
    && Balanced(me, h, r)
    && Told(hook, batch, first, course, h, end)
    && Answered(batch, course, end, r0, r)
    && LogGrew(me, h0, h, end)
    && (!end.BatchWon? ==> NoSlot(me, h, batch))
  }

  /** The same once all of the batch is answered. */
  ghost predicate BatchEnded<E>(me: nat, hook: Option<Hook<E>>, batch: seq<Entry<E>>, first: nat, course: Course<E>,
      h0: seq<Commit<E>>, h: seq<Commit<E>>, r0: map<nat, Outcome>, r: map<nat, Outcome>, end: BatchEnd) {
    && Told(hook, batch, first, course, h, end) && Settled(batch, course, end, r0, r) && LogGrew(me, h0, h, end)
    && (!end.BatchWon? ==> NoSlot(me, h, batch))
  }

  /** How one round ends: the batch is concluded, or `left` of it goes on, having seen the log to its end. */
  ghost predicate RoundEnded<E>(me: nat, hook: Option<Hook<E>>, batch: seq<Entry<E>>, first: nat,
      course: Course<E>, h0: seq<Commit<E>>, h: seq<Commit<E>>, r0: map<nat, Outcome>, r: map<nat, Outcome>,
      end: Option<BatchEnd>, left: seq<Entry<E>>) {
    match end
    case Some(e) => Concluded(me, hook, batch, first, course, h0, h, r0, r, e) && !e.GaveUp?
    case None =>
      && Underway(me, hook, batch, left, course, r0, r)
      && Foreign(me, h0, h) && 1 <= first <= |h| + 1 && Shown(course.rounds) == h[first - 1..|h|]
  }

  /** A won attempt ends the batch with balanced books. */
  lemma {:induction false} WinConcludes<E>(me: nat, hook: Option<Hook<E>>, batch: seq<Entry<E>>,
      pendings: seq<Entry<E>>, first: nat, course: Course<E>,
                        h0: seq<Commit<E>>, h: seq<Commit<E>>, r0: map<nat, Outcome>, r: map<nat, Outcome>, r': map<nat, Outcome>)
    requires Underway(me, hook, batch, pendings, course, r0, r)
    requires Balanced(me, h0, r0) && |h| >= 1 && Foreign(me, h0, h[..|h| - 1]) && h[|h| - 1] == Commit(|h|, pendings)
    requires forall t, u :: t in r0 && u in Tickets(batch) ==> t < u
    requires 1 <= first <= |h| && Shown(course.rounds) == h[first - 1..|h| - 1]
    requires r'.Keys == r.Keys + Tickets(pendings)
    requires forall t :: t in r ==> r'[t] == r[t]
    requires forall k :: 0 <= k < |pendings| ==> pendings[k].ticket in r' && r'[pendings[k].ticket] == Acked(|h|, k)
    ensures Concluded(me, hook, batch, first, course, h0, h, r0, r', BatchWon(|h|))
  {
    var g := h[..|h| - 1];
    assert h == g + [Commit(|h|, pendings)];
    BalancedAfterOthers(me, h0, g, r0, r);
    BalancedAfterWin(me, g, Commit(|h|, pendings), r, r');
    ResolveCompletes(batch, pendings, r0, r, r', Slots(|h|));
  }

  /** A lost attempt whose hook answered leaves the batch underway, or with nothing left. */
  lemma {:induction false} LossConcludes<E>(me: nat, hook: Option<Hook<E>>, batch: seq<Entry<E>>,
      pendings: seq<Entry<E>>, course: Course<E>, interleaved: seq<Commit<E>>, left: seq<Entry<E>>,
                         r0: map<nat, Outcome>, r: map<nat, Outcome>, r': map<nat, Outcome>)
    requires Underway(me, hook, batch, pendings, course, r0, r)
    requires interleaved != [] && Leaves(hook, pendings, interleaved, left) && OnlyRejections(r, r', pendings, left)
    ensures RunsThrough(hook, batch, course.Next(interleaved, left)) && OnlyRejections(r0, r', batch, left)
    ensures left != [] ==> Underway(me, hook, batch, left, course.Next(interleaved, left), r0, r')
  {
    OneMoreRace(hook, batch, course, interleaved, left);
    LeavesInOrder(me, hook, pendings, interleaved, left);
    RejectionsCompose(r0, r, r', batch, pendings, left);
  }

  lemma {:induction false} LossAcksNothing<E>(batch: seq<Entry<E>>, course: Course<E>,
      r0: map<nat, Outcome>, r: map<nat, Outcome>, end: BatchEnd)
    requires Answered(batch, course, end, r0, r) && !end.BatchWon? && Tickets(batch) !! r0.Keys
    ensures r0.Keys <= r.Keys
    ensures forall t :: t in r ==> if t in r0 then r[t] == r0[t] else !r[t].Acked?
  {
  }

  /** What the log tells of a batch that ends without a win. */
  lemma {:induction false} LossIsTold<E>(hook: Option<Hook<E>>, batch: seq<Entry<E>>, first: nat,
      course: Course<E>, h: seq<Commit<E>>, end: BatchEnd)
    requires 1 <= first <= |h| + 1 && Shown(course.rounds) == h[first - 1..|h|]
    requires if end.HookFailed? then FailsLast(hook, batch, course) else RunsThrough(hook, batch, course)
    requires end == HookFailed || end == if course.Last() == [] then AllRejected else GaveUp
    ensures Told(hook, batch, first, course, h, end)
  {
  }

  lemma {:induction false} UnacknowledgedHaveNoSlot<E>(me: nat, h: seq<Commit<E>>, batch: seq<Entry<E>>,
      r: map<nat, Outcome>)
    requires Balanced(me, h, r) && forall t :: t in Tickets(batch) && t in r ==> !r[t].Acked?
    ensures NoSlot(me, h, batch)
  {
  }

  /** A batch that ends without a win leaves the books balanced: it acknowledged nothing. */
  lemma {:induction false} LossEnds<E>(me: nat, hook: Option<Hook<E>>, batch: seq<Entry<E>>, first: nat,
      course: Course<E>,
                    h0: seq<Commit<E>>, h: seq<Commit<E>>, r0: map<nat, Outcome>, r: map<nat, Outcome>, end: BatchEnd)
    requires Balanced(me, h0, r0) && Foreign(me, h0, h) && Tickets(batch) !! r0.Keys
    requires 1 <= first <= |h| + 1 && Shown(course.rounds) == h[first - 1..|h|]
    requires if end.HookFailed? then FailsLast(hook, batch, course) else RunsThrough(hook, batch, course)
    requires end == HookFailed || end == if course.Last() == [] then AllRejected else GaveUp
    requires Answered(batch, course, end, r0, r)
    ensures Concluded(me, hook, batch, first, course, h0, h, r0, r, end)
  {
    LossAcksNothing(batch, course, r0, r, end);
    LossIsTold(hook, batch, first, course, h, end);
    BalancedAfterOthers(me, h0, h, r0, r);
    UnacknowledgedHaveNoSlot(me, h, batch, r);
  }

  lemma {:induction false} TicketsOfRun<E>(me: nat, batch: seq<Entry<E>>, lo: nat)
    requires forall i :: 0 <= i < |batch| ==> batch[i].owner == me && batch[i].ticket == lo + i
    ensures InOrder(me, batch)
    ensures forall t: nat :: t in Tickets(batch) <==> lo <= t < lo + |batch|
  {
    forall t: nat | lo <= t < lo + |batch|
      ensures t in Tickets(batch)
    {
      assert batch[t - lo].ticket == t;
    }
  }

  lemma {:induction false} ResolvedSoFar<E>(batch: seq<Entry<E>>, top: int, r0: map<nat, Outcome>, r: map<nat, Outcome>)
    requires forall t: nat :: t in r0 <==> t < top - |batch|
    requires forall t: nat :: t in Tickets(batch) <==> top - |batch| <= t < top
    requires r.Keys == r0.Keys + Tickets(batch)
    ensures forall t: nat :: t in r <==> t < top
  {
  }

  lemma {:induction false} PiecesJoin<T>(g: seq<T>, h: seq<T>, lo: nat, hi: nat)
    requires g <= h && lo <= hi <= |g|
    ensures g[lo..hi] == h[lo..hi] && g[lo..hi] + h[hi..] == h[lo..|h|]
  {
  }

  /** What was shown before a won put is still the piece of the log before the won number. */
  lemma {:induction false} WonPiece<E>(me: nat, h0: seq<Commit<E>>, g: seq<Commit<E>>, h: seq<Commit<E>>, first: nat,
      number: nat)
    requires 1 <= first <= number <= |g| + 1 && number == |h|
    requires Foreign(me, h0, g) && Foreign(me, g, h[..number - 1])
    ensures Foreign(me, h0, h[..number - 1]) && h[first - 1..number - 1] == g[first - 1..number - 1]
  {
    ForeignIsTransitive(me, h0, g, h[..number - 1]);
    PiecesJoin(g, h[..number - 1], first - 1, number - 1);
    assert h[..number - 1][first - 1..number - 1] == h[first - 1..number - 1];
  }

  /** What was shown before a lost put and what interleaved make up the log from the first number on. */
  lemma {:induction false} LostPiece<E>(me: nat, h0: seq<Commit<E>>, g: seq<Commit<E>>, h: seq<Commit<E>>, first: nat,
      number: nat)
    requires 1 <= first <= number <= |g| + 1
    requires Foreign(me, h0, g) && Foreign(me, g, h)
    ensures Foreign(me, h0, h) && g[first - 1..number - 1] + h[number - 1..] == h[first - 1..|h|]
  {
    ForeignIsTransitive(me, h0, g, h);
    PiecesJoin(g, h, first - 1, number - 1);
  }

  lemma {:induction false} AnswersAreComplete<E>(batch: seq<Entry<E>>,
      course: Course<E>, end: BatchEnd, r0: map<nat, Outcome>, r: map<nat, Outcome>)
    requires Answered(batch, course, end, r0, r) && !end.HookFailed?
    ensures Settled(batch, course, end, r0, r)
  {
  }

  /** After a failed hook every submission of the batch is answered too: what was pending then fails. */
  lemma {:induction false} HookFailureEnds<E>(me: nat, hook: Option<Hook<E>>, batch: seq<Entry<E>>,
      course: Course<E>, h: seq<Commit<E>>, r0: map<nat, Outcome>, r: map<nat, Outcome>, r': map<nat, Outcome>)
    requires FailsLast(hook, batch, course) && InOrder(me, batch)
    requires Answered(batch, course, HookFailed, r0, r) && Balanced(me, h, r) && Tickets(batch) !! r0.Keys
    requires r'.Keys == r.Keys + Tickets(batch)
    requires forall t :: t in r ==> r'[t] == r[t]
    requires forall t :: t in r' && t !in r ==> r'[t] == Failed
    ensures Settled(batch, course, HookFailed, r0, r') && Balanced(me, h, r')
  {
    var last := |course.rounds| - 1;
    CourseKeepsOrder(me, hook, batch, Course(course.rounds[..last], course.waves), last);
    var kept := course.Last();
    forall k | 0 <= k < |kept|
      ensures kept[k].ticket in r' && r'[kept[k].ticket] == Failed
    {
      assert kept[k].ticket in Tickets(kept);
    }
  }

  /**
    All attempts were lost: `refused` of the puts were rejected without a visible winner, and the others
    met a commit of someone else under the number tried.
  */
  ghost predicate UsedUp(attempts: nat, first: nat, before: nat, now: nat, refused: int) {
    now + refused >= first + attempts - 1 && now + refused >= before + attempts - 1
  }

  class Committer<E> {
    const me: nat
    const bucket: Bucket<E>
    const maxEventsPerCommit: nat
    const maxCommitAttempts: nat
    const tailHint: nat
    const revalidate: Option<Hook<E>>

    var pending: seq<Entry<E>>
    var tail: Option<nat>
    var closed: bool
    var results: map<nat, Outcome>
    var issued: nat

    /** The bucket knows this committer, and its standing there is its own tail. */
    ghost predicate Attached()
      reads this, bucket
    {
      && bucket.Valid()
      && me in bucket.s.clients
      && bucket.s.clients[me] == (if tail.Some? then Warm(tail.value) else Cold(tailHint))
      && 1 <= maxEventsPerCommit <= 100_000
      && 1 <= maxCommitAttempts
    }

    /** The queue holds the last submissions, numbered without a gap. */
    ghost predicate Queued()
      reads this
    {
      && |pending| <= issued
      && forall i :: 0 <= i < |pending| ==> pending[i].owner == me && pending[i].ticket == issued - |pending| + i
    }

    /** Between two batches: every submission is either queued or resolved, and the books balance. */
    ghost predicate Valid()
      reads this, bucket
    {
      && Attached() && Queued()
      && (forall t: nat :: t in results <==> t < issued - |pending|)
      && Balanced(me, bucket.s.history, results)
    }

    /** The other clients have moved on; this committer has not. */
    twostate lemma StillValid()
      requires old(Valid()) && bucket.Valid() && unchanged(this) && Rely(me, old(bucket.s), bucket.s)
      ensures Valid()
    {
      BalancedAfterOthers(me, old(bucket.s.history), bucket.s.history, results, results);
    }

    constructor (me: nat, bucket: Bucket<E>, maxEventsPerCommit: nat, maxCommitAttempts: nat, tailHint: nat, revalidate: Option<Hook<E>>)
      requires bucket.Valid() && Legal(bucket.s, Open(me, tailHint))
      requires 1 <= maxEventsPerCommit <= 100_000 && 1 <= maxCommitAttempts
      requires forall n: nat, i: nat, t: nat :: !Holds(bucket.s.history, n, i, me, t)
      modifies bucket`s
      ensures Valid() && bucket.s == Apply(old(bucket.s), Open(me, tailHint))
      ensures this.me == me && this.bucket == bucket && this.revalidate == revalidate
      ensures this.maxEventsPerCommit == maxEventsPerCommit && this.maxCommitAttempts == maxCommitAttempts
      ensures pending == [] && tail == None && !closed && results == map[] && issued == 0
    {
      this.me := me;
      this.bucket := bucket;
      this.maxEventsPerCommit := maxEventsPerCommit;
      this.maxCommitAttempts := maxCommitAttempts;
      this.tailHint := tailHint;
      this.revalidate := revalidate;
      pending, tail, closed, results, issued := [], None, false, map[], 0;
      new;
      bucket.Enroll(me, tailHint);
    }

    /** Discovers the tail on first use. */
    method NextNumber() returns (number: nat)
      requires Attached()
      modifies this`tail, bucket`s, bucket`budget
      ensures Attached() && tail == Some(number - 1) && number >= 1
      ensures Foreign(me, old(bucket.s.history), bucket.s.history)
      ensures bucket.Horizon() <= old(bucket.Horizon()) && old(bucket.s.floor) <= bucket.s.floor
      ensures old(tail).Some? ==> tail == old(tail)
      ensures old(tail).None? ==> number == |bucket.s.history| + 1
    {
      if tail.None? {
        var commits := bucket.ListCommits(me, tailHint);
        var top := if commits == [] then tailHint else commits[|commits| - 1];
        assert commits != [] ==> top in commits;
        ListedTailIsTop(bucket.s, me, top);
        bucket.Note(me, Discover(me, top));
        tail := Some(top);
      }
      number := tail.value + 1;
    }

    /** Fetches commits from `fromNumber` until a gap, and adopts the last one as the tail. */
    method AdvanceTail(fromNumber: nat) returns (interleaved: seq<Commit<E>>)
      requires Attached() && tail == Some(fromNumber - 1) && fromNumber >= 1
      modifies this`tail, bucket`s, bucket`budget
      ensures Attached() && tail == Some(fromNumber - 1 + |interleaved|)
      ensures Foreign(me, old(bucket.s.history), bucket.s.history)
      ensures bucket.Horizon() <= old(bucket.Horizon()) && old(bucket.s.floor) <= bucket.s.floor
      ensures tail.value == |bucket.s.history|
      ensures interleaved == bucket.s.history[fromNumber - 1..]
    {
      interleaved := bucket.ReadUntilGap(me, fromNumber);
      LiveAboveTail(bucket.s, me, fromNumber + |interleaved|);
      if interleaved != [] {
        var top := fromNumber + |interleaved| - 1;
        LiveAboveTail(bucket.s, me, top);
        bucket.Note(me, Advance(me, top));
        tail := Some(top);
      }
    }

    /** Fails the events the hook rejects and keeps the rest; `None` when the hook raised or miscounted. */
    method ApplyRevalidation(hook: Hook<E>, pendings: seq<Entry<E>>, interleaved: seq<Commit<E>>)
        returns (outcome: Option<seq<Entry<E>>>)
      requires InOrder(me, pendings) && Tickets(pendings) !! results.Keys
      modifies this`results
      ensures outcome.None? <==>
        hook(Events(pendings), interleaved).None? || |hook(Events(pendings), interleaved).value| != |pendings|
      ensures outcome.Some? ==> Leaves(Some(hook), pendings, interleaved, outcome.value)
      ensures outcome.Some? ==> OnlyRejections(old(results), results, pendings, outcome.value)
      ensures outcome.None? ==> results == old(results)
    {
      var events := Events(pendings);
      var decisions := hook(events, interleaved);
      if decisions.None? || |decisions.value| != |events| {
        return None;
      }
      var kept: seq<Entry<E>> := [];
      for i := 0 to |pendings|
        invariant kept == Keep(pendings[..i], decisions.value[..i])
        invariant Tickets(kept) <= Tickets(pendings[..i])
        invariant OnlyRejections(old(results), results, pendings[..i], kept)
      {
        assert pendings[..i + 1][..i] == pendings[..i];
        assert decisions.value[..i + 1][..i] == decisions.value[..i];
        TicketsOfPrefix(pendings, i);
        if decisions.value[i].None? {
          results := results[pendings[i].ticket := Rejected];
        } else {
          var decided := pendings[i].(event := decisions.value[i].value);
          assert (kept + [decided])[..|kept|] == kept;
          TicketsOfPrefix(kept + [decided], |kept|);
          assert (kept + [decided])[..|kept| + 1] == kept + [decided];
          kept := kept + [decided];
        }
      }
      assert pendings[..|pendings|] == pendings && decisions.value[..|pendings|] == decisions.value;
      outcome := Some(kept);
    }

    /** Resolves the futures of `pendings`, the k-th one with the k-th answer. */
    method ResolveAll(pendings: seq<Entry<E>>, verdict: Verdict)
      requires InOrder(me, pendings) && Tickets(pendings) !! results.Keys
      modifies this`results
      ensures results.Keys == old(results).Keys + Tickets(pendings)
      ensures forall t :: t in old(results) ==> results[t] == old(results)[t]
      ensures forall k :: 0 <= k < |pendings| ==> pendings[k].ticket in results && results[pendings[k].ticket] == Answer(verdict, k)
    {
      for index := 0 to |pendings|
        invariant results.Keys == old(results).Keys + Tickets(pendings[..index])
        invariant forall t :: t in old(results) ==> results[t] == old(results)[t]
        invariant forall k :: 0 <= k < index ==> pendings[k].ticket in results && results[pendings[k].ticket] == Answer(verdict, k)
      {
        TicketsOfPrefix(pendings, index);
        results := results[pendings[index].ticket := Answer(verdict, index)];
      }
      assert pendings[..|pendings|] == pendings;
    }

    /** The conditional put of the number after the tail; a won number becomes the tail. */
    method PutNext(pendings: seq<Entry<E>>, number: nat) returns (won: bool)
      requires Attached() && tail == Some(number - 1) && number >= 1 && pendings != [] && InOrder(me, pendings)
      modifies this`tail, bucket
      ensures Attached() && old(bucket.s.floor) <= bucket.s.floor && bucket.puts == old(bucket.puts) + 1
      ensures won ==>
        && bucket.Horizon() <= old(bucket.Horizon()) + 1 && tail == Some(number)
        && |bucket.s.history| == number && bucket.s.history[number - 1] == Commit(number, pendings)
        && Foreign(me, old(bucket.s.history), bucket.s.history[..number - 1])
      ensures !won ==>
        tail == old(tail) && bucket.Horizon() <= old(bucket.Horizon()) && Foreign(me, old(bucket.s.history), bucket.s.history)
      ensures bucket.phantoms >= old(bucket.phantoms)
      ensures !won && bucket.phantoms == old(bucket.phantoms) ==> number <= |bucket.s.history|
    {
      ghost var seen;
      won, seen := bucket.PutCommit(me, Commit(number, pendings));
      if won {
        WinIsNext(seen, me, Commit(number, pendings));
        tail := Some(number);
        assert bucket.s.history == seen.history + [Commit(number, pendings)];
        assert bucket.s.history[..number - 1] == seen.history;
      }
    }

    /**
      One attempt: the put of the next number and, when it is lost, the advance past the winners.
      A won number is the one right after everything others have committed so far.
    */
    method Attempt(pendings: seq<Entry<E>>) returns (won: bool, number: nat, interleaved: seq<Commit<E>>)
      requires Attached() && tail.Some? && pendings != [] && InOrder(me, pendings)
      modifies this`tail, bucket
      ensures Attached() && bucket.Horizon() <= old(bucket.Horizon()) + 1 && old(bucket.s.floor) <= bucket.s.floor
      ensures number == old(tail).value + 1 && tail == Some(|bucket.s.history|) && bucket.puts == old(bucket.puts) + 1
      ensures won ==>
        && |bucket.s.history| == number && bucket.s.history[number - 1] == Commit(number, pendings)
        && Foreign(me, old(bucket.s.history), bucket.s.history[..number - 1])
      ensures !won ==>
        && bucket.Horizon() <= old(bucket.Horizon())
        && Foreign(me, old(bucket.s.history), bucket.s.history)
        && number - 1 <= |bucket.s.history| && interleaved == bucket.s.history[number - 1..]
      ensures bucket.phantoms >= old(bucket.phantoms)
      ensures !won && bucket.phantoms == old(bucket.phantoms) ==> number <= |bucket.s.history|
    {
      interleaved := [];
      number := NextNumber();
      won := PutNext(pendings, number);
      if !won {
        interleaved := AdvanceTail(number);
      }
    }

    /** The hook is asked; the batch goes on with what it keeps, unless nothing is kept or the hook fails. */
    method AskHook(batch: seq<Entry<E>>, pendings: seq<Entry<E>>, interleaved: seq<Commit<E>>, hook: Hook<E>,
        ghost course: Course<E>, ghost r0: map<nat, Outcome>)
      returns (outcome: Option<seq<Entry<E>>>, ghost course': Course<E>)
      requires Underway(me, revalidate, batch, pendings, course, r0, results)
      requires Tickets(pendings) !! results.Keys && revalidate == Some(hook) && interleaved != []
      modifies this`results
      ensures course'.rounds == course.rounds + [interleaved]
      ensures Reconsidered(me, revalidate, batch, course', r0, results, outcome)
    {
      ghost var r := results;
      outcome := ApplyRevalidation(hook, pendings, interleaved);
      if outcome.None? {
        OneMoreRace(revalidate, batch, course, interleaved, pendings);
        return None, course.Stop(interleaved);
      }
      LossConcludes(me, revalidate, batch, pendings, course, interleaved, outcome.value, r0, r, results);
      course' := course.Next(interleaved, outcome.value);
    }

    /** One lost race: without a hook, or when nothing interleaved, the batch goes on as it is. */
    method Reconsider(batch: seq<Entry<E>>, pendings: seq<Entry<E>>, interleaved: seq<Commit<E>>,
        ghost course: Course<E>, ghost r0: map<nat, Outcome>)
      returns (outcome: Option<seq<Entry<E>>>, ghost course': Course<E>)
      requires Underway(me, revalidate, batch, pendings, course, r0, results)
      requires Tickets(pendings) !! results.Keys
      modifies this`results
      ensures Shown(course'.rounds) == Shown(course.rounds) + interleaved
      ensures Reconsidered(me, revalidate, batch, course', r0, results, outcome)
    {
      if interleaved == [] {
        return Some(pendings), course;
      }
      OneMoreRace(revalidate, batch, course, interleaved, pendings);
      if revalidate.None? {
        return Some(pendings), course.Next(interleaved, pendings);
      }
      outcome, course' := AskHook(batch, pendings, interleaved, revalidate.value, course, r0);
    }

    /** The put was won: acknowledge the slots. */
    method Acknowledge(batch: seq<Entry<E>>, pendings: seq<Entry<E>>, ghost first: nat,
        ghost course: Course<E>,
        ghost h0: seq<Commit<E>>, ghost g: seq<Commit<E>>, ghost h: seq<Commit<E>>, number: nat,
        ghost r0: map<nat, Outcome>)
      requires Underway(me, revalidate, batch, pendings, course, r0, results)
      requires Balanced(me, h0, r0)
      requires forall t, u :: t in r0 && u in Tickets(batch) ==> t < u
      requires 1 <= first <= number == |h| && number <= |g| + 1 && h[number - 1] == Commit(number, pendings)
      requires Foreign(me, h0, g) && Foreign(me, g, h[..number - 1]) && Shown(course.rounds) == g[first - 1..number - 1]
      modifies this`results
      ensures Concluded(me, revalidate, batch, first, course, h0, h, r0, results, BatchWon(number))
    {
      ghost var r := results;
      WonPiece(me, h0, g, h, first, number);
      ResolveAll(pendings, Slots(number));
      WinConcludes(me, revalidate, batch, pendings, first, course, h0, h, r0, r, results);
    }

    /** The put was lost: reconsider, and stop when nothing is left to commit. */
    method AfterLoss(batch: seq<Entry<E>>, pendings: seq<Entry<E>>, interleaved: seq<Commit<E>>, ghost first: nat,
        ghost course: Course<E>,
        ghost h0: seq<Commit<E>>, ghost g: seq<Commit<E>>, ghost h: seq<Commit<E>>, ghost number: nat,
        ghost r0: map<nat, Outcome>)
      returns (end: Option<BatchEnd>, left: seq<Entry<E>>, ghost course': Course<E>)
      requires Underway(me, revalidate, batch, pendings, course, r0, results)
      requires Balanced(me, h0, r0) && Foreign(me, h0, g) && Foreign(me, g, h)
      requires forall t, u :: t in r0 && u in Tickets(batch) ==> t < u
      requires 1 <= first <= number <= |g| + 1
      requires Shown(course.rounds) == g[first - 1..number - 1] && interleaved == h[number - 1..]
      modifies this`results
      ensures RoundEnded(me, revalidate, batch, first, course', h0, h, r0, results, end, left)
    {
      LostPiece(me, h0, g, h, first, number);
      NoneAnsweredYet(me, revalidate, batch, pendings, course, r0, results);
      var outcome;
      outcome, course' := Reconsider(batch, pendings, interleaved, course, r0);
      if outcome.Some? && outcome.value != [] {
        return None, outcome.value, course';
      }
      var e := if outcome.None? then HookFailed else AllRejected;
      LossEnds(me, revalidate, batch, first, course', h0, h, r0, results, e);
      return Some(e), [], course';
    }

    /** The answers if the put was won, the hook if it was lost. */
    method AfterAttempt(won: bool, batch: seq<Entry<E>>, pendings: seq<Entry<E>>, interleaved: seq<Commit<E>>,
        ghost first: nat, ghost course: Course<E>,
        ghost h0: seq<Commit<E>>, ghost g: seq<Commit<E>>, ghost h: seq<Commit<E>>, number: nat,
        ghost r0: map<nat, Outcome>)
      returns (end: Option<BatchEnd>, left: seq<Entry<E>>, ghost course': Course<E>)
      requires Underway(me, revalidate, batch, pendings, course, r0, results)
      requires Balanced(me, h0, r0) && Foreign(me, h0, g)
      requires forall t, u :: t in r0 && u in Tickets(batch) ==> t < u
      requires 1 <= first <= number <= |g| + 1 && Shown(course.rounds) == g[first - 1..number - 1]
      requires won ==> number == |h| && h[number - 1] == Commit(number, pendings) && Foreign(me, g, h[..number - 1])
      requires !won ==> Foreign(me, g, h) && number - 1 <= |h| && interleaved == h[number - 1..]
      modifies this`results
      ensures RoundEnded(me, revalidate, batch, first, course', h0, h, r0, results, end, left) && (won ==> end.Some?)
    {
      if won {
        Acknowledge(batch, pendings, first, course, h0, g, h, number, r0);
        return Some(BatchWon(number)), [], course;
      }
      end, left, course' := AfterLoss(batch, pendings, interleaved, first, course, h0, g, h, number, r0);
    }

    /** One round of the protocol: an attempt, then the answers if it won, or the hook if it lost. */
    method Round(batch: seq<Entry<E>>, pendings: seq<Entry<E>>, ghost first: nat, ghost course: Course<E>,
                 ghost h0: seq<Commit<E>>, ghost r0: map<nat, Outcome>)
      returns (end: Option<BatchEnd>, left: seq<Entry<E>>, ghost course': Course<E>)
      requires Attached() && tail.Some? && 1 <= first <= tail.value + 1
      requires Shown(course.rounds) == bucket.s.history[first - 1..tail.value]
      requires Underway(me, revalidate, batch, pendings, course, r0, results)
      requires Balanced(me, h0, r0) && Foreign(me, h0, bucket.s.history)
      requires forall t, u :: t in r0 && u in Tickets(batch) ==> t < u
      modifies this`tail, this`results, bucket
      ensures Attached() && tail == Some(|bucket.s.history|) && bucket.Horizon() <= old(bucket.Horizon()) + 1 && old(bucket.s.floor) <= bucket.s.floor
      ensures RoundEnded(me, revalidate, batch, first, course', h0, bucket.s.history, r0, results, end, left)
      ensures end.None? ==> bucket.Horizon() <= old(bucket.Horizon())
      ensures bucket.puts == old(bucket.puts) + 1
      ensures bucket.phantoms >= old(bucket.phantoms)
      ensures end.None? ==> |bucket.s.history| + bucket.phantoms > old(tail).value + old(bucket.phantoms)
    {
      var won, number, interleaved := Attempt(pendings);
      ghost var g, h := old(bucket.s.history), bucket.s.history;
      end, left, course' := AfterAttempt(won, batch, pendings, interleaved, first, course, h0, g, h, number, r0);
    }

    /** The attempts are used up: what is left of the batch fails. */
    method GiveUp(batch: seq<Entry<E>>, pendings: seq<Entry<E>>, ghost first: nat, ghost course: Course<E>,
                  ghost h0: seq<Commit<E>>, ghost r0: map<nat, Outcome>)
      requires Underway(me, revalidate, batch, pendings, course, r0, results)
      requires Balanced(me, h0, r0) && Foreign(me, h0, bucket.s.history)
      requires forall t, u :: t in r0 && u in Tickets(batch) ==> t < u
      requires tail == Some(|bucket.s.history|) && 1 <= first <= |bucket.s.history| + 1
      requires Shown(course.rounds) == bucket.s.history[first - 1..tail.value]
      modifies this`results
      ensures Concluded(me, revalidate, batch, first, course, h0, bucket.s.history, r0, results, GaveUp)
    {
      ghost var r := results;
      NoneAnsweredYet(me, revalidate, batch, pendings, course, r0, r);
      ResolveAll(pendings, All(Exhausted));
      ResolveCompletes(batch, pendings, r0, r, results, All(Exhausted));
      LossEnds(me, revalidate, batch, first, course, h0, bucket.s.history, r0, results, GaveUp);
    }

    /**
      The commit protocol for one batch: put, and after a lost race advance past the winners,
      revalidate and retry, until the batch wins, empties or runs out of attempts.

      `first` is the first number tried and `course` is what the batch went through, race by race.
      Giving up means that every attempt was lost: others won the number tried, or the put was rejected
      without a visible winner. In the former case at least `maxCommitAttempts - 1` commits of others
      landed meanwhile.
    */
    method CommitBatch(batch: seq<Entry<E>>)
        returns (end: BatchEnd, ghost first: nat, ghost course: Course<E>)
      requires Attached() && Balanced(me, bucket.s.history, results)
      requires batch != [] && InOrder(me, batch)
      requires forall t, u :: t in results && u in Tickets(batch) ==> t < u
      modifies this`tail, this`results, bucket
      ensures Attached() && tail == Some(|bucket.s.history|) && bucket.Horizon() <= old(bucket.Horizon()) + 1 && old(bucket.s.floor) <= bucket.s.floor
      ensures if old(tail).Some? then first == old(tail).value + 1 else first > |old(bucket.s.history)|
      ensures Concluded(me, revalidate, batch, first, course, old(bucket.s.history), bucket.s.history, old(results), results, end)
      ensures bucket.puts <= old(bucket.puts) + maxCommitAttempts
      ensures end.GaveUp? ==> bucket.puts == old(bucket.puts) + maxCommitAttempts
      ensures end.GaveUp? ==>
        UsedUp(maxCommitAttempts, first, |old(bucket.s.history)|, |bucket.s.history|, bucket.phantoms - old(bucket.phantoms))
    {
      ghost var h0, r0 := bucket.s.history, results;
      BatchBegins(me, revalidate, batch, results);
      first := NextNumber();
      var pendings := batch;
      course := Course([], [batch]);
      var attempt := 1;
      while attempt <= maxCommitAttempts
        invariant 1 <= attempt <= maxCommitAttempts + 1
        invariant Attached() && Foreign(me, h0, bucket.s.history) && bucket.Horizon() <= old(bucket.Horizon()) && old(bucket.s.floor) <= bucket.s.floor
        invariant Underway(me, revalidate, batch, pendings, course, r0, results)
        invariant tail.Some? && 1 <= first <= tail.value + 1 <= |bucket.s.history| + 1
        invariant Shown(course.rounds) == bucket.s.history[first - 1..tail.value]
        invariant attempt > 1 ==> tail.value == |bucket.s.history|
        invariant bucket.phantoms >= old(bucket.phantoms) && bucket.puts == old(bucket.puts) + attempt - 1
        invariant attempt > 1 ==> |bucket.s.history| + bucket.phantoms - old(bucket.phantoms) >= |h0| + attempt - 2
        invariant tail.value + bucket.phantoms - old(bucket.phantoms) >= first + attempt - 2
      {
        var over, left;
        over, left, course := Round(batch, pendings, first, course, h0, r0);
        if over.Some? {
          end := over.value;
          return;
        }
        pendings := left;
        attempt := attempt + 1;
      }
      GiveUp(batch, pendings, first, course, h0, r0);
      end := GaveUp;
    }

    /** append_many up to the await: the events are queued in order, unless the committer is closed. */
    method AppendMany(events: seq<E>) returns (tickets: Option<seq<nat>>)
      requires Valid()
      modifies this`pending, this`issued
      ensures Valid()
      ensures tickets.None? <==> closed
      ensures closed ==> pending == old(pending) && issued == old(issued)
      ensures !closed ==>
        && issued == old(issued) + |events|
        && |tickets.value| == |events| && |pending| == |old(pending)| + |events| && old(pending) <= pending
        && (forall i :: 0 <= i < |events| ==> tickets.value[i] == old(issued) + i)
        && (forall i :: 0 <= i < |events| ==> pending[|old(pending)| + i] == Entry(me, old(issued) + i, events[i]))
    {
      if closed {
        return None;
      }
      var queued: seq<nat> := [];
      for k := 0 to |events|
        invariant Valid()
        invariant issued == old(issued) + k
        invariant |queued| == k && |pending| == |old(pending)| + k && old(pending) <= pending
        invariant forall i :: 0 <= i < k ==> queued[i] == old(issued) + i
        invariant forall i :: 0 <= i < k ==> pending[|old(pending)| + i] == Entry(me, old(issued) + i, events[i])
      {
        queued := queued + [issued];
        pending := pending + [Entry(me, issued, events[k])];
        issued := issued + 1;
      }
      tickets := Some(queued);
    }

    /** The flusher survives a hook that fails: futures of the batch that are still open get the error. */
    method FailRest(batch: seq<Entry<E>>)
      modifies this`results
      ensures results.Keys == old(results).Keys + Tickets(batch)
      ensures forall t :: t in old(results) ==> results[t] == old(results)[t]
      ensures forall t :: t in results && t !in old(results) ==> results[t] == Failed
    {
      for i := 0 to |batch|
        invariant results.Keys == old(results).Keys + Tickets(batch[..i])
        invariant forall t :: t in old(results) ==> results[t] == old(results)[t]
        invariant forall t :: t in results && t !in old(results) ==> results[t] == Failed
      {
        TicketsOfPrefix(batch, i);
        if batch[i].ticket !in results {
          results := results[batch[i].ticket := Failed];
        }
      }
      assert batch[..|batch|] == batch;
    }

    /** The oldest submissions, at most `maxEventsPerCommit` of them, leave the queue. */
    method TakeBatch() returns (batch: seq<Entry<E>>)
      requires Valid() && pending != []
      modifies this`pending
      ensures Attached() && Queued()
      ensures batch != [] && |batch| <= maxEventsPerCommit && old(pending) == batch + pending
      ensures pending == [] || |batch| == maxEventsPerCommit
      ensures InOrder(me, batch)
      ensures forall t: nat :: t in Tickets(batch) <==> issued - |pending| - |batch| <= t < issued - |pending|
    {
      var take := if |pending| <= maxEventsPerCommit then |pending| else maxEventsPerCommit;
      batch := pending[..take];
      pending := pending[take..];
      TicketsOfRun(me, batch, issued - |pending| - |batch|);
    }

    /** After the batch: a failed hook may have left submissions without an answer. */
    method Settle(batch: seq<Entry<E>>, ghost course: Course<E>, end: BatchEnd, ghost r0: map<nat, Outcome>)
      requires InOrder(me, batch) && (end.HookFailed? ==> FailsLast(revalidate, batch, course))
      requires Balanced(me, bucket.s.history, results) && Answered(batch, course, end, r0, results)
      requires forall t, u :: t in r0 && u in Tickets(batch) ==> t < u
      modifies this`results
      ensures Balanced(me, bucket.s.history, results) && Settled(batch, course, end, r0, results)
    {
      if end.HookFailed? {
        ghost var r := results;
        FailRest(batch);
        HookFailureEnds(me, revalidate, batch, course, bucket.s.history, r0, r, results);
      } else {
        AnswersAreComplete(batch, course, end, r0, results);
      }
    }

    /** The commit protocol for one batch, after which each of its submissions has its answer. */
    method CommitAndSettle(batch: seq<Entry<E>>)
        returns (end: BatchEnd, ghost first: nat, ghost course: Course<E>)
      requires Attached() && Balanced(me, bucket.s.history, results)
      requires batch != [] && InOrder(me, batch)
      requires forall t, u :: t in results && u in Tickets(batch) ==> t < u
      modifies this`tail, this`results, bucket
      ensures Attached() && tail == Some(|bucket.s.history|) && bucket.Horizon() <= old(bucket.Horizon()) + 1 && old(bucket.s.floor) <= bucket.s.floor
      ensures if old(tail).Some? then first == old(tail).value + 1 else first > |old(bucket.s.history)|
      ensures Balanced(me, bucket.s.history, results)
      ensures BatchEnded(me, revalidate, batch, first, course, old(bucket.s.history), bucket.s.history, old(results), results, end)
      ensures bucket.puts <= old(bucket.puts) + maxCommitAttempts
      ensures end.GaveUp? ==> bucket.puts == old(bucket.puts) + maxCommitAttempts
      ensures end.GaveUp? ==>
        UsedUp(maxCommitAttempts, first, |old(bucket.s.history)|, |bucket.s.history|, bucket.phantoms - old(bucket.phantoms))
    {
      end, first, course := CommitBatch(batch);
      Settle(batch, course, end, old(results));
    }

    /**
      One turn of the flusher: takes a batch and runs the commit protocol for it. Whatever a failing
      hook leaves unanswered is failed here.
    */
    method Flush()
        returns (end: BatchEnd, ghost batch: seq<Entry<E>>, ghost first: nat, ghost course: Course<E>)
      requires Valid() && pending != []
      modifies this`pending, this`tail, this`results, bucket
      ensures Valid() && tail == Some(|bucket.s.history|) && bucket.Horizon() <= old(bucket.Horizon()) + 1 && old(bucket.s.floor) <= bucket.s.floor
      ensures batch != [] && |batch| <= maxEventsPerCommit && old(pending) == batch + pending
      ensures pending == [] || |batch| == maxEventsPerCommit
      ensures if old(tail).Some? then first == old(tail).value + 1 else first > |old(bucket.s.history)|
      ensures BatchEnded(me, revalidate, batch, first, course, old(bucket.s.history), bucket.s.history, old(results), results, end)
      ensures bucket.puts <= old(bucket.puts) + maxCommitAttempts
      ensures end.GaveUp? ==> bucket.puts == old(bucket.puts) + maxCommitAttempts
      ensures end.GaveUp? ==>
        UsedUp(maxCommitAttempts, first, |old(bucket.s.history)|, |bucket.s.history|, bucket.phantoms - old(bucket.phantoms))
    {
      var taken := TakeBatch();
      batch := taken;
      end, first, course := CommitAndSettle(taken);
      ResolvedSoFar(batch, issued - |pending|, old(results), results);
    }

    /** Other coroutines of the process run while the flusher awaits: they submit, and may close. */
    method OtherCoroutines()
      requires Valid()
      modifies this`pending, this`issued, this`closed
      ensures Valid() && old(pending) <= pending && old(issued) <= issued && issued - |pending| == old(issued - |pending|)
      ensures old(closed) ==> closed && pending == old(pending) && issued == old(issued)
    {
      var calls: seq<seq<E>> := *;
      for i := 0 to |calls|
        invariant Valid() && old(pending) <= pending && old(issued) <= issued && issued - |pending| == old(issued - |pending|)
        invariant closed == old(closed)
        invariant old(closed) ==> pending == old(pending) && issued == old(issued)
      {
        var _ := AppendMany(calls[i]);
      }
      var closing: bool := *;
      closed := closed || closing;
    }

    /**
      `turns` turns of the flusher, with any submissions arriving in between. No future is ever
      resolved twice, after every turn the books balance (`Valid`), and whatever arrives later, what was
      queued at first has its answers after as many turns.
    */
    method Run(turns: nat)
      requires Valid()
      modifies this`pending, this`issued, this`closed, this`tail, this`results, bucket
      ensures Valid() && old(issued) <= issued && old(bucket.s.history) <= bucket.s.history
      ensures forall t :: t in old(results) ==> t in results && results[t] == old(results)[t]
      ensures old(|pending|) <= turns ==> forall t: nat :: t < old(issued) ==> t in results
    {
      for i := 0 to turns
        invariant Valid() && old(issued) <= issued && old(bucket.s.history) <= bucket.s.history
        invariant issued - |pending| >= old(issued) || issued - |pending| >= old(issued - |pending|) + i
        invariant forall t :: t in old(results) ==> t in results && results[t] == old(results)[t]
      {
        OtherCoroutines();
        if pending != [] {
          var _, _, _, _ := Flush();
        }
      }
    }

    /** Drains what is pending, then stops: every submission ever made has been answered. */
    method Close()
      requires Valid()
      modifies this`pending, this`closed, this`tail, this`results, bucket
      ensures Valid() && closed && pending == [] && issued == old(issued)
      ensures forall t: nat :: t in results <==> t < issued
      ensures forall t :: t in old(results) ==> results[t] == old(results)[t]
      ensures old(bucket.s.history) <= bucket.s.history
    {
      closed := true;
      while pending != []
        invariant Valid() && closed && issued == old(issued)
        invariant forall t :: t in old(results) ==> t in results && results[t] == old(results)[t]
        invariant old(bucket.s.history) <= bucket.s.history
        decreases |pending|
      {
        var _, _, _, _ := Flush();
      }
    }
  }
}
