/**
  The commit log as a transition system, for any number of committers.

  A state holds what the bucket stores (`live`) together with the bookkeeping
  that the theorems speak about: every commit that was ever accepted
  (`history[n-1]` is commit `n`, and it is never removed), the prune point
  (`floor`), and what each open committer believes the tail to be.
  Every step is one atomic storage call of one client.
*/
module LogProtocol {
  /** A submission: `ticket` numbers the submissions of one committer, so equal events stay apart. */
  datatype Entry<+E> = Entry(owner: nat, ticket: nat, event: E)

  datatype Commit<+E> = Commit(number: nat, entries: seq<Entry<E>>)

  /** A committer starts cold, with its `tail_hint`, and turns warm when it lists the tail. */
  datatype Standing = Cold(hint: nat) | Warm(tail: nat)

  datatype State<+E> = State(
    history: seq<Commit<E>>,
    live: map<nat, Commit<E>>,
    floor: nat,
    clients: map<nat, Standing>)

  datatype Step<+E> =
    | Open(who: nat, hint: nat)
    | Discover(who: nat, tail: nat)
    | Win(who: nat, commit: Commit<E>)
    | Advance(who: nat, upTo: nat)
    | RaiseFloor(to: nat)
    | Erase(number: nat)

  function Empty<E>(): State<E> {
    State([], map[], 0, map[])
  }

  /** `tail` is the maximum of the listed numbers above `hint`, or `hint` when none is listed. */
  predicate IsListedTail<E>(live: map<nat, Commit<E>>, hint: nat, tail: nat) {
    && (tail == hint || (tail > hint && tail in live))
    && (forall n :: n in live ==> n <= tail || n <= hint)
  }

  /** No client loses sight of the log when everything up to `to` may be deleted. */
  predicate PruneSpares(who: Standing, to: nat, top: nat) {
    match who
    case Warm(tail) => to <= tail
    case Cold(hint) => to < top || to <= hint
  }

  predicate Legal<E>(s: State<E>, step: Step<E>) {
    match step
    case Open(who, hint) =>
      who !in s.clients && hint <= |s.history| && PruneSpares(Cold(hint), s.floor, |s.history|)
    case Discover(who, tail) =>
      who in s.clients && s.clients[who].Cold? && IsListedTail(s.live, s.clients[who].hint, tail)
    case Win(who, commit) =>
      && commit.number >= 1 && who in s.clients && s.clients[who] == Warm(commit.number - 1)
      && commit.number !in s.live
      && commit.entries != []
      && forall i :: 0 <= i < |commit.entries| ==> commit.entries[i].owner == who
    case Advance(who, upTo) =>
      && who in s.clients && s.clients[who].Warm? && s.clients[who].tail <= upTo
      && upTo in s.live
    case RaiseFloor(to) =>
      && s.floor <= to <= |s.history|
      && forall c :: c in s.clients ==> PruneSpares(s.clients[c], to, |s.history|)
    case Erase(number) => number <= s.floor
  }

  function Apply<E>(s: State<E>, step: Step<E>): State<E> {
    match step
    case Open(who, hint) => s.(clients := s.clients[who := Cold(hint)])
    case Discover(who, tail) => s.(clients := s.clients[who := Warm(tail)])
    case Win(who, commit) =>
      s.(history := s.history + [commit],
         live := s.live[commit.number := commit],
         clients := s.clients[who := Warm(commit.number)])
    case Advance(who, upTo) => s.(clients := s.clients[who := Warm(upTo)])
    case RaiseFloor(to) => s.(floor := to)
    case Erase(number) => s.(live := s.live - {number})
  }

  predicate LegalRun<E>(s: State<E>, steps: seq<Step<E>>)
    decreases |steps|
  {
    steps == [] || (Legal(s, steps[0]) && LegalRun(Apply(s, steps[0]), steps[1..]))
  }

  function Run<E>(s: State<E>, steps: seq<Step<E>>): State<E>
    decreases |steps|
  {
    if steps == [] then s else Run(Apply(s, steps[0]), steps[1..])
  }

  /** No number is used twice or left out, and no commit is empty. */
  ghost predicate Numbered<E>(history: seq<Commit<E>>) {
    forall i :: 0 <= i < |history| ==> history[i].number == i + 1 && history[i].entries != []
  }

  /**
    The log is dense and immutable: commit `n` of the history carries number `n`, the bucket
    holds nothing but history, it holds every number above the prune point, and no open
    committer believes in a commit that does not exist or is about to be pruned.
  */
  ghost predicate Dense<E>(s: State<E>) {
    && Numbered(s.history)
    && (forall n :: n in s.live ==> 1 <= n <= |s.history| && s.live[n] == s.history[n - 1])
    && (forall n :: s.floor < n <= |s.history| ==> n in s.live)
    && s.floor <= |s.history|
    && (forall c :: c in s.clients ==>
          && PruneSpares(s.clients[c], s.floor, |s.history|)
          && (s.clients[c].Warm? ==> s.clients[c].tail <= |s.history|)
          && (s.clients[c].Cold? ==> s.clients[c].hint <= |s.history|))
  }

  /** A put-if-absent can only ever be won for the number right after the last commit. */
  lemma {:induction false} WinIsNext<E>(s: State<E>, who: nat, commit: Commit<E>)
    requires Dense(s) && Legal(s, Win(who, commit))
    ensures commit.number == |s.history| + 1
  {
  }

  /** Listing above a hint finds the real tail, whatever has been pruned. */
  lemma {:induction false} ListedTailIsTop<E>(s: State<E>, who: nat, tail: nat)
    requires Dense(s) && Legal(s, Discover(who, tail))
    ensures tail == |s.history|
  {
    var hint := s.clients[who].hint;
    assert PruneSpares(Cold(hint), s.floor, |s.history|);
    if s.floor < |s.history| {
      assert |s.history| in s.live;
    }
  }

  /** A number above a client's tail is live exactly when it exists. */
  lemma {:induction false} LiveAboveTail<E>(s: State<E>, who: nat, number: nat)
    requires Dense(s) && who in s.clients && s.clients[who].Warm? && s.clients[who].tail < number
    ensures number in s.live <==> number <= |s.history|
    ensures number in s.live ==> s.live[number] == s.history[number - 1]
  {
  }

  lemma {:induction false} WinKeepsDense<E>(s: State<E>, who: nat, commit: Commit<E>)
    requires Dense(s) && Legal(s, Win(who, commit))
    ensures Dense(Apply(s, Win(who, commit)))
  {
  }

  lemma {:induction false} RaiseFloorKeepsDense<E>(s: State<E>, to: nat)
    requires Dense(s) && Legal(s, RaiseFloor(to))
    ensures Dense(Apply(s, RaiseFloor(to)))
  {
  }

  lemma {:induction false} EraseKeepsDense<E>(s: State<E>, number: nat)
    requires Dense(s) && Legal(s, Erase(number))
    ensures Dense(Apply(s, Erase(number)))
  {
  }

  lemma {:induction false} StepKeepsDense<E>(s: State<E>, step: Step<E>)
    requires Dense(s) && Legal(s, step)
    ensures Dense(Apply(s, step))
  {
    match step
    case Open(who, hint) =>
    case Discover(who, tail) => ListedTailIsTop(s, who, tail);
    case Win(who, commit) => WinKeepsDense(s, who, commit);
    case Advance(who, upTo) =>
    case RaiseFloor(to) => RaiseFloorKeepsDense(s, to);
    case Erase(number) => EraseKeepsDense(s, number);
  }

  /** What no step undoes: history is only extended, tails and the prune point never fall. */
  ghost predicate Onward<E>(s: State<E>, t: State<E>) {
    && s.history <= t.history
    && s.floor <= t.floor
    && forall c :: c in s.clients ==>
         && c in t.clients
         && (s.clients[c].Warm? ==> t.clients[c].Warm? && s.clients[c].tail <= t.clients[c].tail)
  }

  lemma {:induction false} StepIsOnward<E>(s: State<E>, step: Step<E>)
    requires Dense(s) && Legal(s, step)
    ensures Onward(s, Apply(s, step))
  {
  }

  /**
    Every run of any number of committers, prunes and deletions keeps the log dense, keeps every
    accepted commit under its number for ever, and never moves a known tail back.
  */
  lemma {:induction false} EveryRunIsDense<E>(s: State<E>, steps: seq<Step<E>>)
    requires Dense(s) && LegalRun(s, steps)
    ensures Dense(Run(s, steps))
    ensures Onward(s, Run(s, steps))
    decreases |steps|
  {
    if steps != [] {
      StepKeepsDense(s, steps[0]);
      StepIsOnward(s, steps[0]);
      EveryRunIsDense(Apply(s, steps[0]), steps[1..]);
    }
  }

  /** The numbers won in a run, in the order in which they were won. */
  function Won<E>(steps: seq<Step<E>>): seq<nat> {
    if steps == [] then []
    else (if steps[0].Win? then [steps[0].commit.number] else []) + Won(steps[1..])
  }

  /** In a whole run from the empty bucket the k-th put that is won is commit k: no gap, no reuse. */
  lemma {:induction false} NumbersAreWonInOrder<E>(s: State<E>, steps: seq<Step<E>>)
    requires Dense(s) && LegalRun(s, steps)
    ensures |Run(s, steps).history| == |s.history| + |Won(steps)|
    ensures forall k :: 0 <= k < |Won(steps)| ==> Won(steps)[k] == |s.history| + k + 1
    decreases |steps|
  {
    if steps != [] {
      StepKeepsDense(s, steps[0]);
      NumbersAreWonInOrder(Apply(s, steps[0]), steps[1..]);
      if steps[0].Win? {
        WinIsNext(s, steps[0].who, steps[0].commit);
      }
    }
  }

  /** However the run goes on, the numbers stay right. */
  ghost predicate StaysNumbered<E(!new)>(s: State<E>) {
    forall steps: seq<Step<E>> :: LegalRun(s, steps) ==> Numbered(Run(s, steps).history)
  }

  /** Deletions of the `count` commits right after `above`. */
  function Erasures<E>(above: nat, count: nat): seq<Step<E>>
    decreases count
  {
    if count == 0 then [] else [Erase(above + 1)] + Erasures(above + 1, count - 1)
  }

  lemma {:induction false} RunAppend<E>(s: State<E>, steps: seq<Step<E>>, more: seq<Step<E>>)
    requires LegalRun(s, steps) && LegalRun(Run(s, steps), more)
    ensures LegalRun(s, steps + more) && Run(s, steps + more) == Run(Run(s, steps), more)
    decreases |steps|
  {
    if steps == [] {
      assert steps + more == more;
    } else {
      RunAppend(Apply(s, steps[0]), steps[1..], more);
      assert (steps + more)[1..] == steps[1..] + more;
    }
  }

  lemma {:induction false} ErasuresRun<E>(s: State<E>, above: nat, count: nat)
    requires above + count <= s.floor
    ensures LegalRun(s, Erasures(above, count))
    ensures Run(s, Erasures(above, count)) == s.(live := Run(s, Erasures(above, count)).live)
    ensures forall n :: n in Run(s, Erasures(above, count)).live ==> n in s.live && (n <= above || above + count < n)
    decreases count
  {
    if count > 0 {
      var steps: seq<Step<E>> := Erasures(above, count);
      ErasuresRun(Apply(s, Erase(above + 1)), above + 1, count - 1);
      assert steps[0] == Erase(above + 1) && steps[1..] == Erasures(above + 1, count - 1);
    }
  }

  /** A warm committer below the end of the history whose next number is gone wins it again. */
  lemma {:induction false} WarmReuses<E>(s: State<E>, who: nat, event: E) returns (steps: seq<Step<E>>)
    requires who in s.clients && s.clients[who].Warm?
    requires s.clients[who].tail != |s.history| && s.clients[who].tail + 1 !in s.live
    ensures LegalRun(s, steps) && !Numbered(Run(s, steps).history)
  {
    var commit := Commit(s.clients[who].tail + 1, [Entry(who, 0, event)]);
    steps := [Win(who, commit)];
    var won := Apply(s, Win(who, commit));
    assert steps[1..] == [] && Run(won, []) == won;
    assert Run(s, steps) == won && won.history[|s.history|] == commit;
  }

  /** A cold committer that finds nothing above a hint that is not the real tail wins a wrong number. */
  lemma {:induction false} ColdReuses<E>(s: State<E>, who: nat, event: E) returns (steps: seq<Step<E>>)
    requires who in s.clients && s.clients[who].Cold? && s.clients[who].hint != |s.history|
    requires forall n :: n in s.live ==> n <= s.clients[who].hint
    ensures LegalRun(s, steps) && !Numbered(Run(s, steps).history)
  {
    var hint := s.clients[who].hint;
    var listed := Apply(s, Discover(who, hint));
    var rest := WarmReuses(listed, who, event);
    steps := [Discover(who, hint)] + rest;
    assert steps[1..] == rest;
  }

  /** Once all commits above the hint may be deleted, the cold committer can be led there. */
  lemma {:induction false} ColdIsMisled<E>(s: State<E>, who: nat, event: E) returns (steps: seq<Step<E>>)
    requires who in s.clients && s.clients[who].Cold?
    requires forall n :: n in s.live ==> n <= |s.history|
    requires s.clients[who].hint > |s.history| || s.clients[who].hint < |s.history| <= s.floor
    ensures LegalRun(s, steps) && !Numbered(Run(s, steps).history)
  {
    var hint := s.clients[who].hint;
    if hint > |s.history| {
      steps := ColdReuses(s, who, event);
    } else {
      var count := |s.history| - hint;
      ErasuresRun(s, hint, count);
      var rest := ColdReuses(Run(s, Erasures(hint, count)), who, event);
      RunAppend(s, Erasures(hint, count), rest);
      steps := Erasures(hint, count) + rest;
    }
  }

  lemma {:induction false} WarmIsMisled<E>(s: State<E>, who: nat, event: E) returns (steps: seq<Step<E>>)
    requires who in s.clients && s.clients[who].Warm? && s.clients[who].tail < |s.history|
    requires s.clients[who].tail < s.floor
    ensures LegalRun(s, steps) && !Numbered(Run(s, steps).history)
  {
    var gone := s.clients[who].tail + 1;
    var rest := WarmReuses(Apply(s, Erase(gone)), who, event);
    steps := [Erase(gone)] + rest;
    assert steps[1..] == rest;
  }

  lemma {:induction false} DenseStaysNumbered<E(!new)>(s: State<E>)
    requires Dense(s)
    ensures StaysNumbered(s)
  {
    forall steps: seq<Step<E>> | LegalRun(s, steps)
      ensures Numbered(Run(s, steps).history)
    {
      EveryRunIsDense(s, steps);
    }
  }

  /**
    The hypothesis about pruning is exact: from a prune on, however the run goes on, no number is used
    twice exactly when the prune spares the tail of every warm committer, and a commit or the hint of
    every cold one.
  */
  lemma {:induction false} PruneExactly<E(!new)>(s: State<E>, to: nat, event: E)
    requires Dense(s) && s.floor <= to <= |s.history|
    ensures Legal(s, RaiseFloor(to)) <==> StaysNumbered(Apply(s, RaiseFloor(to)))
  {
    var pruned := Apply(s, RaiseFloor(to));
    if Legal(s, RaiseFloor(to)) {
      RaiseFloorKeepsDense(s, to);
      DenseStaysNumbered(pruned);
    } else {
      var c :| c in s.clients && !PruneSpares(s.clients[c], to, |s.history|);
      var steps;
      if s.clients[c].Warm? {
        steps := WarmIsMisled(pruned, c, event);
      } else {
        steps := ColdIsMisled(pruned, c, event);
      }
      assert LegalRun(pruned, steps) && !Numbered(Run(pruned, steps).history);
    }
  }

  /**
    So is the one about opening a committer: its hint is at most the real tail, and if every commit may
    have been deleted, it is the real tail.
  */
  lemma {:induction false} OpenExactly<E(!new)>(s: State<E>, who: nat, hint: nat, event: E)
    requires Dense(s) && who !in s.clients
    ensures Legal(s, Open(who, hint)) <==> StaysNumbered(Apply(s, Open(who, hint)))
  {
    var joined := Apply(s, Open(who, hint));
    if Legal(s, Open(who, hint)) {
      StepKeepsDense(s, Open(who, hint));
      DenseStaysNumbered(joined);
    } else {
      var steps := ColdIsMisled(joined, who, event);
      assert LegalRun(joined, steps) && !Numbered(Run(joined, steps).history);
    }
  }

  /** The client a step belongs to; pruning belongs to no committer. */
  predicate By<E>(step: Step<E>, me: nat) {
    match step
    case Open(who, _) => who == me
    case Discover(who, _) => who == me
    case Win(who, _) => who == me
    case Advance(who, _) => who == me
    case RaiseFloor(_) => false
    case Erase(_) => false
  }

  /** The history grew by commits that hold no entry of `me`. */
  ghost predicate Foreign<E>(me: nat, h: seq<Commit<E>>, g: seq<Commit<E>>) {
    && h <= g
    && forall i, j :: |h| <= i < |g| && 0 <= j < |g[i].entries| ==> g[i].entries[j].owner != me
  }

  lemma {:induction false} ForeignIsTransitive<E>(me: nat, f: seq<Commit<E>>, g: seq<Commit<E>>, h: seq<Commit<E>>)
    requires Foreign(me, f, g) && Foreign(me, g, h)
    ensures Foreign(me, f, h)
  {
  }

  /** `commits` are the commits numbered `first`, `first + 1`, and so on. */
  ghost predicate IsPiece<E>(commits: seq<Commit<E>>, first: nat, history: seq<Commit<E>>)
    requires first >= 1
  {
    && (commits != [] ==> first - 1 + |commits| <= |history|)
    && forall i :: 0 <= i < |commits| ==> commits[i] == history[first - 1 + i]
  }

  /** What committer `me` may rely on between two of its own storage calls. */
  ghost predicate Rely<E>(me: nat, s: State<E>, t: State<E>) {
    && Foreign(me, s.history, t.history)
    && s.floor <= t.floor
    && (me in s.clients <==> me in t.clients)
    && (me in s.clients ==> s.clients[me] == t.clients[me])
  }

  lemma {:induction false} StepOfAnotherIsRelied<E>(me: nat, s: State<E>, step: Step<E>)
    requires Legal(s, step) && !By(step, me)
    ensures Rely(me, s, Apply(s, step))
  {
  }

  lemma {:induction false} RelyIsTransitive<E>(me: nat, s: State<E>, t: State<E>, u: State<E>)
    requires Rely(me, s, t) && Rely(me, t, u)
    ensures Rely(me, s, u)
  {
  }
}
