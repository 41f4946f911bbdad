/**
  Read your writes, from the acknowledgement to the row.

  The writer holds the place that its committer acknowledged; the reader waits until the recorded
  position of the projection has reached it, and then queries. Writer and reader look at the one log
  of the bucket (`Archives.LogRunIsRun`), the reader at a later moment.
*/
module ReadYourWrites {
  import opened Wrappers
  import opened LogProtocol
  import opened LogBucket
  import opened Committer
  import opened Folding
  import opened Archives
  import opened Replay
  import opened Projector

  /** Up to the commit the database has got to, its rows are the fold of the stream, and slot `k` of it is this entry. */
  ghost predicate ShowsSlot<D, E>(h: Handlers<D, E>, log: seq<Commit<E>>, db: Database<D>, at: Sequence, owner: nat,
      ticket: nat, k: nat) {
    && Reached(db) <= |log|
    && var stream := Folding.Slots(log[..Reached(db)]);
       && ApplySlots(h, h.prepare(h.blank), stream) == Some(db.rows)
       && k < |stream| && stream[k].at == at
       && (forall j :: 0 <= j < |stream| ==> (j <= k <==> AtOrAfter(at, stream[j].at)))
       && IsEntry(log, at, owner, ticket, stream[k].event)
  }

  /** The entry at this place of the log is this submission. */
  ghost predicate IsEntry<E>(log: seq<Commit<E>>, at: Sequence, owner: nat, ticket: nat, event: E) {
    && 1 <= at.commit <= |log| && at.index < |log[at.commit - 1].entries|
    && log[at.commit - 1].entries[at.index] == Entry(owner, ticket, event)
  }

  /** An acknowledged submission and everything before it are in every projection at or after its place. */
  lemma {:induction false} AckedIsShown<D, E>(h: Handlers<D, E>, me: nat, written: seq<Commit<E>>,
      results: map<nat, Outcome>, ticket: nat, log: seq<Commit<E>>, db: Database<D>) returns (k: nat)
    requires Balanced(me, written, results) && ticket in results && results[ticket].Acked?
    requires written <= log && Numbered(log) && IsFold(h, log, db) && db.position.Some?
    requires AtOrAfter(db.position.value, Sequence(results[ticket].commit, results[ticket].index))
    ensures ShowsSlot(h, log, db, Sequence(results[ticket].commit, results[ticket].index), me, ticket, k)
  {
    var n, i := results[ticket].commit, results[ticket].index;
    assert Holds(written, n, i, me, ticket);
    k := Folding.ReadYourWrites(h, log, db, n, i);
  }

  /** An acknowledged place is a place of the log, then and later. */
  lemma {:induction false} AckIsPlace<E>(me: nat, written: seq<Commit<E>>, results: map<nat, Outcome>, ticket: nat,
      log: seq<Commit<E>>)
    requires Balanced(me, written, results) && ticket in results && results[ticket].Acked? && written <= log
    ensures IsPlace(log, Sequence(results[ticket].commit, results[ticket].index))
  {
    assert Holds(written, results[ticket].commit, results[ticket].index, me, ticket);
  }

  /**
    Appends are awaited, the place is waited for, and then the submission is in the visible rows. Once an
    update was made, only a log that is pruned past the projection keeps the wait from succeeding.
  */
  method WaitForAck<D, E>(committer: Committer<E>, ticket: nat, projector: Projector<D, E>, polls: nat)
      returns (r: Result<bool, Trouble>, ghost k: nat)
    requires committer.Valid() && ticket in committer.results && committer.results[ticket].Acked?
    requires projector.Valid() && Clean(projector.visible.content, projector.scratch.content, None)
    requires committer.bucket.s.history <= projector.archive.s.history
    modifies projector`updates, projector.archive, projector.scratch, projector.visible
    ensures projector.Valid() && projector.updates <= old(projector.updates) + polls
    ensures r == Success(false) ==> projector.updates == old(projector.updates) + polls
    ensures r == Success(true) ==>
      var ack := committer.results[ticket];
      && projector.visible.content.Some?
      && ShowsSlot(projector.archive.handlers, projector.archive.s.history, projector.visible.content.value,
                   Sequence(ack.commit, ack.index), committer.me, ticket, k)
    ensures r == Success(false) && polls > 0 ==> CommitOf(projector.CurrentSequence()) < projector.archive.s.floor
    ensures r == Success(false) ==>
      var ack := committer.results[ticket];
      projector.CurrentSequence().None? || !AtOrAfter(projector.CurrentSequence().value, Sequence(ack.commit, ack.index))
  {
    var ack := committer.results[ticket];
    r := WaitForSequence(projector, Sequence(ack.commit, ack.index), polls);
    k := 0;
    AckIsPlace(committer.me, committer.bucket.s.history, committer.results, ticket, projector.archive.s.history);
    if r == Success(true) {
      k := AckedIsShown(projector.archive.handlers, committer.me, committer.bucket.s.history, committer.results,
        ticket, projector.archive.s.history, projector.visible.content.value);
    }
  }
}
