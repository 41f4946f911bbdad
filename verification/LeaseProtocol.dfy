/**
  The life of a lease document as a list of landings, whoever made them.

  `LeaseLegal` is what each kind of write through the lease API is checked to be at the instant it
  lands; the lemmas are about every list of such landings, so about every run of any number of
  acquirers, holders and cooperating outsiders. The document is never deleted.
*/
module LeaseProtocol {
  import opened Wrappers
  import opened Cas

  /** A JSON value of the application; `None` is JSON null. */
  type State<+T> = Option<T>

  datatype Doc<+T> = Doc(epoch: nat, holder: Option<string>, deadline: int, state: State<T>)

  datatype Act<!T> =
    | Acquire(now: int, stealing: bool, change: State<T> -> Option<State<T>>)
    | Hold(fn: State<T> -> State<T>)
    | Cooperate(fn: State<T> -> State<T>)

  type Event<!T> = Landing<Act<T>, Doc<T>>

  /** Free, or past its deadline as judged at `now`. */
  predicate IsExpired<T>(doc: Doc<T>, now: int) {
    doc.holder == None || doc.deadline <= now
  }

  predicate LeaseLegal<T(==)>(l: Event<T>) {
    && l.after.Some?
    && match l.what
       case Acquire(now, stealing, change) =>
         (match l.before
          case None => l.after.value.epoch == 1 && change(None) == Some(l.after.value.state)
          case Some(doc) =>
            && IsExpired(doc, now) && (doc.holder == None || stealing)
            && l.after.value.epoch == doc.epoch + 1
            && change(doc.state) == Some(l.after.value.state))
       case Hold(fn) =>
         && l.before.Some?
         && l.after.value.epoch == l.before.value.epoch
         && (l.after.value.holder == l.before.value.holder || l.after.value.holder == None)
         && l.after.value.state == fn(l.before.value.state)
       case Cooperate(fn) =>
         && l.before.Some?
         && l.after.value == l.before.value.(state := fn(l.before.value.state))
  }

  ghost predicate Legitimate<T>(landed: seq<Event<T>>) {
    forall i :: 0 <= i < |landed| ==> LeaseLegal(landed[i])
  }

  function EpochOf<T>(value: Option<Doc<T>>): nat {
    if value.Some? then value.value.epoch else 0
  }

  function Acquisitions<T>(landed: seq<Event<T>>): nat {
    if landed == [] then 0
    else Acquisitions(landed[..|landed| - 1]) + if landed[|landed| - 1].what.Acquire? then 1 else 0
  }

  /** The stored epoch is the number of acquisitions that have landed. */
  lemma {:induction false} EpochCountsAcquisitions<T>(landed: seq<Event<T>>, value: Option<Doc<T>>)
    requires Linked(None, landed, value) && Legitimate(landed)
    ensures EpochOf(value) == Acquisitions(landed)
    ensures value.None? <==> landed == []
    decreases |landed|
  {
    if landed != [] {
      EpochCountsAcquisitions(landed[..|landed| - 1], landed[|landed| - 1].before);
    }
  }

  lemma {:induction false} LinkedPrefix<L, V>(start: Option<V>, landed: seq<Landing<L, V>>, value: Option<V>, k: nat)
    requires Linked(start, landed, value) && k < |landed|
    ensures Linked(start, landed[..k], landed[k].before) && Linked(start, landed[..k + 1], landed[k].after)
    decreases |landed|
  {
    var shorter := landed[..|landed| - 1];
    if k == |landed| - 1 {
      assert landed[..k + 1] == landed;
    } else {
      LinkedPrefix(start, shorter, landed[|landed| - 1].before, k);
      assert shorter[..k] == landed[..k] && shorter[..k + 1] == landed[..k + 1];
    }
  }

  /** The epoch a landing leaves behind counts the acquisitions up to and including it. */
  lemma {:induction false} EpochAt<T>(landed: seq<Event<T>>, value: Option<Doc<T>>, k: nat)
    requires Linked(None, landed, value) && Legitimate(landed) && k < |landed|
    ensures EpochOf(landed[k].before) == Acquisitions(landed[..k])
    ensures EpochOf(landed[k].after) == Acquisitions(landed[..k + 1])
  {
    LinkedPrefix(None, landed, value, k);
    EpochCountsAcquisitions(landed[..k], landed[k].before);
    EpochCountsAcquisitions(landed[..k + 1], landed[k].after);
  }

  lemma {:induction false} AcquisitionsGrow<T>(landed: seq<Event<T>>, i: nat, j: nat)
    requires i <= j <= |landed|
    ensures Acquisitions(landed[..i]) <= Acquisitions(landed[..j])
    decreases j
  {
    if i < j {
      assert landed[..j][..j - 1] == landed[..j - 1];
      AcquisitionsGrow(landed, i, j - 1);
    }
  }

  /**
    Fencing. Once an acquisition has landed, nothing ever lands on a document of an earlier epoch
    again, and no two acquisitions share an epoch.
  */
  lemma {:induction false} Fenced<T>(landed: seq<Event<T>>, value: Option<Doc<T>>, i: nat, j: nat)
    requires Linked(None, landed, value) && Legitimate(landed)
    requires i < j < |landed| && landed[i].what.Acquire?
    ensures EpochOf(landed[j].before) >= EpochOf(landed[i].after)
    ensures landed[j].what.Acquire? ==> EpochOf(landed[j].after) > EpochOf(landed[i].after)
    ensures EpochOf(value) >= EpochOf(landed[i].after)
  {
    EpochAt(landed, value, i);
    EpochAt(landed, value, j);
    EpochCountsAcquisitions(landed, value);
    AcquisitionsGrow(landed, i + 1, j);
    AcquisitionsGrow(landed, j, |landed|);
    assert landed[..|landed|] == landed;
    assert landed[..j + 1][..j] == landed[..j];
  }

  /** The state function a landing applied. */
  function StateAfter<T>(act: Act<T>, state: State<T>): State<T> {
    match act
    case Acquire(_, _, change) => change(state).GetOr(state)
    case Hold(fn) => fn(state)
    case Cooperate(fn) => fn(state)
  }

  function ComposedState<T>(landed: seq<Event<T>>): State<T> {
    if landed == [] then None
    else StateAfter(landed[|landed| - 1].what, ComposedState(landed[..|landed| - 1]))
  }

  /** The state is the composition of the landed functions in landing order, from null. */
  lemma {:induction false} StateIsComposition<T>(landed: seq<Event<T>>, value: Option<Doc<T>>)
    requires Linked(None, landed, value) && Legitimate(landed)
    ensures (if value.Some? then value.value.state else None) == ComposedState(landed)
    decreases |landed|
  {
    if landed != [] {
      StateIsComposition(landed[..|landed| - 1], landed[|landed| - 1].before);
    }
  }

  /**
    Exclusion. While no acquisition lands, the document keeps its epoch and its holder, or it has
    been released and then stays released.
  */
  lemma {:induction false} PeriodHasOneHolder<T>(landed: seq<Event<T>>, value: Option<Doc<T>>, i: nat)
    requires Linked(None, landed, value) && Legitimate(landed) && i < |landed|
    requires forall k :: i < k < |landed| ==> !landed[k].what.Acquire?
    ensures value.Some? && landed[i].after.Some? && value.value.epoch == landed[i].after.value.epoch
    ensures value.value.holder == landed[i].after.value.holder || value.value.holder == None
    decreases |landed|
  {
    if i < |landed| - 1 {
      PeriodHasOneHolder(landed[..|landed| - 1], landed[|landed| - 1].before, i);
    }
  }

  /**
    The next acquisition after one by a named holder found that holder's lease released, or past its
    deadline as the newcomer judged it and open to stealing.
  */
  lemma {:induction false} TakeoverNeedsReleaseOrExpiry<T>(landed: seq<Event<T>>, value: Option<Doc<T>>, i: nat, j: nat)
    requires Linked(None, landed, value) && Legitimate(landed)
    requires i < j < |landed| && landed[i].what.Acquire? && landed[j].what.Acquire?
    requires forall k :: i < k < j ==> !landed[k].what.Acquire?
    ensures landed[i].after.Some? && landed[j].before.Some?
    ensures landed[j].before.value.epoch == landed[i].after.value.epoch
    ensures var found := landed[j].before.value;
      || found.holder == None
      || (found.holder == landed[i].after.value.holder && found.deadline <= landed[j].what.now && landed[j].what.stealing)
  {
    LinkedPrefix(None, landed, value, j);
    PeriodHasOneHolder(landed[..j], landed[j].before, i);
  }
}
