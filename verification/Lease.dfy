/**
  Leases: acquire, attach, guarded writes and cooperative writes over one register.

  A handle caches the tag, the state and the deadline of its last write; others may have written
  since. Time is an integer; what a call reads from the clock is a parameter, and arbitrary.
*/
module Lease {
  import opened Wrappers
  import opened Cas
  import opened LeaseProtocol

  type Key<!T(==)> = Register<Act<T>, Doc<T>>

  const GUARDED_PUT_ATTEMPTS: nat := 2
  const ACQUIRE_ATTEMPTS: nat := 8
  const UPDATE_ATTEMPTS: nat := 10

  /** The register holds a lease document and nothing but lease operations write it. */
  ghost predicate IsLeaseKey<T(!new)>(key: Key<T>)
    reads key
  {
    && key.Valid() && key.start == None
    && forall l :: key.legal(l) <==> LeaseLegal(l)
  }

  /** The document is in ownership period `epoch` of `holder`. */
  ghost predicate InPeriod<T>(value: Option<Doc<T>>, epoch: nat, holder: Option<string>) {
    value.Some? && value.value.epoch == epoch && value.value.holder == holder
  }

  /** One landing of `me` that rewrites the document of its period, after landings of others only. */
  ghost predicate HeldOnce<T>(me: nat, epoch: nat, from: Option<string>, to: Option<string>, deadline: int,
      fn: State<T> -> State<T>,
                              earlier: seq<Event<T>>, later: seq<Event<T>>) {
    && later != [] && ByOthers(me, earlier, later[..|later| - 1])
    && var l := later[|later| - 1];
       && l.who == me && InPeriod(l.before, epoch, from)
       && l.after == Some(Doc(epoch, to, deadline, fn(l.before.value.state)))
  }

  lemma {:induction false} HeldOnceSince<T>(me: nat, epoch: nat, from: Option<string>, to: Option<string>,
      deadline: int, fn: State<T> -> State<T>, earlier: seq<Event<T>>, between: seq<Event<T>>, later: seq<Event<T>>)
    requires ByOthers(me, earlier, between) && HeldOnce(me, epoch, from, to, deadline, fn, between, later)
    ensures HeldOnce(me, epoch, from, to, deadline, fn, earlier, later)
  {
  }

  /** The document still carries this tag. */
  ghost predicate IsCurrent<T>(current: Option<Stored<Doc<T>>>, tag: Tag<Doc<T>>) {
    current.Some? && current.value.tag == tag
  }

  /** Others landed: at least twice since the handle was up to date, at least once if it was not. */
  ghost predicate Overtaken<T>(current: Option<Stored<Doc<T>>>, earlier: seq<Event<T>>, later: seq<Event<T>>,
      tag: Tag<Doc<T>>) {
    |later| >= |earlier| + if IsCurrent(current, tag) then 2 else 1
  }

  datatype Pass = Landed | Absorbed | Fenced

  /** Epochs never fall: a landing made later replaced a document of an epoch at least as high. */
  lemma {:induction false} EpochsRise<T>(earlier: seq<Event<T>>, value: Option<Doc<T>>, later: seq<Event<T>>,
      value': Option<Doc<T>>)
    requires Linked(None, earlier, value) && Linked(None, later, value') && Legitimate(later)
    requires later != [] && earlier <= later[..|later| - 1]
    ensures EpochOf(later[|later| - 1].before) >= EpochOf(value)
  {
    var k := |later| - 1;
    EpochAt(later, value', k);
    forall i | 0 <= i < |earlier|
      ensures LeaseLegal(earlier[i])
    {
      assert earlier[i] == later[i];
    }
    EpochCountsAcquisitions(earlier, value);
    AcquisitionsGrow(later, |earlier|, k);
    assert later[..|earlier|] == earlier;
  }

  class Handle<T(==,!new)> {
    const me: nat
    const key: Key<T>
    const ttl: int
    const epoch: nat
    var holder: Option<string>
    var deadline: int
    var state: State<T>
    var tag: Tag<Doc<T>>
    var released: bool

    /** What the cached tag stands for is a document of this period with the cached state. */
    ghost predicate Valid()
      reads this, key
    {
      && IsLeaseKey(key)
      && tag.content.epoch == epoch && tag.content.holder == holder && tag.content.state == state
    }

    constructor (me: nat, key: Key<T>, ttl: int, doc: Doc<T>, tag: Tag<Doc<T>>)
      requires IsLeaseKey(key) && tag.content == doc
      ensures Valid() && !released
      ensures this.me == me && this.key == key && this.ttl == ttl && this.epoch == doc.epoch
      ensures holder == doc.holder && deadline == doc.deadline && state == doc.state && this.tag == tag
    {
      this.me := me;
      this.key := key;
      this.ttl := ttl;
      this.epoch := doc.epoch;
      this.holder := doc.holder;
      this.deadline := doc.deadline;
      this.state := doc.state;
      this.tag := tag;
      this.released := false;
    }

    /** After a failed guard: is the period still ours? If so the state that is stored is absorbed. */
    method Reread() returns (pass: Pass)
      requires Valid()
      modifies this`state, this`tag, key`current, key`landed
      ensures Valid() && ByOthers(me, old(key.landed), key.landed)
      ensures key.landed == old(key.landed) ==> key.current == old(key.current)
      ensures if InPeriod(key.Value(), epoch, holder) then pass == Absorbed && IsCurrent(key.current, tag) else pass == Fenced
    {
      var current := key.Get(me);
      if current.None? || current.value.data.epoch != epoch || current.value.data.holder != holder {
        return Fenced;
      }
      tag, state := current.value.tag, current.value.data.state;
      pass := Absorbed;
    }

    /** One pass of the guarded write. */
    method TryPut(to: Option<string>, newDeadline: int, fn: State<T> -> State<T>) returns (pass: Pass)
      requires Valid() && (to == holder || to == None)
      modifies this`holder, this`deadline, this`state, this`tag, key
      ensures Valid() && key.puts == old(key.puts) + 1
      ensures pass.Landed? ==>
        && HeldOnce(me, epoch, old(holder), to, newDeadline, fn, old(key.landed), key.landed)
        && holder == to && deadline == newDeadline && key.Value() == Some(Doc(epoch, to, newDeadline, state))
      ensures !pass.Landed? ==>
        && ByOthers(me, old(key.landed), key.landed) && holder == old(holder) && deadline == old(deadline)
      ensures pass.Fenced? ==> !InPeriod(key.Value(), epoch, holder)
      ensures pass.Absorbed? ==>
        && key.current.Some? && key.current.value.tag == tag
        && (key.landed == old(key.landed) ==> key.current == old(key.current) && old(key.current).value.tag != old(tag))
    {
      var next := fn(state);
      var newTag := key.PutIfMatch(me, Hold(fn), Doc(epoch, to, newDeadline, next), tag);
      if newTag.Some? {
        tag, holder, deadline, state := newTag.value, to, newDeadline, next;
        return Landed;
      }
      pass := Reread();
    }

    /** Two passes at most: after one that absorbed the write of somebody else, another. */
    method PutTwice(to: Option<string>, newDeadline: int, fn: State<T> -> State<T>) returns (ok: bool)
      requires Valid() && (to == holder || to == None)
      modifies this`holder, this`deadline, this`state, this`tag, key
      ensures Valid() && key.puts <= old(key.puts) + 2
      ensures if ok then
                && HeldOnce(me, epoch, old(holder), to, newDeadline, fn, old(key.landed), key.landed)
                && holder == to && deadline == newDeadline && key.Value() == Some(Doc(epoch, to, newDeadline, state))
              else
                && ByOthers(me, old(key.landed), key.landed) && holder == old(holder) && deadline == old(deadline)
                && (InPeriod(key.Value(), epoch, holder) ==> Overtaken(old(key.current), old(key.landed), key.landed, old(tag)))
    {
      ghost var holderThen, landedThen := holder, key.landed;
      for attempt := 0 to GUARDED_PUT_ATTEMPTS
        invariant Valid() && holder == old(holder) && deadline == old(deadline) && key.puts == old(key.puts) + attempt
        invariant ByOthers(me, old(key.landed), key.landed)
        invariant attempt == 0 ==> tag == old(tag) && key.current == old(key.current) && key.landed == old(key.landed)
        invariant attempt > 0 ==> IsCurrent(key.current, tag)
        invariant attempt > 0 && IsCurrent(old(key.current), old(tag)) ==> |key.landed| > |old(key.landed)|
        invariant attempt > 1 ==> Overtaken(old(key.current), old(key.landed), key.landed, old(tag))
      {
        ghost var before := key.landed;
        var pass := TryPut(to, newDeadline, fn);
        if pass.Landed? {
          HeldOnceSince(me, epoch, holderThen, to, newDeadline, fn, landedThen, before, key.landed);
          return true;
        }
        if pass.Fenced? {
          return false;
        }
      }
      ok := false;
    }

    /**
      Replaces the document under the ownership guard; `false` stands for LeaseLost.

      A failed guard is read again: if the period is still ours the fresh state is absorbed and the
      write retried, otherwise we were fenced. The cached deadline is not absorbed. A guarded call on
      the current period fails only when others landed meanwhile, twice if the handle was not stale.
    */
    method GuardedPut(to: Option<string>, newDeadline: int, fn: State<T> -> State<T>) returns (ok: bool)
      requires Valid() && (to == holder || to == None)
      modifies this`holder, this`deadline, this`state, this`tag, key
      ensures Valid() && key.puts <= old(key.puts) + 2
      ensures ok ==>
        && !released && HeldOnce(me, epoch, old(holder), to, newDeadline, fn, old(key.landed), key.landed)
        && holder == to && deadline == newDeadline && key.Value() == Some(Doc(epoch, to, newDeadline, state))
      ensures !ok ==>
        && ByOthers(me, old(key.landed), key.landed) && holder == old(holder) && deadline == old(deadline)
      ensures !ok && !released && InPeriod(key.Value(), epoch, holder) ==>
        Overtaken(old(key.current), old(key.landed), key.landed, old(tag))
      ensures released || EpochOf(old(key.Value())) > epoch ==> !ok
    {
      if released {
        return false;
      }
      ghost var landedThen, valueThen := key.landed, key.Value();
      ok := PutTwice(to, newDeadline, fn);
      if ok {
        EpochsRise(landedThen, valueThen, key.landed, key.Value());
      }
    }

    /** Extends the deadline by `ttl`; whatever state is stored is kept. */
    method Renew(now: int) returns (ok: bool)
      requires Valid()
      modifies this`holder, this`deadline, this`state, this`tag, key
      ensures Valid() && key.puts <= old(key.puts) + 2
      ensures ok ==>
        !released && HeldOnce(me, epoch, old(holder), old(holder), now + ttl, (s: State<T>) => s, old(key.landed), key.landed)
      ensures !ok ==> ByOthers(me, old(key.landed), key.landed)
      ensures !ok && !released && InPeriod(key.Value(), epoch, holder) ==>
        Overtaken(old(key.current), old(key.landed), key.landed, old(tag))
      ensures released || EpochOf(old(key.Value())) > epoch ==> !ok
    {
      ok := GuardedPut(holder, now + ttl, (s: State<T>) => s);
    }

    /** Replaces the state outright; a cooperative write made since is discarded unread. */
    method Write(value: State<T>) returns (ok: bool)
      requires Valid()
      modifies this`holder, this`deadline, this`state, this`tag, key
      ensures Valid() && key.puts <= old(key.puts) + 2
      ensures ok ==>
        !released && HeldOnce(me, epoch, old(holder), old(holder), old(deadline), (s: State<T>) => value, old(key.landed), key.landed)
      ensures !ok ==> ByOthers(me, old(key.landed), key.landed)
      ensures !ok && !released && InPeriod(key.Value(), epoch, holder) ==>
        Overtaken(old(key.current), old(key.landed), key.landed, old(tag))
      ensures released || EpochOf(old(key.Value())) > epoch ==> !ok
    {
      ok := GuardedPut(holder, deadline, (s: State<T>) => value);
    }

    /** Applies `fn` to the freshest state. */
    method UpdateState(fn: State<T> -> State<T>) returns (ok: bool)
      requires Valid()
      modifies this`holder, this`deadline, this`state, this`tag, key
      ensures Valid() && key.puts <= old(key.puts) + 2
      ensures ok ==>
        !released && HeldOnce(me, epoch, old(holder), old(holder), old(deadline), fn, old(key.landed), key.landed)
      ensures !ok ==> ByOthers(me, old(key.landed), key.landed)
      ensures !ok && !released && InPeriod(key.Value(), epoch, holder) ==>
        Overtaken(old(key.current), old(key.landed), key.landed, old(tag))
      ensures released || EpochOf(old(key.Value())) > epoch ==> !ok
    {
      ok := GuardedPut(holder, deadline, fn);
    }

    /** Frees the lease, with a final state if one is given; the document and its epoch remain. */
    method Release(now: int, final: State<T>) returns (ok: bool)
      requires Valid()
      modifies this, key
      ensures Valid() && key.puts <= old(key.puts) + 2
      ensures ok ==>
        && !old(released) && released
        && HeldOnce(me, epoch, old(holder), None, now, (s: State<T>) => if final.Some? then final else s, old(key.landed), key.landed)
      ensures !ok ==> ByOthers(me, old(key.landed), key.landed) && released == old(released)
      ensures !ok && !released && InPeriod(key.Value(), epoch, holder) ==>
        Overtaken(old(key.current), old(key.landed), key.landed, old(tag))
      ensures old(released) || EpochOf(old(key.Value())) > epoch ==> !ok
    {
      ok := GuardedPut(None, now, (s: State<T>) => if final.Some? then final else s);
      if ok {
        released := true;
      }
    }
  }

  /** How an acquisition ends. `Refused` is None of the source, `Aborted` a state function that raised. */
  datatype AcquireEnd = Acquired | Refused | Aborted | Unsettled | BadTtl

  /** The acquisition of `me` landed once, by the rules, after landings of others only. */
  ghost predicate AcquiredOnce<T>(me: nat, holder: Option<string>, ttl: int, stealing: bool,
      change: State<T> -> Option<State<T>>, earlier: seq<Event<T>>, later: seq<Event<T>>) {
    && later != [] && ByOthers(me, earlier, later[..|later| - 1])
    && var l := later[|later| - 1];
       && l.who == me && l.what.Acquire? && l.what.stealing == stealing && LeaseLegal(l)
       && l.after.value.holder == holder && l.after.value.deadline == l.what.now + ttl
       && change(if l.before.Some? then l.before.value.state else None) == Some(l.after.value.state)
  }

  /** Somebody's lease that a newcomer may not take: unexpired, or expired and not to be stolen. */
  predicate IsHeld<T>(value: Option<Doc<T>>, now: int, stealing: bool) {
    && value.Some? && value.value.holder != None
    && (value.value.deadline > now || !stealing)
  }

  function StateIn<T>(value: Option<Doc<T>>): State<T> {
    if value.Some? then value.value.state else None
  }

  /** Nobody but `me` has landed in between. */
  ghost predicate Undisturbed<T>(me: nat, earlier: seq<Event<T>>, later: seq<Event<T>>) {
    earlier <= later && forall i :: |earlier| <= i < |later| ==> later[i].who == me
  }

  /** What an acquisition comes to that meets `value` at `now` and is not raced. */
  ghost predicate Decides<T>(value: Option<Doc<T>>, now: int, stealing: bool, change: State<T> -> Option<State<T>>,
      end: AcquireEnd) {
    if IsHeld(value, now, stealing) then end == Refused
    else if change(StateIn(value)) == None then end == Aborted
    else end == Acquired
  }

  lemma {:induction false} StaysDisturbed<T>(me: nat, earlier: seq<Event<T>>, between: seq<Event<T>>,
      later: seq<Event<T>>)
    requires ByOthers(me, earlier, between) && |between| > |earlier|
    requires between <= later || (later != [] && between <= later[..|later| - 1])
    ensures !Undisturbed(me, earlier, later)
  {
    assert later[|earlier|] == between[|earlier|];
  }

  /** What was replaced by the last landing is what was there before it. */
  lemma {:induction false} LastReplaced<T>(earlier: seq<Event<T>>, value: Option<Doc<T>>, later: seq<Event<T>>,
      value': Option<Doc<T>>)
    requires Linked(None, earlier, value) && Linked(None, later, value')
    requires later != [] && later[..|later| - 1] == earlier
    ensures later[|later| - 1].before == value
  {
  }

  datatype AcquirePass<+T> = Took(doc: Doc<T>, tag: Tag<Doc<T>>) | Raced | Stopped(end: AcquireEnd)

  /** Puts a document where `current` was found: put-if-absent if there was none, compare-and-swap otherwise. */
  method PutOver<T(==,!new)>(key: Key<T>, me: nat, what: Act<T>, doc: Doc<T>, current: Option<Stored<Doc<T>>>)
      returns (newTag: Option<Tag<Doc<T>>>)
    requires IsLeaseKey(key) && (current.Some? ==> current.value.tag.content == current.value.data)
    requires LeaseLegal(Landing(me, what, ValueOf(current), Some(doc)))
    modifies key
    ensures IsLeaseKey(key) && key.puts == old(key.puts) + 1
    ensures newTag.Some? ==>
      && key.landed != [] && ByOthers(me, old(key.landed), key.landed[..|key.landed| - 1])
      && key.landed[|key.landed| - 1] == Landing(me, what, ValueOf(current), Some(doc))
      && key.current == Some(Stored(doc, newTag.value))
    ensures newTag.None? ==> ByOthers(me, old(key.landed), key.landed)
    ensures newTag.None? && current == old(key.current) ==> key.landed != old(key.landed)
  {
    if current.None? {
      newTag := key.PutIfAbsent(me, what, doc);
    } else {
      newTag := key.PutIfMatch(me, what, doc, current.value.tag);
    }
  }

  function ValueOf<T>(current: Option<Stored<Doc<T>>>): Option<Doc<T>> {
    if current.Some? then Some(current.value.data) else None
  }

  /** One pass of the acquire loop. */
  method TryAcquire<T(==,!new)>(key: Key<T>, me: nat, ttl: int, holder: Option<string>, stealing: bool,
      change: State<T> -> Option<State<T>>, now: int) returns (pass: AcquirePass<T>)
    requires IsLeaseKey(key)
    modifies key
    ensures IsLeaseKey(key) && key.puts <= old(key.puts) + 1
    ensures pass.Took? ==>
      && AcquiredOnce(me, holder, ttl, stealing, change, old(key.landed), key.landed)
      && key.landed[|key.landed| - 1].what.now == now && key.current == Some(Stored(pass.doc, pass.tag))
      && pass.tag.content == pass.doc
    ensures !pass.Took? ==> ByOthers(me, old(key.landed), key.landed)
    ensures pass.Raced? ==> |key.landed| > |old(key.landed)|
    ensures pass.Stopped? ==> match pass.end
      case Refused => IsHeld(key.Value(), now, stealing)
      case Aborted => change(StateIn(key.Value())) == None
      case _ => false
    ensures Undisturbed(me, old(key.landed), key.landed) ==>
      !pass.Raced? && Decides(old(key.Value()), now, stealing, change, if pass.Took? then Acquired else pass.end)
  {
    var deadline := now + ttl;
    var current := key.Get(me);
    ghost var seen := key.landed;
    var value := ValueOf(current);
    if value.Some? && (!IsExpired(value.value, now) || (value.value.holder != None && !stealing)) {
      return Stopped(Refused);
    }
    var state := change(StateIn(value));
    if state.None? {
      return Stopped(Aborted);
    }
    var doc := Doc(if value.Some? then value.value.epoch + 1 else 1, holder, deadline, state.value);
    var newTag := PutOver(key, me, Acquire(now, stealing, change), doc, current);
    if newTag.None? {
      assert key.landed != seen;
      return Raced;
    }
    pass := Took(doc, newTag.value);
  }

  /** What the passes come to: the one that was not raced, at the time it read from the clock. */
  ghost predicate PassesEnded<T>(me: nat, ttl: int, holder: Option<string>, stealing: bool,
      change: State<T> -> Option<State<T>>, clock: nat -> int, pass: AcquirePass<T>, value: Option<Doc<T>>,
      earlier: seq<Event<T>>, later: seq<Event<T>>, value': Option<Doc<T>>) {
    && (if pass.Took? then
          && AcquiredOnce(me, holder, ttl, stealing, change, earlier, later)
          && exists k :: 0 <= k < 8 && later[|later| - 1].what.now == clock(k)
        else ByOthers(me, earlier, later))
    && (pass.Raced? ==> |later| >= |earlier| + 8)
    && (pass.Stopped? ==> match pass.end
          case Refused => exists k :: 0 <= k < 8 && IsHeld(value', clock(k), stealing)
          case Aborted => change(StateIn(value')) == None
          case _ => false)
    && (Undisturbed(me, earlier, later) ==>
          !pass.Raced? && Decides(value, clock(0), stealing, change, if pass.Took? then Acquired else pass.end))
  }

  /** One pass that is not raced, after `k` that were. */
  lemma {:induction false} PassesEnd<T>(me: nat, ttl: int, holder: Option<string>, stealing: bool,
      change: State<T> -> Option<State<T>>, clock: nat -> int, pass: AcquirePass<T>, k: nat, value: Option<Doc<T>>,
      earlier: seq<Event<T>>, before: seq<Event<T>>, later: seq<Event<T>>, value': Option<Doc<T>>)
    requires k < 8 && !pass.Raced? && ByOthers(me, earlier, before) && |before| >= |earlier| + k
    requires if pass.Took? then
               && AcquiredOnce(me, holder, ttl, stealing, change, before, later)
               && later[|later| - 1].what.now == clock(k)
             else ByOthers(me, before, later)
    requires pass.Stopped? ==> match pass.end
             case Refused => IsHeld(value', clock(k), stealing)
             case Aborted => change(StateIn(value')) == None
             case _ => false
    requires k == 0 && Undisturbed(me, earlier, later) ==>
      Decides(value, clock(0), stealing, change, if pass.Took? then Acquired else pass.end)
    ensures PassesEnded(me, ttl, holder, stealing, change, clock, pass, value, earlier, later, value')
  {
    if k > 0 {
      StaysDisturbed(me, earlier, before, later);
    }
  }

  /** The passes of the acquire loop, up to one that is not raced. */
  method AcquirePasses<T(==,!new)>(key: Key<T>, me: nat, ttl: int, holder: Option<string>, stealing: bool,
      change: State<T> -> Option<State<T>>, clock: nat -> int) returns (pass: AcquirePass<T>)
    requires IsLeaseKey(key)
    modifies key
    ensures IsLeaseKey(key) && key.puts <= old(key.puts) + 8
    ensures PassesEnded(me, ttl, holder, stealing, change, clock, pass, old(key.Value()), old(key.landed), key.landed, key.Value())
    ensures pass.Took? ==> key.current == Some(Stored(pass.doc, pass.tag)) && pass.tag.content == pass.doc
  {
    ghost var valueThen, landedThen := key.Value(), key.landed;
    for attempt := 0 to ACQUIRE_ATTEMPTS
      invariant IsLeaseKey(key) && ByOthers(me, landedThen, key.landed) && |key.landed| >= |landedThen| + attempt
      invariant key.puts <= old(key.puts) + attempt
      invariant attempt == 0 ==> key.landed == landedThen && key.Value() == valueThen
    {
      ghost var before := key.landed;
      pass := TryAcquire(key, me, ttl, holder, stealing, change, clock(attempt));
      if !pass.Raced? {
        PassesEnd(me, ttl, holder, stealing, change, clock, pass, attempt, valueThen, landedThen, before, key.landed, key.Value());
        return;
      }
    }
    pass := Raced;
  }

  /**
    acquire: takes the lease if nobody holds it, or if it is past its deadline and may be stolen,
    and bumps the epoch. `change` is the state transition written with the acquisition, and
    `clock(k)` is what the k-th pass reads from the clock. Unless others land meanwhile, what is stored
    decides: a lease that is held is refused, a `change` that raises aborts, anything else is acquired.
  */
  method AcquireLease<T(==,!new)>(key: Key<T>, me: nat, ttl: int, holder: Option<string>, stealing: bool,
      change: State<T> -> Option<State<T>>, clock: nat -> int) returns (end: AcquireEnd, lease: Handle?<T>)
    requires IsLeaseKey(key)
    modifies key
    ensures IsLeaseKey(key) && key.puts <= old(key.puts) + 8
    ensures end.Acquired? <==> lease != null
    ensures lease != null ==>
      && fresh(lease) && lease.Valid() && lease.key == key && lease.me == me && !lease.released
      && AcquiredOnce(me, holder, ttl, stealing, change, old(key.landed), key.landed)
      && (exists k :: 0 <= k < 8 && key.landed[|key.landed| - 1].what.now == clock(k))
      && InPeriod(key.Value(), lease.epoch, holder) && lease.holder == holder && lease.ttl == ttl
      && lease.deadline == key.Value().value.deadline && lease.state == key.Value().value.state
    ensures lease == null ==> ByOthers(me, old(key.landed), key.landed)
    ensures end.BadTtl? <==> ttl <= 0
    ensures end.Unsettled? ==> |key.landed| >= |old(key.landed)| + 8
    ensures end.Refused? ==> exists k :: 0 <= k < 8 && IsHeld(key.Value(), clock(k), stealing)
    ensures end.Aborted? ==> change(StateIn(key.Value())) == None
    ensures ttl > 0 && Undisturbed(me, old(key.landed), key.landed) ==>
      Decides(old(key.Value()), clock(0), stealing, change, end)
  {
    lease := null;
    if ttl <= 0 {
      return BadTtl, null;
    }
    var pass := AcquirePasses(key, me, ttl, holder, stealing, change, clock);
    match pass {
      case Took(doc, tag) =>
        lease := new Handle(me, key, ttl, doc, tag);
        end := Acquired;
      case Stopped(e) => end := e;
      case Raced => end := Unsettled;
    }
  }

  /** attach: a handle onto the period `holder` owns right now. Nothing is written, no epoch is taken. */
  method Attach<T(==,!new)>(key: Key<T>, me: nat, holder: string, ttl: int, now: int)
      returns (refusedArguments: bool, lease: Handle?<T>)
    requires IsLeaseKey(key)
    modifies key`current, key`landed
    ensures IsLeaseKey(key) && ByOthers(me, old(key.landed), key.landed)
    ensures refusedArguments <==> ttl <= 0 || holder == ""
    ensures lease != null <==> !refusedArguments && key.Value().Some? && key.Value().value.holder == Some(holder) && key.Value().value.deadline > now
    ensures lease != null ==>
      && fresh(lease) && lease.Valid() && lease.key == key && lease.me == me && !lease.released && lease.ttl == ttl
      && InPeriod(key.Value(), lease.epoch, Some(holder))
      && lease.deadline == key.Value().value.deadline && lease.state == key.Value().value.state
  {
    lease := null;
    refusedArguments := ttl <= 0 || holder == "";
    if refusedArguments {
      return;
    }
    var current := key.Get(me);
    if current.None? || current.value.data.holder != Some(holder) || IsExpired(current.value.data, now) {
      return;
    }
    lease := new Handle(me, key, ttl, current.value.data, current.value.tag);
  }

  /** How a cooperative write ends. */
  datatype CooperateEnd<+T> = Wrote(state: State<T>) | NoDocument | KeptConflicting

  /** cooperative_write: changes the state field only, so the holder is observed, never fenced. */
  method CooperativeWrite<T(==,!new)>(key: Key<T>, me: nat, fn: State<T> -> State<T>) returns (end: CooperateEnd<T>)
    requires IsLeaseKey(key)
    modifies key
    ensures IsLeaseKey(key) && key.puts <= old(key.puts) + 10
    ensures end.Wrote? ==>
      && key.landed != [] && ByOthers(me, old(key.landed), key.landed[..|key.landed| - 1])
      && var l := key.landed[|key.landed| - 1];
         && l.who == me && l.before.Some?
         && l.after == Some(l.before.value.(state := fn(l.before.value.state))) && end.state == fn(l.before.value.state)
    ensures !end.Wrote? ==> ByOthers(me, old(key.landed), key.landed)
    ensures end.NoDocument? ==> key.Value() == None && key.landed == []
    ensures end.KeptConflicting? ==> |key.landed| >= |old(key.landed)| + 10
  {
    for attempt := 0 to UPDATE_ATTEMPTS
      invariant IsLeaseKey(key) && ByOthers(me, old(key.landed), key.landed) && key.puts == old(key.puts) + attempt
      invariant |key.landed| >= |old(key.landed)| + attempt
    {
      var current := key.Get(me);
      ghost var seen := key.landed;
      if current.None? {
        EpochCountsAcquisitions(key.landed, key.Value());
        return NoDocument;
      }
      var doc := current.value.data;
      var written := key.PutIfMatch(me, Cooperate(fn), doc.(state := fn(doc.state)), current.value.tag);
      if written.Some? {
        return Wrote(fn(doc.state));
      }
      assert key.landed != seen;
    }
    end := KeptConflicting;
  }
}
