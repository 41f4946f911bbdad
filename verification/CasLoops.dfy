/** The bounded read-modify-write loops: documents, appends and claims. */
module CasLoops {
  import opened Wrappers
  import opened Cas

  /* ----- documents ----- */

  /** What a document writer does to a document: apply a pure function, or delete. */
  datatype Edit<!V> = Update(fn: V -> V, create: Option<V>) | Delete

  function Effect<V>(edit: Edit<V>, before: Option<V>): Option<V> {
    match edit
    case Delete => None
    case Update(fn, create) =>
      if before.Some? then Some(fn(before.value)) else if create.Some? then Some(fn(create.value)) else None
  }

  predicate EditLegal<V(==)>(l: Landing<Edit<V>, V>) {
    l.after == Effect(l.what, l.before) && (l.what.Update? ==> l.before.Some? || l.what.create.Some?)
  }

  /** All landed edits, one after the other in landing order. */
  function Composed<V>(start: Option<V>, landed: seq<Landing<Edit<V>, V>>): Option<V> {
    if landed == [] then start
    else Effect(landed[|landed| - 1].what, Composed(start, landed[..|landed| - 1]))
  }

  /** Under any interleaving the document is the landed edits applied in landing order. */
  lemma {:induction false} DocumentIsComposition<V>(start: Option<V>, landed: seq<Landing<Edit<V>, V>>,
      value: Option<V>)
    requires Linked(start, landed, value)
    requires forall i :: 0 <= i < |landed| ==> EditLegal(landed[i])
    ensures value == Composed(start, landed)
    decreases |landed|
  {
    if landed != [] {
      DocumentIsComposition(start, landed[..|landed| - 1], landed[|landed| - 1].before);
    }
  }

  /** No increment is lost or doubled: N landed increments of a counter created at 0 leave N. */
  lemma {:induction false} IncrementsAddUp(landed: seq<Landing<Edit<int>, int>>, value: Option<int>)
    requires Linked(None, landed, value)
    requires forall i :: 0 <= i < |landed| ==>
      EditLegal(landed[i]) && landed[i].what.Update? && landed[i].what.create == Some(0) && forall v :: landed[i].what.fn(v) == v + 1
    ensures landed != [] ==> value == Some(|landed|)
    decreases |landed|
  {
    if |landed| > 1 {
      IncrementsAddUp(landed[..|landed| - 1], landed[|landed| - 1].before);
    }
  }

  datatype UpdateError = Missing | KeptConflicting

  /** One landing of `me`, after landings of others only, that applies `fn` to what it replaced. */
  ghost predicate LandedOnce<V>(me: nat, fn: V -> V, create: Option<V>, value: V, earlier: seq<Landing<Edit<V>, V>>,
      later: seq<Landing<Edit<V>, V>>) {
    && later != [] && ByOthers(me, earlier, later[..|later| - 1])
    && var l := later[|later| - 1];
       l.who == me && l.what == Update(fn, create) && l.after == Some(value) && match l.before
         case Some(v) => value == fn(v)
         case None => create.Some? && value == fn(create.value)
  }

  /** One pass of the update loop; `None` when another writer came in between. */
  method TryUpdate<V(==,!new)>(doc: Register<Edit<V>, V>, me: nat, fn: V -> V, create: Option<V>)
      returns (outcome: Option<Result<V, UpdateError>>)
    requires doc.Valid() && forall l :: doc.legal(l) <==> EditLegal(l)
    modifies doc
    ensures doc.Valid() && doc.puts <= old(doc.puts) + 1
    ensures match outcome
            case Some(Success(value)) => LandedOnce(me, fn, create, value, old(doc.landed), doc.landed)
            case Some(Failure(e)) => ByOthers(me, old(doc.landed), doc.landed) && e == Missing && doc.Value() == None && create == None
            case None => ByOthers(me, old(doc.landed), doc.landed) && |doc.landed| > |old(doc.landed)|
  {
    var obj := doc.Get(me);
    ghost var seen := doc.landed;
    var value, tag;
    if obj.None? {
      if create.None? {
        return Some(Failure(Missing));
      }
      value := fn(create.value);
      tag := doc.PutIfAbsent(me, Update(fn, create), value);
    } else {
      value := fn(obj.value.data);
      tag := doc.PutIfMatch(me, Update(fn, create), value, obj.value.tag);
    }
    if tag.Some? {
      return Some(Success(value));
    }
    assert doc.landed != seen;
    outcome := None;
  }

  /** Document.update: success means landed exactly once, failure means not landed. */
  method UpdateDocument<V(==,!new)>(doc: Register<Edit<V>, V>, me: nat, fn: V -> V, create: Option<V>, maxAttempts: nat)
      returns (outcome: Result<V, UpdateError>)
    requires doc.Valid() && forall l :: doc.legal(l) <==> EditLegal(l)
    modifies doc
    ensures doc.Valid() && doc.puts <= old(doc.puts) + maxAttempts
    ensures outcome.Success? ==> LandedOnce(me, fn, create, outcome.value, old(doc.landed), doc.landed)
    ensures outcome.Failure? ==> ByOthers(me, old(doc.landed), doc.landed)
    ensures outcome == Failure(Missing) ==> doc.Value() == None && create == None
    ensures outcome == Failure(KeptConflicting) ==> |doc.landed| >= |old(doc.landed)| + maxAttempts
  {
    for attempt := 0 to maxAttempts
      invariant doc.Valid() && ByOthers(me, old(doc.landed), doc.landed) && doc.puts <= old(doc.puts) + attempt
      invariant |doc.landed| >= |old(doc.landed)| + attempt
    {
      var end := TryUpdate(doc, me, fn, create);
      if end.Some? {
        return end.value;
      }
    }
    outcome := Failure(KeptConflicting);
  }

  /* ----- appends ----- */

  datatype Fragment<+T> = Fragment(data: seq<T>)

  predicate AppendLegal<T(==)>(l: Landing<Fragment<T>, seq<T>>) {
    l.after == Some((if l.before.Some? then l.before.value else []) + l.what.data)
  }

  function Fragments<T>(landed: seq<Landing<Fragment<T>, seq<T>>>): seq<T> {
    if landed == [] then [] else Fragments(landed[..|landed| - 1]) + landed[|landed| - 1].what.data
  }

  /** The object is the landed fragments, each contiguous, in landing order: none is lost or torn. */
  lemma {:induction false} AppendsConcatenate<T>(landed: seq<Landing<Fragment<T>, seq<T>>>, value: Option<seq<T>>)
    requires Linked(None, landed, value)
    requires forall i :: 0 <= i < |landed| ==> AppendLegal(landed[i])
    ensures if landed == [] then value == None else value == Some(Fragments(landed))
    decreases |landed|
  {
    if landed != [] {
      AppendsConcatenate(landed[..|landed| - 1], landed[|landed| - 1].before);
    }
  }

  const APPEND_ATTEMPTS: nat := 8

  /** One landing of `me`, after landings of others only, that appends `data`. */
  ghost predicate AppendedOnce<T>(me: nat, data: seq<T>, earlier: seq<Landing<Fragment<T>, seq<T>>>,
      later: seq<Landing<Fragment<T>, seq<T>>>) {
    && later != [] && ByOthers(me, earlier, later[..|later| - 1])
    && later[|later| - 1].who == me && later[|later| - 1].what == Fragment(data)
  }

  /** One pass of the append loop; false when another writer came in between. */
  method TryAppend<T(==,!new)>(obj: Register<Fragment<T>, seq<T>>, me: nat, data: seq<T>) returns (ok: bool)
    requires obj.Valid() && forall l :: obj.legal(l) <==> AppendLegal(l)
    modifies obj
    ensures obj.Valid() && obj.puts == old(obj.puts) + 1
    ensures if ok then AppendedOnce(me, data, old(obj.landed), obj.landed)
            else ByOthers(me, old(obj.landed), obj.landed) && |obj.landed| > |old(obj.landed)|
  {
    var found := obj.Get(me);
    ghost var seen := obj.landed;
    var tag;
    if found.None? {
      assert [] + data == data;
      tag := obj.PutIfAbsent(me, Fragment(data), data);
    } else {
      tag := obj.PutIfMatch(me, Fragment(data), found.value.data + data, found.value.tag);
    }
    ok := tag.Some?;
    assert ok || obj.landed != seen;
  }

  /** append_object: true means this fragment landed, once; false means it did not. */
  method AppendObject<T(==,!new)>(obj: Register<Fragment<T>, seq<T>>, me: nat, data: seq<T>) returns (ok: bool)
    requires obj.Valid() && forall l :: obj.legal(l) <==> AppendLegal(l)
    modifies obj
    ensures obj.Valid() && obj.puts <= old(obj.puts) + 8
    ensures ok ==> AppendedOnce(me, data, old(obj.landed), obj.landed)
    ensures !ok ==> ByOthers(me, old(obj.landed), obj.landed) && |obj.landed| >= |old(obj.landed)| + 8
  {
    for attempt := 0 to APPEND_ATTEMPTS
      invariant obj.Valid() && ByOthers(me, old(obj.landed), obj.landed) && obj.puts == old(obj.puts) + attempt
      invariant |obj.landed| >= |old(obj.landed)| + attempt
    {
      ok := TryAppend(obj, me, data);
      if ok {
        return;
      }
    }
    ok := false;
  }

  /* ----- claims ----- */

  datatype ClaimAct = Create | Remove

  predicate ClaimLegal<V(==)>(l: Landing<ClaimAct, V>) {
    match l.what
    case Create => l.before == None && l.after.Some?
    case Remove => l.after == None
  }

  /** Without deletions at most one claim ever lands, and everyone reads its value. */
  lemma {:induction false} OneClaimWins<V>(landed: seq<Landing<ClaimAct, V>>, value: Option<V>)
    requires Linked(None, landed, value)
    requires forall i :: 0 <= i < |landed| ==> ClaimLegal(landed[i]) && landed[i].what.Create?
    ensures |landed| <= 1
    ensures value == if landed == [] then None else landed[0].after
    decreases |landed|
  {
  }

  const ACQUIRE_ATTEMPTS: nat := 8

  datatype ClaimResult<+V> = Claim(won: bool, value: V) | Unsettled

  /** claim: the winner keeps its own value, everyone else is handed the winner's. */
  method ClaimKey<V(==,!new)>(key: Register<ClaimAct, V>, me: nat, value: V) returns (result: ClaimResult<V>)
    requires key.Valid() && forall l :: key.legal(l) <==> ClaimLegal(l)
    modifies key
    ensures key.Valid() && key.puts <= old(key.puts) + 8
    ensures result.Claim? ==> key.Value() == Some(result.value)
    ensures result.Claim? && result.won ==>
      && result.value == value && key.landed != [] && ByOthers(me, old(key.landed), key.landed[..|key.landed| - 1])
      && key.landed[|key.landed| - 1] == Landing(me, Create, None, Some(value))
    ensures (result.Claim? ==> !result.won) ==> ByOthers(me, old(key.landed), key.landed)
    ensures result.Unsettled? ==> |key.landed| >= |old(key.landed)| + 8
  {
    for attempt := 0 to ACQUIRE_ATTEMPTS
      invariant key.Valid() && ByOthers(me, old(key.landed), key.landed) && key.puts == old(key.puts) + attempt
      invariant |key.landed| >= |old(key.landed)| + attempt
    {
      var tag := key.PutIfAbsent(me, Create, value);
      if tag.Some? {
        return Claim(true, value);
      }
      ghost var seen := key.landed;
      var existing := key.Get(me);
      if existing.Some? {
        return Claim(false, existing.value.data);
      }
      assert key.landed != seen;
    }
    result := Unsettled;
  }
}
