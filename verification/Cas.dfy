/**
  One key of the bucket under conditional writes, and the loops that read, modify and write it.

  A write that takes effect is a landing. A register carries the list of all landings so far; any
  number of writers race, and `Interfere` lets the others land between two storage calls of one.

  Entity tags are opaque. All that is assumed of them is that equal tags mean equal content, so a
  tag is a pair of the content and an arbitrary generation: a store that derives tags from content
  (the generation is always the same) may show the same tag again after the content came back.
  The preconditions are those of RFC 9110, sections 13.1.1 (If-Match) and 13.1.2 (If-None-Match).
*/
module Cas {
  import opened Wrappers

  datatype Tag<+V> = Tag(generation: nat, content: V)

  datatype Stored<+V> = Stored(data: V, tag: Tag<V>)

  datatype Landing<+L, +V> = Landing(who: nat, what: L, before: Option<V>, after: Option<V>)

  /** Each landing replaced exactly what the one before it had written. */
  ghost predicate Linked<L, V>(start: Option<V>, landed: seq<Landing<L, V>>, end: Option<V>) {
    if landed == [] then start == end
    else landed[|landed| - 1].after == end && Linked(start, landed[..|landed| - 1], landed[|landed| - 1].before)
  }

  ghost predicate ByOthers<L, V>(me: nat, earlier: seq<Landing<L, V>>, later: seq<Landing<L, V>>) {
    && earlier <= later
    && forall i :: |earlier| <= i < |later| ==> later[i].who != me
  }

  lemma {:induction false} LinkedOneMore<L, V>(start: Option<V>, landed: seq<Landing<L, V>>, l: Landing<L, V>)
    requires Linked(start, landed, l.before)
    ensures Linked(start, landed + [l], l.after)
  {
  }

  class Register<L, V(==)> {
    const legal: Landing<L, V> -> bool
    const start: Option<V>
    var current: Option<Stored<V>>
    ghost var landed: seq<Landing<L, V>>

    /** How many conditional writes the modelled client has asked for. */
    ghost var puts: nat

    function Value(): Option<V>
      reads this
    {
      if current.Some? then Some(current.value.data) else None
    }

    ghost predicate Valid()
      reads this
    {
      && (current.Some? ==> current.value.tag.content == current.value.data)
      && Linked(start, landed, Value())
      && forall i :: 0 <= i < |landed| ==> legal(landed[i])
    }

    constructor (start: Option<V>, legal: Landing<L, V> -> bool)
      ensures Valid() && this.start == start && this.legal == legal && landed == [] && Value() == start && puts == 0
    {
      this.start := start;
      this.legal := legal;
      this.current := if start.Some? then Some(Stored(start.value, Tag(0, start.value))) else None;
      this.landed := [];
      this.puts := 0;
    }

    /** A legal landing takes effect, under a tag of the store's choice. */
    method Land(l: Landing<L, V>)
      requires Valid() && legal(l) && l.before == Value()
      modifies this`current, this`landed
      ensures Valid() && landed == old(landed) + [l] && Value() == l.after
    {
      var generation: nat := *;
      LinkedOneMore(start, landed, l);
      current := if l.after.Some? then Some(Stored(l.after.value, Tag(generation, l.after.value))) else None;
      landed := landed + [l];
    }

    method Interfere(me: nat)
      requires Valid()
      modifies this`current, this`landed
      ensures Valid() && ByOthers(me, old(landed), landed)
      ensures landed == old(landed) ==> current == old(current)
    {
      var attempts: seq<Landing<L, V>> := *;
      for i := 0 to |attempts|
        invariant Valid() && ByOthers(me, old(landed), landed)
        invariant landed == old(landed) ==> current == old(current)
      {
        var l := attempts[i];
        if l.who != me && l.before == Value() && legal(l) {
          Land(l);
        }
      }
    }

    method Get(me: nat) returns (found: Option<Stored<V>>)
      requires Valid()
      modifies this`current, this`landed
      ensures Valid() && ByOthers(me, old(landed), landed) && found == current
      ensures landed == old(landed) ==> current == old(current)
    {
      Interfere(me);
      found := current;
    }

    /** Put-if-absent. The write takes effect only if the key does not exist. */
    method PutIfAbsent(me: nat, what: L, data: V) returns (tag: Option<Tag<V>>)
      requires Valid() && legal(Landing(me, what, None, Some(data)))
      modifies this
      ensures Valid() && puts == old(puts) + 1
      ensures tag.Some? ==>
        && landed != [] && ByOthers(me, old(landed), landed[..|landed| - 1])
        && landed[|landed| - 1] == Landing(me, what, None, Some(data))
        && current == Some(Stored(data, tag.value))
      ensures tag.None? ==> ByOthers(me, old(landed), landed) && current.Some?
      ensures tag.None? && landed == old(landed) ==> current == old(current)
    {
      puts := puts + 1;
      Interfere(me);
      if current.Some? {
        return None;
      }
      ghost var before := landed;
      Land(Landing(me, what, None, Some(data)));
      assert landed[..|landed| - 1] == before;
      tag := Some(current.value.tag);
    }

    /** Compare-and-swap. The write takes effect only if the key still carries `expected`. */
    method PutIfMatch(me: nat, what: L, data: V, expected: Tag<V>) returns (tag: Option<Tag<V>>)
      requires Valid() && legal(Landing(me, what, Some(expected.content), Some(data)))
      modifies this
      ensures Valid() && puts == old(puts) + 1
      ensures tag.Some? ==>
        && landed != [] && ByOthers(me, old(landed), landed[..|landed| - 1])
        && landed[|landed| - 1] == Landing(me, what, Some(expected.content), Some(data))
        && current == Some(Stored(data, tag.value))
      ensures tag.None? ==> ByOthers(me, old(landed), landed)
      ensures tag.None? ==> (current.Some? ==> current.value.tag != expected)
      ensures tag.None? && landed == old(landed) ==> current == old(current)
    {
      puts := puts + 1;
      Interfere(me);
      if current.None? || current.value.tag != expected {
        return None;
      }
      ghost var before := landed;
      Land(Landing(me, what, Some(expected.content), Some(data)));
      assert landed[..|landed| - 1] == before;
      tag := Some(current.value.tag);
    }
  }
}
