/**
  The bucket as a commit log: put-if-absent, get and list of numbered commits.

  Every storage call is one atomic step, and before each one the other clients may have taken
  any number of legal steps (`Interfere`). The contracts therefore hold under every interleaving.
*/
module LogBucket {
  import opened Wrappers
  import opened LogProtocol

  class Bucket<E> {
    var s: State<E>

    /** Whether the store may reject a put of an absent number, when two conditional writers collide. */
    const collides: bool

    /** How many commits the other clients may still win: any number, but finite, so that a reader
        that follows the log until a gap comes to an end. */
    var budget: nat

    /** Puts that were rejected although no commit of that number was visible. */
    ghost var phantoms: nat

    /** How many commits the modelled client has tried to put. */
    ghost var puts: nat

    ghost predicate Valid()
      reads this
    {
      Dense(s)
    }

    /** No commit number above this one can come into being through other clients. */
    ghost function Horizon(): nat
      reads this
    {
      |s.history| + budget
    }

    constructor (budget: nat, collides: bool)
      ensures Valid() && s == Empty() && this.budget == budget && this.collides == collides && phantoms == 0 && puts == 0
    {
      this.collides := collides;
      this.s := Empty();
      this.budget := budget;
      this.phantoms := 0;
      this.puts := 0;
    }

    method Interfere(me: nat)
      requires Valid()
      modifies this`s, this`budget
      ensures Valid() && Rely(me, old(s), s) && Horizon() <= old(Horizon())
    {
      var steps: seq<Step<E>> := *;
      for i := 0 to |steps|
        invariant Valid() && Rely(me, old(s), s) && Horizon() <= old(Horizon())
      {
        var step := steps[i];
        if Legal(s, step) && !By(step, me) && (step.Win? ==> budget > 0) {
          StepKeepsDense(s, step);
          StepOfAnotherIsRelied(me, s, step);
          RelyIsTransitive(me, old(s), s, Apply(s, step));
          s := Apply(s, step);
          if step.Win? {
            budget := budget - 1;
          }
        }
      }
    }

    /** A committer with this identity and this hint comes into being. */
    method Enroll(me: nat, hint: nat)
      requires Valid() && Legal(s, Open(me, hint))
      modifies this`s
      ensures Valid() && s == Apply(old(s), Open(me, hint))
    {
      StepKeepsDense(s, Open(me, hint));
      s := Apply(s, Open(me, hint));
    }

    /**
      put_commit. The bucket accepts the commit only if its number is absent; some stores may also
      refuse an absent number, when two conditional writers collide. `seen` is the state at that instant.
    */
    method PutCommit(me: nat, commit: Commit<E>) returns (won: bool, ghost seen: State<E>)
      requires Valid()
      requires commit.number >= 1 && me in s.clients && s.clients[me] == Warm(commit.number - 1)
      requires commit.entries != []
      requires forall i :: 0 <= i < |commit.entries| ==> commit.entries[i].owner == me
      modifies this
      ensures Valid() && Dense(seen) && Rely(me, old(s), seen) && puts == old(puts) + 1
      ensures won ==> Legal(seen, Win(me, commit)) && s == Apply(seen, Win(me, commit))
      ensures !won ==> s == seen && (commit.number in seen.live || collides)
      ensures phantoms == old(phantoms) + if !won && commit.number > |seen.history| then 1 else 0
      ensures |seen.history| + budget <= old(Horizon())
    {
      puts := puts + 1;
      Interfere(me);
      seen := s;
      var collision: bool := *;
      if commit.number in s.live || (collides && collision) {
        won := false;
        if commit.number > |s.history| {
          phantoms := phantoms + 1;
        }
      } else {
        won := true;
        StepKeepsDense(s, Win(me, commit));
        s := Apply(s, Win(me, commit));
      }
    }

    /** get_commit: the commit of that number, if the bucket still holds it. */
    method GetCommit(me: nat, number: nat) returns (found: Option<Commit<E>>)
      requires Valid()
      modifies this`s, this`budget
      ensures Valid() && Rely(me, old(s), s) && Horizon() <= old(Horizon())
      ensures found == if number in s.live then Some(s.live[number]) else None
    {
      Interfere(me);
      found := if number in s.live then Some(s.live[number]) else None;
    }

    /** list_commits: the numbers above `after`, ascending. */
    method ListCommits(me: nat, after: nat) returns (numbers: seq<nat>)
      requires Valid()
      modifies this`s, this`budget
      ensures Valid() && Rely(me, old(s), s) && Horizon() <= old(Horizon())
      ensures forall i, j :: 0 <= i < j < |numbers| ==> numbers[i] < numbers[j]
      ensures forall n :: n in numbers <==> n in s.live && n > after
    {
      Interfere(me);
      numbers := [];
      for n := 0 to |s.history| + 1
        invariant forall i :: 0 <= i < |numbers| ==> numbers[i] < n
        invariant forall i, j :: 0 <= i < j < |numbers| ==> numbers[i] < numbers[j]
        invariant forall m :: m in numbers <==> m in s.live && after < m < n
      {
        if n in s.live && n > after {
          numbers := numbers + [n];
        }
      }
    }

    /** One commit more has been read; asks for the next one. */
    method ReadNext(me: nat, first: nat, commits: seq<Commit<E>>, commit: Commit<E>)
        returns (more: seq<Commit<E>>, found: Option<Commit<E>>)
      requires Valid() && first >= 1 && IsPiece(commits, first, s.history)
      requires first + |commits| in s.live && s.live[first + |commits|] == commit
      modifies this`s, this`budget
      ensures Valid() && Rely(me, old(s), s) && Horizon() <= old(Horizon())
      ensures more == commits + [commit] && IsPiece(more, first, s.history)
      ensures found == if first + |more| in s.live then Some(s.live[first + |more|]) else None
    {
      more := commits + [commit];
      found := GetCommit(me, first + |more|);
    }

    /**
      Reads the commits from `first` forward until a gap. What comes back is a contiguous piece of
      the history; the number after it was not in the bucket when it was asked for.
    */
    method ReadUntilGap(me: nat, first: nat) returns (commits: seq<Commit<E>>)
      requires Valid() && first >= 1
      modifies this`s, this`budget
      ensures Valid() && Rely(me, old(s), s) && Horizon() <= old(Horizon())
      ensures IsPiece(commits, first, s.history)
      ensures first + |commits| !in s.live
    {
      commits := [];
      var number := first;
      var found := GetCommit(me, number);
      while found.Some?
        invariant Valid() && Rely(me, old(s), s) && Horizon() <= old(Horizon())
        invariant number == first + |commits|
        invariant IsPiece(commits, first, s.history)
        invariant found == if number in s.live then Some(s.live[number]) else None
        decreases old(Horizon()) + 1 - number
      {
        commits, found := ReadNext(me, first, commits, found.value);
        number := number + 1;
      }
    }

    /** The committer adopts the tail it has just listed or read; nothing is stored. */
    method Note(me: nat, step: Step<E>)
      requires Valid() && Legal(s, step)
      requires step.Discover? || step.Advance?
      requires step.who == me
      modifies this`s
      ensures Valid() && s == Apply(old(s), step)
    {
      StepKeepsDense(s, step);
      s := Apply(s, step);
    }
  }
}
