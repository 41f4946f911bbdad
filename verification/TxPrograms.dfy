/**
  Transactions as programs.

  A transaction is application code that asks for keys and stages writes and notes, each action
  depending on the answers it got so far. Run alone against a fixed store it is a function of that
  store; this module says which, and when a transaction that saw the store through a read set did
  the same.
*/
module TxPrograms {
  import opened Wrappers
  import opened TxRecords

  datatype Action = Get(key: Key) | Write(op: Op) | Note(text: string) | Finish

  /** What the application does next, given the answers to all its actions so far. */
  type Program = seq<Option<Data>> -> Action

  /** What a transaction holds: the answers it was given, the keys it asked for and what it staged. */
  datatype Local = Local(
    answers: seq<Option<Data>>,
    asked: set<Key>,
    staged: map<Key, Option<Data>>,
    ops: seq<Op>,
    notes: seq<string>)

  /** A value handed to the transaction from the store, with how far the log was applied then. */
  datatype Sighting = Sighting(key: Key, value: Option<Data>, at: nat)

  function Fresh(): Local {
    Local([], {}, map[], [], [])
  }

  /** A staged write hides what is stored. */
  function AnswerTo(l: Local, k: Key, stored: Option<Data>): Option<Data> {
    if k in l.staged then l.staged[k] else stored
  }

  /** One action; `stored` is what the store holds under the key asked for. */
  function Take(l: Local, action: Action, stored: Option<Data>): Local {
    match action
    case Get(k) => l.(answers := l.answers + [AnswerTo(l, k, stored)], asked := l.asked + {k})
    case Write(op) => l.(answers := l.answers + [None], staged := l.staged[op.key := Effect(op)], ops := l.ops + [op])
    case Note(text) => l.(answers := l.answers + [None], notes := l.notes + [text])
    case Finish => l
  }

  /** The first read of a key is recorded, later ones are not. */
  function ReadSetAfter(readSet: map<Key, Seen>, k: Key, seen: Seen): map<Key, Seen> {
    if k in readSet then readSet else readSet[k := seen]
  }

  function StoredFor(action: Action, c: Contents): Option<Data> {
    if action.Get? then Lookup(c, action.key) else None
  }

  /** The first `turns` actions of a program that runs alone against `c`. */
  function Serially(program: Program, c: Contents, turns: nat): Local {
    if turns == 0 then Fresh()
    else
      var l := Serially(program, c, turns - 1);
      Take(l, program(l.answers), StoredFor(program(l.answers), c))
  }

  predicate Finishes(program: Program, c: Contents, turns: nat) {
    program(Serially(program, c, turns).answers).Finish?
  }

  lemma {:induction false} FinishedStays(program: Program, c: Contents, turns: nat, more: nat)
    requires Finishes(program, c, turns) && turns <= more
    ensures Serially(program, c, more) == Serially(program, c, turns)
    decreases more
  {
    if turns < more {
      FinishedStays(program, c, turns, more - 1);
    }
  }

  /** What a finished program did does not depend on how many turns it was given. */
  lemma {:induction false} OutcomeIsUnique(program: Program, c: Contents, turns: nat, others: nat)
    requires Finishes(program, c, turns) && Finishes(program, c, others)
    ensures Serially(program, c, turns) == Serially(program, c, others)
  {
    if turns <= others {
      FinishedStays(program, c, turns, others);
    } else {
      FinishedStays(program, c, others, turns);
    }
  }

  /** A program with a number of turns after which it is finished. */
  datatype Job = Job(program: Program, turns: nat)

  function RunJob(c: Contents, job: Job): Contents {
    ApplyOps(c, Serially(job.program, c, job.turns).ops)
  }

  /** The store after running these jobs one at a time. */
  function RunSerially(base: Contents, jobs: seq<Job>): Contents {
    if jobs == [] then base else RunJob(RunSerially(base, jobs[..|jobs| - 1]), jobs[|jobs| - 1])
  }

  lemma {:induction false} OneMoreJob(base: Contents, jobs: seq<Job>, job: Job)
    ensures RunSerially(base, jobs + [job]) == RunJob(RunSerially(base, jobs), job)
  {
    assert (jobs + [job])[..|jobs|] == jobs;
  }

  /** The store `c` holds every value that was handed out. */
  ghost predicate Saw(c: Contents, sightings: seq<Sighting>) {
    forall i :: 0 <= i < |sightings| ==> Lookup(c, sightings[i].key) == sightings[i].value
  }

  /** Objects that were read again showed what they did the first time. */
  ghost predicate SameAgain(sightings: seq<Sighting>, readSet: map<Key, Seen>) {
    forall i :: 0 <= i < |sightings| ==>
      sightings[i].key in readSet && sightings[i].value == ContentOf(readSet[sightings[i].key])
  }

  /** Where the read set is right, what was handed out is right exactly when it never changed. */
  lemma {:induction false} SawExactly(c: Contents, sightings: seq<Sighting>, readSet: map<Key, Seen>)
    requires forall k :: k in readSet ==> ContentOf(readSet[k]) == Lookup(c, k)
    requires forall i :: 0 <= i < |sightings| ==> sightings[i].key in readSet
    ensures Saw(c, sightings) <==> SameAgain(sightings, readSet)
  {
  }

  /** The transaction did what its program does against any store that holds what it was handed. */
  ghost predicate Follows(program: Program, turns: nat, l: Local, sightings: seq<Sighting>) {
    forall c: Contents :: Saw(c, sightings) ==> Serially(program, c, turns) == l
  }

  /** An object was read and its value handed out unless a staged write hides it. */
  function Sighted(l: Local, action: Action, stored: Option<Data>, at: nat, sightings: seq<Sighting>): seq<Sighting> {
    if action.Get? && action.key !in l.staged then sightings + [Sighting(action.key, stored, at)] else sightings
  }

  lemma {:induction false} FollowsOneMore(program: Program, turns: nat, l: Local, sightings: seq<Sighting>,
      stored: Option<Data>, at: nat)
    requires Follows(program, turns, l, sightings)
    ensures Follows(program, turns + 1, Take(l, program(l.answers), stored),
                    Sighted(l, program(l.answers), stored, at, sightings))
  {
    var action := program(l.answers);
    var after := Sighted(l, action, stored, at, sightings);
    forall c: Contents | Saw(c, after)
      ensures Serially(program, c, turns + 1) == Take(l, action, stored)
    {
      forall i | 0 <= i < |sightings|
        ensures Lookup(c, sightings[i].key) == sightings[i].value
      {
        assert after[i] == sightings[i];
      }
      assert Saw(c, sightings);
      if action.Get? && action.key !in l.staged {
        assert after[|sightings|] == Sighting(action.key, stored, at);
      }
    }
  }
}
