/**
  Named logs: the commit and snapshot calls of one log, routed to keys under its own home in one
  plain key-value bucket.

  A home is the key prefix of a log: nothing for the root log, `logs/{name}/` for a named one. The
  numbered objects of a log lie in folders: its commits, and the snapshots of each schema version.
*/
module Namespacing {
  import opened Wrappers
  import opened Encoding

  type Data = string
  type Objects = map<string, Data>

  datatype Kind = Commits | SnapshotsOf(schema: string)

  function Extension(kind: Kind): string {
    if kind.Commits? then ".msgpack" else ".sqlite"
  }

  function Sub(kind: Kind): string {
    match kind
    case Commits => "log/"
    case SnapshotsOf(schema) => "snapshots/v" + (schema + "/")
  }

  function Home(name: Option<string>): string {
    if name.None? then "" else "logs/" + (name.value + "/")
  }

  function Folder(name: Option<string>, kind: Kind): string {
    Home(name) + Sub(kind)
  }

  function KeyOf(name: Option<string>, kind: Kind, number: nat): string {
    Key(Folder(name, kind), number, Extension(kind))
  }

  predicate NoSlash(s: string) {
    '/' !in s
  }

  /** Names and schema versions are one key segment each. */
  predicate Plain(name: Option<string>, kind: Kind) {
    (name.Some? ==> NoSlash(name.value)) && (kind.SnapshotsOf? ==> NoSlash(kind.schema))
  }

  const LIMIT: nat := Pow10(COMMIT_WIDTH)

  /** The objects that a naming of numbers finds. */
  ghost function Found(objects: Objects, key: nat -> string): map<nat, Data> {
    map n: nat | n < LIMIT && key(n) in objects :: objects[key(n)]
  }

  ghost predicate OneToOne(key: nat -> string) {
    forall m: nat, n: nat :: m < LIMIT && n < LIMIT && key(m) == key(n) ==> m == n
  }

  lemma {:induction false} FoundAfterPut(objects: Objects, key: nat -> string, number: nat, data: Data)
    requires OneToOne(key) && number < LIMIT
    ensures number in Found(objects, key) <==> key(number) in objects
    ensures Found(objects[key(number) := data], key) == Found(objects, key)[number := data]
  {
  }

  lemma {:induction false} FoundAfterChange(before: Objects, after: Objects, key: nat -> string, keep: nat -> bool)
    requires forall n: nat :: n < LIMIT ==> (key(n) in after <==> key(n) in before && keep(n))
    requires forall k :: k in after && k in before ==> after[k] == before[k]
    ensures forall n :: n in Found(after, key) <==> n in Found(before, key) && keep(n)
    ensures forall n :: n in Found(after, key) ==> Found(after, key)[n] == Found(before, key)[n]
  {
  }

  /** The naming of one folder. */
  ghost function Naming(name: Option<string>, kind: Kind): nat -> string {
    (n: nat) => KeyOf(name, kind, n)
  }

  /** The abstract store of one folder: its objects by number, as if they had a bucket of their own. */
  ghost function View(objects: Objects, name: Option<string>, kind: Kind): map<nat, Data> {
    Found(objects, Naming(name, kind))
  }

  /** Only numbered objects lie in the folder: the log and snapshot prefixes are reserved for them. */
  ghost predicate Reserved(objects: Objects, name: Option<string>, kind: Kind) {
    forall k :: k in objects && Inside(Folder(name, kind), k) ==> IsNumbered(k, name, kind)
  }

  predicate Inside(folder: string, key: string) {
    folder <= key
  }

  predicate IsNumbered(k: string, name: Option<string>, kind: Kind) {
    var n := ParseKey(k, Extension(kind));
    n.Some? && n.value < LIMIT && k == KeyOf(name, kind, n.value)
  }

  /** All that changed lies under one folder. */
  ghost predicate OnlyIn(before: Objects, after: Objects, folder: string) {
    forall k :: !Inside(folder, k) ==> (k in before <==> k in after) && (k in before && k in after ==> before[k] == after[k])
  }

  lemma {:induction false} Differ(a: string, b: string, x: string, y: string, i: nat)
    requires i < |a| && i < |b| && a[i] != b[i]
    ensures a + x != b + y
  {
    assert (a + x)[i] == a[i] && (b + y)[i] == b[i];
  }

  /** Different segments, closed by a slash, never lead to the same text. */
  lemma {:induction false} SegmentsApart(a: string, b: string, x: string, y: string)
    requires NoSlash(a) && NoSlash(b) && a != b
    ensures (a + "/") + x != (b + "/") + y
  {
    var s, t := (a + "/") + x, (b + "/") + y;
    if |a| < |b| {
      assert s[|a|] == '/' && t[|a|] == b[|a|] && b[|a|] in b;
    } else if |b| < |a| {
      assert t[|b|] == '/' && s[|b|] == a[|b|] && a[|b|] in a;
    } else {
      assert s[..|a|] == a && t[..|b|] == b;
    }
  }

  lemma {:induction false} SchemasApart(m: string, n: string, x: string, y: string)
    requires NoSlash(m) && NoSlash(n) && m != n
    ensures Sub(SnapshotsOf(m)) + x != Sub(SnapshotsOf(n)) + y
  {
    SegmentsApart(m, n, x, y);
    assert (Sub(SnapshotsOf(m)) + x)[11..] == (m + "/") + x && (Sub(SnapshotsOf(n)) + y)[11..] == (n + "/") + y;
  }

  lemma {:induction false} SubsApart(k: Kind, l: Kind, x: string, y: string)
    requires k != l && (k.SnapshotsOf? ==> NoSlash(k.schema)) && (l.SnapshotsOf? ==> NoSlash(l.schema))
    ensures Sub(k) + x != Sub(l) + y
  {
    if k.SnapshotsOf? && l.SnapshotsOf? {
      SchemasApart(k.schema, l.schema, x, y);
    } else {
      Differ(Sub(k), Sub(l), x, y, 0);
    }
  }

  lemma {:induction false} NamedFromRoot(name: string, k: Kind, l: Kind, x: string, y: string)
    ensures Folder(Some(name), k) + x != Folder(None, l) + y
  {
    assert Folder(Some(name), k) + x == ("logs/" + (name + "/")) + (Sub(k) + x) && Folder(None, l) + y == Sub(l) + y;
    Differ("logs/" + (name + "/"), Sub(l), Sub(k) + x, y, if l.Commits? then 3 else 0);
  }

  lemma {:induction false} NamedFromNamed(m: string, n: string, x: string, y: string)
    requires NoSlash(m) && NoSlash(n) && m != n
    ensures Home(Some(m)) + x != Home(Some(n)) + y
  {
    SegmentsApart(m, n, x, y);
    assert (Home(Some(m)) + x)[5..] == (m + "/") + x && (Home(Some(n)) + y)[5..] == (n + "/") + y;
  }

  lemma {:induction false} SameHome(home: string, k: Kind, l: Kind, x: string, y: string)
    requires k != l && (k.SnapshotsOf? ==> NoSlash(k.schema)) && (l.SnapshotsOf? ==> NoSlash(l.schema))
    ensures home + (Sub(k) + x) != home + (Sub(l) + y)
  {
    SubsApart(k, l, x, y);
    assert (home + (Sub(k) + x))[|home|..] == Sub(k) + x && (home + (Sub(l) + y))[|home|..] == Sub(l) + y;
  }

  lemma {:induction false} Joined(name: Option<string>, kind: Kind, x: string)
    ensures Folder(name, kind) + x == Home(name) + (Sub(kind) + x)
  {
  }

  /** No key lies in the folders of two logs, nor in two folders of one log. */
  lemma {:induction false} FoldersApart(m: Option<string>, k: Kind, n: Option<string>, l: Kind, x: string, y: string)
    requires Plain(m, k) && Plain(n, l) && (m != n || k != l)
    ensures Folder(m, k) + x != Folder(n, l) + y
  {
    Joined(m, k, x);
    Joined(n, l, y);
    if m == n {
      SameHome(Home(m), k, l, x, y);
    } else if m.Some? && n.Some? {
      NamedFromNamed(m.value, n.value, Sub(k) + x, Sub(l) + y);
    } else if m.Some? {
      NamedFromRoot(m.value, k, l, x, y);
    } else {
      NamedFromRoot(n.value, l, k, y, x);
    }
  }

  lemma {:induction false} KeyIsInside(name: Option<string>, kind: Kind, number: nat)
    ensures Inside(Folder(name, kind), KeyOf(name, kind, number))
  {
  }

  lemma {:induction false} InsideOneOnly(m: Option<string>, k: Kind, n: Option<string>, l: Kind, key: string)
    requires Plain(m, k) && Plain(n, l) && (m != n || k != l) && Inside(Folder(n, l), key)
    ensures !Inside(Folder(m, k), key)
  {
    if Inside(Folder(m, k), key) {
      var x, y := SplitAt(Folder(m, k), key), SplitAt(Folder(n, l), key);
      FoldersApart(m, k, n, l, x, y);
    }
  }

  function SplitAt(folder: string, key: string): (rest: string)
    requires Inside(folder, key)
    ensures folder + rest == key
  {
    key[|folder|..]
  }

  /** What one log does in one of its folders changes no answer about any other folder or log. */
  lemma {:induction false} OtherViewsStay(before: Objects, after: Objects, m: Option<string>, k: Kind,
      n: Option<string>, l: Kind)
    requires Plain(m, k) && Plain(n, l) && (m != n || k != l)
    requires OnlyIn(before, after, Folder(m, k))
    ensures View(after, n, l) == View(before, n, l)
    ensures Reserved(before, n, l) ==> Reserved(after, n, l)
  {
    forall key | Inside(Folder(n, l), key)
      ensures key in before <==> key in after
      ensures key in before && key in after ==> before[key] == after[key]
    {
      InsideOneOnly(m, k, n, l, key);
    }
    SameFound(before, after, n, l);
  }

  lemma {:induction false} SameFound(before: Objects, after: Objects, n: Option<string>, l: Kind)
    requires forall key :: Inside(Folder(n, l), key) ==> (key in before <==> key in after) && (key in before && key in after ==> before[key] == after[key])
    ensures View(after, n, l) == View(before, n, l)
  {
    forall i: nat | i < LIMIT
      ensures var key := Naming(n, l)(i); (key in before <==> key in after) && (key in before && key in after ==> before[key] == after[key])
    {
      KeyIsInside(n, l, i);
    }
  }

  /** The bucket: generic conditional objects. */
  class KeyValue {
    var objects: Objects

    method PutIfAbsent(key: string, data: Data) returns (created: bool)
      modifies this
      ensures created <==> key !in old(objects)
      ensures objects == if created then old(objects)[key := data] else old(objects)
    {
      created := key !in objects;
      if created {
        objects := objects[key := data];
      }
    }

    method GetObject(key: string) returns (found: Option<Data>)
      ensures found == if key in objects then Some(objects[key]) else None
    {
      found := if key in objects then Some(objects[key]) else None;
    }

    method DeleteObject(key: string)
      modifies this
      ensures objects == old(objects) - {key}
    {
      objects := objects - {key};
    }

    method ListObjects(prefix: string) returns (keys: set<string>)
      ensures forall k :: k in keys <==> k in objects && Inside(prefix, k)
    {
      keys := set k | k in objects && Inside(prefix, k);
    }
  }

  lemma {:induction false} KeysDiffer(name: Option<string>, kind: Kind, m: nat, n: nat)
    requires m < LIMIT && n < LIMIT
    ensures KeyOf(name, kind, m) == KeyOf(name, kind, n) <==> m == n
    ensures ParseKey(KeyOf(name, kind, m), Extension(kind)) == Some(m)
  {
    KeyOrder(Folder(name, kind), m, n, Extension(kind));
    KeyRoundTrip(Folder(name, kind), m, Extension(kind));
  }

  lemma {:induction false} NamingIsOneToOne(name: Option<string>, kind: Kind)
    ensures OneToOne(Naming(name, kind))
  {
    forall m: nat, n: nat | m < LIMIT && n < LIMIT && Naming(name, kind)(m) == Naming(name, kind)(n)
      ensures m == n
    {
      KeysDiffer(name, kind, m, n);
    }
  }

  /** Putting one numbered object puts one entry into the view. */
  lemma {:induction false} ViewAfterPut(objects: Objects, name: Option<string>, kind: Kind, number: nat, data: Data)
    requires number < LIMIT
    ensures number in View(objects, name, kind) <==> KeyOf(name, kind, number) in objects
    ensures View(objects[KeyOf(name, kind, number) := data], name, kind) == View(objects, name, kind)[number := data]
    ensures Reserved(objects, name, kind) ==> Reserved(objects[KeyOf(name, kind, number) := data], name, kind)
  {
    NamingIsOneToOne(name, kind);
    FoundAfterPut(objects, Naming(name, kind), number, data);
    KeysDiffer(name, kind, number, number);
  }

  /** The commits and snapshots of one log, by number. Each call answers as a bucket of its own would. */
  class NamespacedStorage {
    const base: KeyValue
    const name: Option<string>

    constructor (base: KeyValue, name: Option<string>)
      ensures this.base == base && this.name == name
    {
      this.base := base;
      this.name := name;
    }

    /** put_commit and put_snapshot. */
    method Put(kind: Kind, number: nat, data: Data) returns (created: bool)
      modifies base
      ensures OnlyIn(old(base.objects), base.objects, Folder(name, kind))
      ensures number < LIMIT ==>
        && (created <==> number !in View(old(base.objects), name, kind))
        && View(base.objects, name, kind) == (if created then View(old(base.objects), name, kind)[number := data] else View(old(base.objects), name, kind))
        && (Reserved(old(base.objects), name, kind) ==> Reserved(base.objects, name, kind))
    {
      created := base.PutIfAbsent(KeyOf(name, kind, number), data);
      KeyIsInside(name, kind, number);
      if number < LIMIT {
        ViewAfterPut(old(base.objects), name, kind, number, data);
      }
    }

    /** get_commit and get_snapshot. */
    method Get(kind: Kind, number: nat) returns (found: Option<Data>)
      ensures number < LIMIT ==>
        found == if number in View(base.objects, name, kind) then Some(View(base.objects, name, kind)[number]) else None
    {
      found := base.GetObject(KeyOf(name, kind, number));
    }

    /** list_commits and list_snapshots: the numbers above `after`. */
    method List(kind: Kind, after: int) returns (listed: seq<nat>)
      requires Reserved(base.objects, name, kind)
      ensures Ascending(listed)
      ensures forall n :: n in listed <==> n in View(base.objects, name, kind) && n > after
    {
      var keys := base.ListObjects(Folder(name, kind));
      var numbers := Numbers(keys, kind, after);
      ListedIsView(base.objects, keys, name, kind, after);
      listed := Sorted(numbers);
    }

    /** delete_commits_before and delete_snapshots_before: one object after the other. */
    method DeleteBefore(kind: Kind, number: nat) returns (deleted: nat)
      requires Reserved(base.objects, name, kind)
      modifies base
      ensures OnlyIn(old(base.objects), base.objects, Folder(name, kind)) && Reserved(base.objects, name, kind)
      ensures forall n :: n in View(base.objects, name, kind) <==> n in View(old(base.objects), name, kind) && n >= number
      ensures forall n :: n in View(base.objects, name, kind) ==> View(base.objects, name, kind)[n] == View(old(base.objects), name, kind)[n]
      ensures deleted + |base.objects| == |old(base.objects)|
    {
      var keys := base.ListObjects(Folder(name, kind));
      deleted := 0;
      while keys != {}
        invariant keys <= base.objects.Keys
        invariant Thinned(old(base.objects), base.objects, keys, name, kind, number)
        invariant deleted + |base.objects| == |old(base.objects)|
        decreases keys
      {
        var k :| k in keys;
        var n := ParseKey(k, Extension(kind));
        ThinnedOneMore(old(base.objects), base.objects, keys, name, kind, number, k);
        if n.Some? && n.value < number {
          OneLess(base.objects, k);
          base.DeleteObject(k);
          deleted := deleted + 1;
        }
        keys := keys - {k};
      }
      ThinnedInside(old(base.objects), base.objects, {}, name, kind, number);
      ThinnedIsView(old(base.objects), base.objects, name, kind, number);
    }
  }

  lemma {:induction false} OneLess(objects: Objects, k: string)
    requires k in objects
    ensures |objects - {k}| + 1 == |objects|
  {
  }

  /** The numbers above `after` that the keys parse to. */
  function Numbers(keys: set<string>, kind: Kind, after: int): (numbers: set<nat>)
    ensures forall n :: n in numbers ==> exists k :: k in keys && ParseKey(k, Extension(kind)) == Some(n) && n > after
    ensures forall k :: k in keys && ParseKey(k, Extension(kind)).Some? && ParseKey(k, Extension(kind)).value > after ==>
      ParseKey(k, Extension(kind)).value in numbers
  {
    set k | k in keys && ParseKey(k, Extension(kind)).Some? && ParseKey(k, Extension(kind)).value > after :: ParseKey(k, Extension(kind)).value
  }

  lemma {:induction false} ListedIsView(objects: Objects, keys: set<string>, name: Option<string>, kind: Kind,
      after: int)
    requires Reserved(objects, name, kind)
    requires forall k :: k in keys <==> k in objects && Inside(Folder(name, kind), k)
    ensures forall n :: n in Numbers(keys, kind, after) <==> n in View(objects, name, kind) && n > after
  {
    forall n | n in View(objects, name, kind) && n > after
      ensures n in Numbers(keys, kind, after)
    {
      KeysDiffer(name, kind, n, n);
      KeyIsInside(name, kind, n);
      KeyIsListed(objects, keys, name, kind, after, KeyOf(name, kind, n), n);
    }
    forall n | n in Numbers(keys, kind, after)
      ensures n in View(objects, name, kind) && n > after
    {
      var k :| k in keys && ParseKey(k, Extension(kind)) == Some(n) && n > after;
      NumberedIsInView(objects, name, kind, k, n);
    }
  }

  lemma {:induction false} NumberedIsInView(objects: Objects, name: Option<string>, kind: Kind, k: string, n: nat)
    requires Reserved(objects, name, kind) && k in objects && Inside(Folder(name, kind), k)
    requires ParseKey(k, Extension(kind)) == Some(n)
    ensures n in View(objects, name, kind)
  {
    assert IsNumbered(k, name, kind);
  }

  lemma {:induction false} KeyIsListed(objects: Objects, keys: set<string>, name: Option<string>, kind: Kind,
      after: int, k: string, n: nat)
    requires forall k :: k in keys <==> k in objects && Inside(Folder(name, kind), k)
    requires k in objects && Inside(Folder(name, kind), k) && ParseKey(k, Extension(kind)) == Some(n)
    ensures n in Numbers(keys, kind, after) <==> n > after
  {
  }

  ghost predicate Below(k: string, kind: Kind, number: nat) {
    ParseKey(k, Extension(kind)).Some? && ParseKey(k, Extension(kind)).value < number
  }

  /** All but `keys` has been looked at, and what was to go is gone. */
  ghost predicate Thinned(before: Objects, after: Objects, keys: set<string>, name: Option<string>, kind: Kind,
      number: nat) {
    && (forall k :: k in keys ==> Inside(Folder(name, kind), k))
    && (forall k :: k in after ==> k in before && after[k] == before[k])
    && (forall k :: k in before && k !in after ==> Inside(Folder(name, kind), k) && Below(k, kind, number))
    && (forall k :: k in after && Inside(Folder(name, kind), k) && k !in keys ==> !Below(k, kind, number))
  }

  lemma {:induction false} ThinnedIsView(before: Objects, after: Objects, name: Option<string>, kind: Kind, number: nat)
    requires Thinned(before, after, {}, name, kind, number)
    ensures forall n :: n in View(after, name, kind) <==> n in View(before, name, kind) && n >= number
    ensures forall n :: n in View(after, name, kind) ==> View(after, name, kind)[n] == View(before, name, kind)[n]
  {
    var key, keep := Naming(name, kind), AtLeast(number);
    forall n: nat | n < LIMIT
      ensures key(n) in after <==> key(n) in before && keep(n)
    {
      StaysFrom(before, after, name, kind, number, n);
    }
    FoundAfterChange(before, after, key, keep);
  }

  function AtLeast(number: nat): nat -> bool {
    (n: nat) => n >= number
  }

  lemma {:induction false} StaysFrom(before: Objects, after: Objects, name: Option<string>, kind: Kind, number: nat,
      n: nat)
    requires Thinned(before, after, {}, name, kind, number) && n < LIMIT
    ensures KeyOf(name, kind, n) in after <==> KeyOf(name, kind, n) in before && n >= number
  {
    KeysDiffer(name, kind, n, n);
    KeyIsInside(name, kind, n);
    KeyStaysFrom(before, after, name, kind, number, KeyOf(name, kind, n), n);
  }

  lemma {:induction false} KeyStaysFrom(before: Objects, after: Objects, name: Option<string>, kind: Kind, number: nat,
      k: string, n: nat)
    requires Thinned(before, after, {}, name, kind, number)
    requires ParseKey(k, Extension(kind)) == Some(n) && Inside(Folder(name, kind), k)
    ensures k in after <==> k in before && n >= number
  {
  }

  lemma {:induction false} ThinnedOneMore(before: Objects, after: Objects, keys: set<string>, name: Option<string>,
      kind: Kind, number: nat, k: string)
    requires Thinned(before, after, keys, name, kind, number) && k in keys
    ensures Below(k, kind, number) ==> Thinned(before, after - {k}, keys - {k}, name, kind, number)
    ensures !Below(k, kind, number) ==> Thinned(before, after, keys - {k}, name, kind, number)
  {
  }

  lemma {:induction false} ThinnedInside(before: Objects, after: Objects, keys: set<string>, name: Option<string>,
      kind: Kind, number: nat)
    requires Thinned(before, after, keys, name, kind, number)
    ensures OnlyIn(before, after, Folder(name, kind))
    ensures Reserved(before, name, kind) ==> Reserved(after, name, kind)
  {
  }
}
