/**
  Numbers as text: sequence numbers and object keys, zero-padded so that text order is number order.
*/
module Encoding {
  import opened Wrappers
  import opened Folding

  const COMMIT_WIDTH := 12
  const INDEX_WIDTH := 6

  function Pow10(w: nat): (p: nat)
    ensures p > 0
  {
    if w == 0 then 1 else 10 * Pow10(w - 1)
  }

  function DigitChar(d: nat): char
    requires d < 10
  {
    '0' + d as char
  }

  predicate IsDigit(c: char) {
    '0' <= c <= '9'
  }

  predicate AllDigits(s: string) {
    forall i :: 0 <= i < |s| ==> IsDigit(s[i])
  }

  /** Zero-padded decimal text of at least `w` digits; a number that needs more gets more. */
  function Padded(n: nat, w: nat): (s: string)
    ensures AllDigits(s)
    decreases n + w
  {
    if n == 0 && w == 0 then ""
    else Padded(n / 10, if w == 0 then 0 else w - 1) + [DigitChar(n % 10)]
  }

  /** The value of a string of digits. */
  function Value(s: string): nat
    requires AllDigits(s)
  {
    if s == "" then 0 else 10 * Value(s[..|s| - 1]) + (s[|s| - 1] - '0') as nat
  }

  lemma {:induction false} ValueOfPadded(n: nat, w: nat)
    ensures Value(Padded(n, w)) == n
    decreases n + w
  {
    if n > 0 || w > 0 {
      ValueOfPadded(n / 10, if w == 0 then 0 else w - 1);
      assert Padded(n, w)[..|Padded(n, w)| - 1] == Padded(n / 10, if w == 0 then 0 else w - 1);
    }
  }

  lemma {:induction false} ValueIsSmall(s: string)
    requires AllDigits(s)
    ensures Value(s) < Pow10(|s|)
    decreases |s|
  {
    if s != "" {
      ValueIsSmall(s[..|s| - 1]);
    }
  }

  /** The text has exactly the width asked for when the number fits, and more otherwise. */
  lemma {:induction false} PaddedWidth(n: nat, w: nat)
    ensures |Padded(n, w)| == w <==> n < Pow10(w)
    ensures |Padded(n, w)| >= w
    decreases w
  {
    if w > 0 {
      PaddedWidth(n / 10, w - 1);
    }
  }

  /** Order of code points, as object stores list keys. */
  predicate TextLess(a: string, b: string) {
    if a == "" then b != ""
    else if b == "" then false
    else a[0] < b[0] || (a[0] == b[0] && TextLess(a[1..], b[1..]))
  }

  lemma {:induction false} SharedFront(front: string, a: string, b: string)
    ensures TextLess(front + a, front + b) <==> TextLess(a, b)
    decreases |front|
  {
    if front == "" {
      assert front + a == a && front + b == b;
    } else {
      SharedFront(front[1..], a, b);
      assert (front + a)[1..] == front[1..] + a && (front + b)[1..] == front[1..] + b;
    }
  }

  /** Texts of one length compare by their fronts first, and by what follows when those are equal. */
  lemma {:induction false} FrontDecides(a: string, b: string, x: string, y: string)
    requires |a| == |b|
    ensures TextLess(a + x, b + y) <==> TextLess(a, b) || (a == b && TextLess(x, y))
    decreases |a|
  {
    if a == "" {
      assert a + x == x && b + y == y;
    } else {
      FrontDecides(a[1..], b[1..], x, y);
      assert (a + x)[1..] == a[1..] + x && (b + y)[1..] == b[1..] + y;
      assert a == [a[0]] + a[1..] && b == [b[0]] + b[1..];
    }
  }

  lemma {:induction false} DigitOrder(a: string, b: string)
    requires AllDigits(a) && AllDigits(b) && |a| == |b|
    ensures TextLess(a, b) <==> Value(a) < Value(b)
    ensures a == b <==> Value(a) == Value(b)
    decreases |a|
  {
    if a != "" {
      var last := |a| - 1;
      DigitOrder(a[..last], b[..last]);
      FrontDecides(a[..last], b[..last], a[last..], b[last..]);
      assert a == a[..last] + a[last..] && b == b[..last] + b[last..];
    }
  }

  lemma {:induction false} PaddedOrder(m: nat, n: nat, w: nat)
    requires m < Pow10(w) && n < Pow10(w)
    ensures TextLess(Padded(m, w), Padded(n, w)) <==> m < n
    ensures Padded(m, w) == Padded(n, w) <==> m == n
  {
    PaddedWidth(m, w);
    PaddedWidth(n, w);
    ValueOfPadded(m, w);
    ValueOfPadded(n, w);
    DigitOrder(Padded(m, w), Padded(n, w));
  }

  function Print(q: Sequence): string {
    Padded(q.commit, COMMIT_WIDTH) + ":" + Padded(q.index, INDEX_WIDTH)
  }

  /** The end-of-text anchor of the patterns also matches before one final newline. */
  function Anchored(s: string): string {
    if s != "" && s[|s| - 1] == '\n' then s[..|s| - 1] else s
  }

  /** Parses the canonical form; `None` stands for the ValueError of a malformed text or a commit of 0. */
  function ParseSequence(text: string): Option<Sequence> {
    var s := Anchored(text);
    if |s| == 19 && AllDigits(s[..12]) && s[12] == ':' && AllDigits(s[13..]) && Value(s[..12]) >= 1
    then Some(Sequence(Value(s[..12]), Value(s[13..])))
    else None
  }

  lemma {:induction false} WidthsInNumbers()
    ensures Pow10(COMMIT_WIDTH) == 1_000_000_000_000 && Pow10(INDEX_WIDTH) == 1_000_000
  {
  }

  /** Printing and parsing give the number back exactly when both parts fit their widths. */
  lemma {:induction false} SequenceRoundTrip(q: Sequence)
    requires q.commit >= 1
    ensures ParseSequence(Print(q)) == Some(q) <==> q.commit < 1_000_000_000_000 && q.index < 1_000_000
  {
    WidthsInNumbers();
    var c, i := Padded(q.commit, COMMIT_WIDTH), Padded(q.index, INDEX_WIDTH);
    PaddedWidth(q.commit, COMMIT_WIDTH);
    PaddedWidth(q.index, INDEX_WIDTH);
    ValueOfPadded(q.commit, COMMIT_WIDTH);
    ValueOfPadded(q.index, INDEX_WIDTH);
    assert Print(q)[|Print(q)| - 1] == i[|i| - 1];
    assert Anchored(Print(q)) == Print(q);
    if |c| == COMMIT_WIDTH && |i| == INDEX_WIDTH {
      assert Print(q)[..12] == c && Print(q)[13..] == i;
    }
  }

  /** Whatever parses, parses to a number that prints as the same text, up to a final newline. */
  lemma {:induction false} ParsedPrintsBack(text: string)
    requires ParseSequence(text).Some?
    ensures Print(ParseSequence(text).value) == Anchored(text)
  {
    var s := Anchored(text);
    PrintsBack(s[..12]);
    PrintsBack(s[13..]);
    assert s == s[..12] + ":" + s[13..];
  }

  /** The canonical form: twelve digits, a colon, six digits, with the two numbers as their values. */
  lemma {:induction false} CanonicalForm(q: Sequence)
    requires q.commit < 1_000_000_000_000 && q.index < 1_000_000
    ensures |Print(q)| == 19 && Print(q)[12] == ':' && AllDigits(Print(q)[..12]) && AllDigits(Print(q)[13..])
    ensures Value(Print(q)[..12]) == q.commit && Value(Print(q)[13..]) == q.index
    ensures Anchored(Print(q)) == Print(q)
  {
    WidthsInNumbers();
    var c, i := Padded(q.commit, COMMIT_WIDTH), Padded(q.index, INDEX_WIDTH);
    PaddedWidth(q.commit, COMMIT_WIDTH);
    PaddedWidth(q.index, INDEX_WIDTH);
    ValueOfPadded(q.commit, COMMIT_WIDTH);
    ValueOfPadded(q.index, INDEX_WIDTH);
    assert Print(q)[..12] == c && Print(q)[13..] == i;
    assert Print(q)[18] == i[5];
  }

  /** A text parses to a number exactly when it is the canonical form of that number, up to a final newline. */
  lemma {:induction false} ParsesExactly(text: string, q: Sequence)
    ensures ParseSequence(text) == Some(q) <==>
            1 <= q.commit < 1_000_000_000_000 && q.index < 1_000_000 && Anchored(text) == Print(q)
  {
    if ParseSequence(text) == Some(q) {
      ParsedPrintsBack(text);
      WidthsInNumbers();
      ValueIsSmall(Anchored(text)[..12]);
      ValueIsSmall(Anchored(text)[13..]);
    }
    if 1 <= q.commit < 1_000_000_000_000 && q.index < 1_000_000 {
      CanonicalForm(q);
    }
  }

  /** Value and last digit of a text are what its printing takes apart. */
  lemma {:induction false} LastDigitBack(s: string)
    requires s != "" && AllDigits(s) && Padded(Value(s[..|s| - 1]), |s| - 1) == s[..|s| - 1]
    ensures Padded(Value(s), |s|) == s
  {
    var front, last := s[..|s| - 1], s[|s| - 1];
    assert Value(s) == 10 * Value(front) + (last as int - '0' as int);
    assert Value(s) / 10 == Value(front) && DigitChar(Value(s) % 10) == last;
    assert s == front + [last];
  }

  lemma {:induction false} PrintsBack(s: string)
    requires AllDigits(s)
    ensures Padded(Value(s), |s|) == s
    decreases |s|
  {
    if s != "" {
      PrintsBack(s[..|s| - 1]);
      LastDigitBack(s);
    }
  }

  /** Text order is the order of (commit, index). */
  lemma {:induction false} SequenceOrder(a: Sequence, b: Sequence)
    requires a.commit < Pow10(COMMIT_WIDTH) && a.index < Pow10(INDEX_WIDTH)
    requires b.commit < Pow10(COMMIT_WIDTH) && b.index < Pow10(INDEX_WIDTH)
    ensures TextLess(Print(a), Print(b)) <==> !AtOrAfter(a, b)
  {
    PaddedWidth(a.commit, COMMIT_WIDTH);
    PaddedWidth(b.commit, COMMIT_WIDTH);
    PaddedOrder(a.commit, b.commit, COMMIT_WIDTH);
    PaddedOrder(a.index, b.index, INDEX_WIDTH);
    PairOrder(Padded(a.commit, COMMIT_WIDTH), Padded(b.commit, COMMIT_WIDTH), Padded(a.index, INDEX_WIDTH), Padded(b.index, INDEX_WIDTH));
  }

  lemma {:induction false} PairOrder(x: string, y: string, i: string, j: string)
    requires |x| == |y|
    ensures TextLess(x + ":" + i, y + ":" + j) <==> TextLess(x, y) || (x == y && TextLess(i, j))
  {
    FrontDecides(x, y, ":" + i, ":" + j);
    SharedFront(":", i, j);
    assert x + ":" + i == x + (":" + i) && y + ":" + j == y + (":" + j);
  }

  /** The cap on a batch keeps every index within its width. */
  lemma {:induction false} CappedIndexFits(index: nat, maxEventsPerCommit: nat)
    requires index < maxEventsPerCommit <= 100_000
    ensures index < Pow10(INDEX_WIDTH)
  {
  }

  /** An object key: a folder, the number, an extension. */
  function Key(folder: string, number: nat, extension: string): string {
    folder + Padded(number, COMMIT_WIDTH) + extension
  }

  /** The number in a key that ends in twelve digits and the extension, whatever comes before. */
  function ParseKey(key: string, extension: string): Option<nat> {
    var s := Anchored(key);
    var end := |s| - |extension|;
    if end >= COMMIT_WIDTH && s[end..] == extension && AllDigits(s[end - COMMIT_WIDTH..end])
    then Some(Value(s[end - COMMIT_WIDTH..end]))
    else None
  }

  /** A key gives its number back exactly when the number fits; a longer one is cut to its last digits. */
  lemma {:induction false} KeyRoundTrip(folder: string, number: nat, extension: string)
    requires extension != "" && extension[|extension| - 1] != '\n'
    ensures ParseKey(Key(folder, number, extension), extension) == Some(number) <==> number < 1_000_000_000_000
    ensures ParseKey(Key(folder, number, extension), extension).Some?
  {
    WidthsInNumbers();
    var d := Padded(number, COMMIT_WIDTH);
    PaddedWidth(number, COMMIT_WIDTH);
    ValueOfPadded(number, COMMIT_WIDTH);
    KeyParts(folder, d, extension);
    ValueIsSmall(d[|d| - COMMIT_WIDTH..]);
    if |d| == COMMIT_WIDTH {
      assert d[|d| - COMMIT_WIDTH..] == d;
    }
  }

  /** What the pattern sees of a key are the last twelve of its digits. */
  lemma {:induction false} KeyParts(folder: string, digits: string, extension: string)
    requires extension != "" && extension[|extension| - 1] != '\n'
    requires |digits| >= COMMIT_WIDTH && AllDigits(digits)
    ensures ParseKey(folder + digits + extension, extension) == Some(Value(digits[|digits| - COMMIT_WIDTH..]))
  {
    var s := folder + digits + extension;
    var end := |s| - |extension|;
    assert s[|s| - 1] == extension[|extension| - 1];
    assert s[end..] == extension;
    assert s[end - COMMIT_WIDTH..end] == digits[|digits| - COMMIT_WIDTH..];
  }

  /** Within a folder, keys sort as their numbers do. */
  lemma {:induction false} KeyOrder(folder: string, m: nat, n: nat, extension: string)
    requires m < Pow10(COMMIT_WIDTH) && n < Pow10(COMMIT_WIDTH)
    ensures TextLess(Key(folder, m, extension), Key(folder, n, extension)) <==> m < n
    ensures Key(folder, m, extension) == Key(folder, n, extension) <==> m == n
  {
    PaddedWidth(m, COMMIT_WIDTH);
    PaddedWidth(n, COMMIT_WIDTH);
    PaddedOrder(m, n, COMMIT_WIDTH);
    WrappedOrder(folder, Padded(m, COMMIT_WIDTH), Padded(n, COMMIT_WIDTH), extension);
  }

  lemma {:induction false} WrappedOrder(folder: string, a: string, b: string, extension: string)
    requires |a| == |b|
    ensures TextLess(folder + a + extension, folder + b + extension) <==> TextLess(a, b)
    ensures folder + a + extension == folder + b + extension <==> a == b
  {
    SharedFront(folder, a + extension, b + extension);
    FrontDecides(a, b, extension, extension);
    NotLessThanItself(extension);
    assert folder + a + extension == folder + (a + extension) && folder + b + extension == folder + (b + extension);
    assert (folder + a + extension)[|folder|..|folder| + |a|] == a && (folder + b + extension)[|folder|..|folder| + |b|] == b;
  }

  lemma {:induction false} NotLessThanItself(s: string)
    ensures !TextLess(s, s)
    decreases |s|
  {
    if s != "" {
      NotLessThanItself(s[1..]);
    }
  }

  /** The first digit of the first number that is too long, and of the last one that fits. */
  lemma {:induction false} FirstDigits(k: nat)
    ensures |Padded(Pow10(k), k)| == k + 1 && Padded(Pow10(k), k)[0] == '1'
    ensures k > 0 ==> |Padded(Pow10(k) - 1, k)| == k && Padded(Pow10(k) - 1, k)[0] == '9'
    decreases k
  {
    assert Padded(0, 0) == "";
    if k > 0 {
      FirstDigits(k - 1);
      assert Pow10(k) / 10 == Pow10(k - 1) && Pow10(k) % 10 == 0;
      assert (Pow10(k) - 1) / 10 == Pow10(k - 1) - 1 && (Pow10(k) - 1) % 10 == 9;
    }
  }

  /** Beyond its width, text order is not number order. */
  lemma {:induction false} OrderEndsWithTheWidth()
    ensures TextLess(Padded(Pow10(COMMIT_WIDTH), COMMIT_WIDTH), Padded(Pow10(COMMIT_WIDTH) - 1, COMMIT_WIDTH))
  {
    FirstDigits(COMMIT_WIDTH);
  }
}
