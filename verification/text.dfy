/** The string handling the slideshow relies on: JavaScript's `split` and `join` with a
    one-character separator, "last occurrence" positions, and decimal rendering of
    ordinals as template literals produce them. */
module Text {

  /** `s.lastIndexOf(c)`: the position of the last `c` in `s`, or -1 when there is none. */
  function LastIndexOf(s: string, c: char): (r: int)
    ensures -1 <= r < |s|
    decreases |s|
  {
    if |s| == 0 then -1
    else if s[|s| - 1] == c then |s| - 1
    else LastIndexOf(s[..|s| - 1], c)
  }

  /** What `LastIndexOf` finds: a `c`, with no `c` after it. */
  lemma {:induction false} LastIndexOfMeaning(s: string, c: char)
    ensures var r := LastIndexOf(s, c);
      && (r >= 0 ==> s[r] == c)
      && (forall k :: r < k < |s| ==> s[k] != c)
    decreases |s|
  {
    if |s| > 0 && s[|s| - 1] != c {
      var p := s[..|s| - 1];
      LastIndexOfMeaning(p, c);
      assert forall k :: 0 <= k < |p| ==> s[k] == p[k];
    }
  }

  /** Two characterisations of the last occurrence agree: any position holding `c` with
      no `c` after it is the one `LastIndexOf` finds. */
  lemma LastIndexOfUnique(s: string, c: char, r: int)
    requires -1 <= r < |s|
    requires r >= 0 ==> s[r] == c
    requires forall k :: r < k < |s| ==> s[k] != c
    ensures LastIndexOf(s, c) == r
  {
    LastIndexOfMeaning(s, c);
  }

  /** `s` has no `c` exactly when `LastIndexOf` reports -1. */
  lemma LastIndexOfAbsent(s: string, c: char)
    ensures LastIndexOf(s, c) == -1 <==> c !in s
  {
    LastIndexOfMeaning(s, c);
  }

  /** `s.split(c)` in JavaScript: the pieces between occurrences of `c`, including empty
      ones; text without `c` (the empty string among it) is a single piece. Defined here
      from the last separator backwards. */
  function Split(s: string, c: char): (parts: seq<string>)
    ensures |parts| >= 1
    decreases |s|
  {
    var l := LastIndexOf(s, c);
    if l < 0 then [s]
    else Split(s[..l], c) + [s[l + 1..]]
  }

  /** `parts.join(c)` in JavaScript. */
  function Join(parts: seq<string>, c: char): string
    decreases |parts|
  {
    if |parts| == 0 then ""
    else if |parts| == 1 then parts[0]
    else Join(parts[..|parts| - 1], c) + [c] + parts[|parts| - 1]
  }

  /** The last piece of a non-empty list (`arr[arr.length - 1]`, or `arr.pop()`'s value). */
  function Last<T>(xs: seq<T>): T
    requires |xs| > 0
  {
    xs[|xs| - 1]
  }

  /** `xs` without its last element (what `arr.pop()` leaves behind). */
  function DropLast<T>(xs: seq<T>): seq<T>
    requires |xs| > 0
  {
    xs[..|xs| - 1]
  }

  /** The text after the last `c` in `s`, or the whole of `s` when it has no `c`. */
  function AfterLast(s: string, c: char): string
  {
    s[LastIndexOf(s, c) + 1..]
  }

  /** What `AfterLast` means: a suffix of `s` free of `c`, which is either all of `s` (when
      `s` has no `c`) or is preceded by a `c`. */
  lemma AfterLastMeaning(s: string, c: char)
    ensures var r := AfterLast(s, c);
      && c !in r
      && |r| <= |s| && r == s[|s| - |r|..]
      && (|r| < |s| ==> s[|s| - |r| - 1] == c)
      && (|r| == |s| <==> c !in s)
  {
    LastIndexOfMeaning(s, c);
  }

  /** Splitting and joining again with the same separator gives back the original text. */
  lemma {:induction false} JoinSplit(s: string, c: char)
    ensures Join(Split(s, c), c) == s
    decreases |s|
  {
    var l := LastIndexOf(s, c);
    if l >= 0 {
      LastIndexOfMeaning(s, c);
      var front := Split(s[..l], c);
      JoinSplit(s[..l], c);
      assert (front + [s[l + 1..]])[..|front|] == front;
      assert s == s[..l] + [c] + s[l + 1..];
    }
  }

  /** No piece of `s.split(c)` contains `c`. */
  lemma {:induction false} SplitPiecesFree(s: string, c: char)
    ensures forall i :: 0 <= i < |Split(s, c)| ==> c !in Split(s, c)[i]
    decreases |s|
  {
    LastIndexOfMeaning(s, c);
    var l := LastIndexOf(s, c);
    if l >= 0 {
      SplitPiecesFree(s[..l], c);
    } else {
      LastIndexOfAbsent(s, c);
    }
  }

  /** Joining separator-free pieces and splitting again gives back the same pieces. */
  lemma {:induction false} SplitJoin(parts: seq<string>, c: char)
    requires |parts| >= 1
    requires forall i :: 0 <= i < |parts| ==> c !in parts[i]
    ensures Split(Join(parts, c), c) == parts
    decreases |parts|
  {
    var p := parts[|parts| - 1];
    if |parts| == 1 {
      LastIndexOfAbsent(p, c);
    } else {
      var front := parts[..|parts| - 1];
      var j := Join(front, c);
      var s := j + [c] + p;
      SplitJoin(front, c);
      assert forall k :: |j| < k < |s| ==> s[k] == p[k - |j| - 1];
      LastIndexOfUnique(s, c, |j|);
      assert s[..|j|] == j && s[|j| + 1..] == p;
      assert front + [p] == parts;
    }
  }

  /** The last piece of `s.split(c)` is the text after the last `c`. */
  lemma LastOfSplit(s: string, c: char)
    ensures Last(Split(s, c)) == AfterLast(s, c)
  {
  }

  /** `s.split(c)` with its last piece dropped and joined back is the text before the last
      `c`, or the empty string when `s` has no `c`. */
  lemma JoinDropLastOfSplit(s: string, c: char)
    ensures var l := LastIndexOf(s, c);
      Join(DropLast(Split(s, c)), c) == if l >= 0 then s[..l] else ""
  {
    var l := LastIndexOf(s, c);
    if l >= 0 {
      var front := Split(s[..l], c);
      assert DropLast(front + [s[l + 1..]]) == front;
      JoinSplit(s[..l], c);
    }
  }

  /** The text before the last `c` in `s`, or the empty string when `s` has no `c`. */
  function BeforeLast(s: string, c: char): string
  {
    var l := LastIndexOf(s, c);
    if l >= 0 then s[..l] else ""
  }

  /** What `BeforeLast` means: with a `c` in `s`, the text before it, the `c` and the
      text after it make up `s`; without one it is empty. Either way it is a prefix of
      `s`, so it holds no character `s` lacks. */
  lemma BeforeLastMeaning(s: string, c: char)
    ensures c in s ==> s == BeforeLast(s, c) + [c] + AfterLast(s, c)
    ensures c !in s ==> BeforeLast(s, c) == ""
    ensures |BeforeLast(s, c)| <= |s| && BeforeLast(s, c) == s[..|BeforeLast(s, c)|]
  {
    LastIndexOfMeaning(s, c);
    LastIndexOfAbsent(s, c);
    var l := LastIndexOf(s, c);
    if l >= 0 {
      assert s == s[..l] + [s[l]] + s[l + 1..];
    }
  }

  /** A character missing from `s` is missing from any prefix of it. */
  lemma PrefixLacks(s: string, n: nat, c: char)
    requires n <= |s| && c !in s
    ensures c !in s[..n]
  {
    assert forall k :: 0 <= k < n ==> s[..n][k] == s[k];
  }

  /** A decimal digit character. */
  predicate IsDigit(ch: char)
  {
    '0' <= ch <= '9'
  }

  predicate AllDigits(s: string)
  {
    forall i :: 0 <= i < |s| ==> IsDigit(s[i])
  }

  function DigitChar(d: nat): (ch: char)
    requires d < 10
    ensures IsDigit(ch)
  {
    (48 + d) as char
  }

  /** A non-negative integer as a template literal renders it (`${n}`): its decimal
      digits, most significant first, without leading zeros. */
  function NatToString(n: nat): (s: string)
    ensures |s| >= 1 && AllDigits(s)
    ensures |s| > 1 ==> s[0] != '0'
    decreases n
  {
    if n < 10 then [DigitChar(n)]
    else NatToString(n / 10) + [DigitChar(n % 10)]
  }

  /** Reads a string of decimal digits back as the number it denotes. */
  function ParseNat(s: string): nat
    requires AllDigits(s)
    decreases |s|
  {
    if |s| == 0 then 0
    else ParseNat(s[..|s| - 1]) * 10 + (s[|s| - 1] as int - 48)
  }

  /** Reading back a rendered number gives the number. */
  lemma {:induction false} ParseNatToString(n: nat)
    ensures ParseNat(NatToString(n)) == n
    decreases n
  {
    if n >= 10 {
      var s := NatToString(n);
      ParseNatToString(n / 10);
      assert s[..|s| - 1] == NatToString(n / 10);
    }
  }

  /** Distinct numbers render as distinct strings. */
  lemma NatToStringInjective(m: nat, n: nat)
    requires NatToString(m) == NatToString(n)
    ensures m == n
  {
    ParseNatToString(m);
    ParseNatToString(n);
  }
}
