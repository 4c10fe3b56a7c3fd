/**
 * The fragment of Python's `str` behaviour the tool relies on: substring
 * search, `split`, `join`, `strip`, ASCII `lower`, and decimal numerals.
 * White space (`str.isspace`, `str.strip()`, regex `\s`) is taken in its
 * ASCII form: the space, '\t', '\n', '\r', '\v', '\f' and the four
 * separators U+001C to U+001F.
 */
module Strings {
  import opened Wrappers

  predicate IsSpace(c: char)
  {
    c == ' ' || c == '\t' || c == '\n' || c == '\r' || c == '\U{000B}' || c == '\U{000C}'
    || '\U{001C}' <= c <= '\U{001F}'
  }

  predicate IsDigit(c: char)
  {
    '0' <= c <= '9'
  }

  predicate IsAsciiUpper(c: char)
  {
    'A' <= c <= 'Z'
  }

  predicate IsAsciiLower(c: char)
  {
    'a' <= c <= 'z'
  }

  /** `t` occurs in `s` starting at index `i`. */
  predicate OccursAt(s: string, t: string, i: nat)
  {
    i + |t| <= |s| && s[i..i + |t|] == t
  }

  /** Where `\s*` starting at `j` stops. */
  function SkipSpace(s: string, j: nat): (r: nat)
    requires j <= |s|
    ensures j <= r <= |s|
    ensures forall k :: j <= k < r ==> IsSpace(s[k])
    ensures r < |s| ==> !IsSpace(s[r])
    decreases |s| - j
  {
    if j == |s| || !IsSpace(s[j]) then j else SkipSpace(s, j + 1)
  }

  /** Where `[^\s]*` starting at `j` stops. */
  function SkipWord(s: string, j: nat): (r: nat)
    requires j <= |s|
    ensures j <= r <= |s|
    ensures forall k :: j <= k < r ==> !IsSpace(s[k])
    ensures r < |s| ==> IsSpace(s[r])
    decreases |s| - j
  {
    if j == |s| || IsSpace(s[j]) then j else SkipWord(s, j + 1)
  }

  /** Where `\d*` starting at `j` stops. */
  function SkipDigits(s: string, j: nat): (r: nat)
    requires j <= |s|
    ensures j <= r <= |s|
    ensures forall k :: j <= k < r ==> IsDigit(s[k])
    ensures r < |s| ==> !IsDigit(s[r])
    decreases |s| - j
  {
    if j == |s| || !IsDigit(s[j]) then j else SkipDigits(s, j + 1)
  }

  /** Index of the first occurrence of `t` in `s` at or after `from` (Python's `str.find`). */
  function FindFrom(s: string, t: string, from: nat): (r: Option<nat>)
    ensures r.Some? ==> from <= r.value && OccursAt(s, t, r.value)
    ensures forall j: nat :: from <= j && (r.None? || j < r.value) ==> !OccursAt(s, t, j)
    decreases |s| - from
  {
    if from + |t| > |s| then None
    else if OccursAt(s, t, from) then Some(from)
    else FindFrom(s, t, from + 1)
  }

  /** Python's `t in s` for strings. */
  predicate Contains(s: string, t: string)
  {
    FindFrom(s, t, 0).Some?
  }

  lemma ContainsAt(s: string, t: string, i: nat)
    requires OccursAt(s, t, i)
    ensures Contains(s, t)
  {
  }

  lemma ContainsOnlyAt(s: string, t: string) returns (i: nat)
    requires Contains(s, t)
    ensures OccursAt(s, t, i)
  {
    i := FindFrom(s, t, 0).value;
  }

  /** A substring of `b` is a substring of any string that has `b` as its suffix. */
  lemma ContainsInSuffix(a: string, b: string, t: string)
    requires Contains(b, t)
    ensures Contains(a + b, t)
  {
    var i := ContainsOnlyAt(b, t);
    assert (a + b)[|a| + i..|a| + i + |t|] == b[i..i + |t|];
    ContainsAt(a + b, t, |a| + i);
  }

  lemma ContainsInPrefix(a: string, b: string, t: string)
    requires Contains(a, t)
    ensures Contains(a + b, t)
  {
    var i := ContainsOnlyAt(a, t);
    assert (a + b)[i..i + |t|] == a[i..i + |t|];
    ContainsAt(a + b, t, i);
  }

  /** Whoever contains `t` contains every prefix of `t`. */
  lemma ContainsPrefixOf(s: string, t: string, u: string)
    requires Contains(s, t) && u <= t
    ensures Contains(s, u)
  {
    var i := ContainsOnlyAt(s, t);
    assert s[i..i + |u|] == t[..|u|];
    ContainsAt(s, u, i);
  }

  /** A string with no character `c` has no substring holding `c`. */
  lemma NotContainsCharFree(s: string, t: string, c: char)
    requires c !in s && c in t
    ensures !Contains(s, t)
  {
    forall i: nat | i + |t| <= |s|
      ensures !OccursAt(s, t, i)
    {
      var w := s[i..i + |t|];
      assert forall k :: 0 <= k < |w| ==> w[k] == s[i + k];
      assert c !in w;
    }
  }

  /** First index of `c` in `s` at or after `from`, or `|s|` when there is none. */
  function IndexOfChar(s: string, c: char, from: nat): (r: nat)
    requires from <= |s|
    ensures from <= r <= |s|
    ensures r < |s| ==> s[r] == c
    ensures forall j :: from <= j < r ==> s[j] != c
    decreases |s| - from
  {
    if from == |s| || s[from] == c then from else IndexOfChar(s, c, from + 1)
  }

  /** `IndexOfChar` from `from` gives `i` when `i` is the end or a `c` with none before it. */
  lemma {:induction false} IndexOfCharIs(s: string, c: char, from: nat, i: nat)
    requires from <= i <= |s| && (i < |s| ==> s[i] == c)
    requires forall j :: from <= j < i ==> s[j] != c
    ensures IndexOfChar(s, c, from) == i
    decreases i - from
  {
    if from < i {
      IndexOfCharIs(s, c, from + 1, i);
    }
  }

  /** Python's `s.split(c)` for a one-character separator. */
  function Split(s: string, c: char): (r: seq<string>)
    ensures |r| >= 1
    ensures forall k :: 0 <= k < |r| ==> c !in r[k]
    decreases |s|
  {
    var i := IndexOfChar(s, c, 0);
    if i == |s| then [s] else [s[..i]] + Split(s[i + 1..], c)
  }

  /** Python's `sep.join(parts)`. */
  function Join(parts: seq<string>, sep: string): string
  {
    if |parts| == 0 then ""
    else if |parts| == 1 then parts[0]
    else parts[0] + sep + Join(parts[1..], sep)
  }

  /** Concatenation of sequences is associative. */
  lemma ConcatAssociative<T>(a: seq<T>, b: seq<T>, c: seq<T>)
    ensures a + b + c == a + (b + c)
  {
  }

  /** The pieces of `a + [c] + b` around a position `i` of `a` or around the `c`. */
  lemma ConcatPieces(a: string, c: char, b: string, i: nat)
    requires i <= |a|
    ensures var s := a + [c] + b;
      && s[..i] == a[..i] && s[|a|] == c
      && (i < |a| ==> s[i] == a[i] && s[i + 1..] == a[i + 1..] + [c] + b)
      && s[|a| + 1..] == b
  {
    var s := a + [c] + b;
    if i < |a| {
      assert s[i + 1..] == a[i + 1..] + [c] + b;
    }
  }

  lemma {:induction false} SplitThenJoin(s: string, c: char)
    ensures Join(Split(s, c), [c]) == s
    decreases |s|
  {
    var i := IndexOfChar(s, c, 0);
    if i < |s| {
      var rest := Split(s[i + 1..], c);
      SplitThenJoin(s[i + 1..], c);
      assert Split(s, c) == [s[..i]] + rest;
      assert ([s[..i]] + rest)[1..] == rest;
      assert s == s[..i] + [c] + s[i + 1..];
    }
  }

  /** Splitting a text free of the separator gives the text alone. */
  lemma SplitWithout(s: string, c: char)
    requires c !in s
    ensures Split(s, c) == [s]
  {
    assert forall j :: 0 <= j < |s| ==> s[j] != c;
    IndexOfCharIs(s, c, 0, |s|);
  }

  /** Splitting `p + [c] + rest` where `p` is free of `c` gives `p`, then the pieces of `rest`. */
  lemma SplitFirst(p: string, c: char, rest: string)
    requires c !in p
    ensures Split(p + [c] + rest, c) == [p] + Split(rest, c)
  {
    var s := p + [c] + rest;
    assert forall j :: 0 <= j < |p| ==> p[j] != c;
    ConcatPieces(p, c, rest, |p|);
    assert s[..|p|] == p && s[|p| + 1..] == rest;
    IndexOfCharIs(s, c, 0, |p|);
  }

  lemma {:induction false} JoinThenSplit(parts: seq<string>, c: char)
    requires |parts| >= 1
    requires forall k :: 0 <= k < |parts| ==> c !in parts[k]
    ensures Split(Join(parts, [c]), c) == parts
    decreases |parts|
  {
    if |parts| == 1 {
      SplitWithout(parts[0], c);
    } else {
      SplitFirst(parts[0], c, Join(parts[1..], [c]));
      JoinThenSplit(parts[1..], c);
      assert parts == [parts[0]] + parts[1..];
    }
  }

  lemma {:induction false} JoinAssociative(a: seq<string>, b: seq<string>, sep: string)
    requires a != [] && b != []
    ensures Join(a + b, sep) == Join(a, sep) + sep + Join(b, sep)
    decreases |a|
  {
    if |a| == 1 {
      assert (a + b)[1..] == b;
    } else {
      JoinAssociative(a[1..], b, sep);
      assert (a + b)[1..] == a[1..] + b;
    }
  }

  lemma JoinStartsWithFirst(parts: seq<string>, sep: string)
    requires parts != []
    ensures parts[0] <= Join(parts, sep)
  {
  }

  lemma {:induction false} JoinEndsWithLast(parts: seq<string>, sep: string)
    requires parts != []
    ensures var j := Join(parts, sep); var l := parts[|parts| - 1];
      |l| <= |j| && j[|j| - |l|..] == l
  {
    if |parts| > 1 {
      JoinEndsWithLast(parts[1..], sep);
    }
  }

  /** Splitting at a separator character splits each side of it separately. */
  lemma {:induction false} SplitConcat(a: string, b: string, c: char)
    ensures Split(a + [c] + b, c) == Split(a, c) + Split(b, c)
    decreases |a|
  {
    var i := IndexOfChar(a, c, 0);
    var head := a[..i];
    assert forall j :: 0 <= j < i ==> head[j] == a[j];
    assert c !in head;
    if i == |a| {
      assert head == a;
      SplitWithout(a, c);
      SplitFirst(a, c, b);
    } else {
      var rest := a[i + 1..];
      assert a == head + [c] + rest;
      assert a + [c] + b == head + [c] + (rest + [c] + b);
      SplitFirst(head, c, rest + [c] + b);
      SplitFirst(head, c, rest);
      SplitConcat(rest, b, c);
      ConcatAssociative([head], Split(rest, c), Split(b, c));
    }
  }

  /** Python's `s.split(sep)` for a non-empty separator string. */
  function SplitStr(s: string, sep: string): (r: seq<string>)
    requires sep != ""
    ensures |r| >= 1
    decreases |s|
  {
    match FindFrom(s, sep, 0)
    case None => [s]
    case Some(i) => [s[..i]] + SplitStr(s[i + |sep|..], sep)
  }

  lemma SplitStrSingle(s: string, sep: string)
    requires sep != ""
    ensures |SplitStr(s, sep)| == 1 <==> !Contains(s, sep)
  {
  }

  /** Character classes stripped by `strip()` and `strip(c)`. */
  datatype CharClass = Whitespace | Exactly(c: char)

  predicate InClass(cls: CharClass, x: char)
  {
    match cls
    case Whitespace => IsSpace(x)
    case Exactly(c) => x == c
  }

  /** `s` with its leading run of `cls` characters removed. */
  function TrimLeft(s: string, cls: CharClass): (r: string)
    ensures |r| <= |s| && r == s[|s| - |r|..]
    ensures r != [] ==> !InClass(cls, r[0])
    ensures forall j :: 0 <= j < |s| - |r| ==> InClass(cls, s[j])
    decreases |s|
  {
    if s != [] && InClass(cls, s[0]) then TrimLeft(s[1..], cls) else s
  }

  /** `s` with its trailing run of `cls` characters removed. */
  function TrimRight(s: string, cls: CharClass): (r: string)
    ensures |r| <= |s| && r == s[..|r|]
    ensures r != [] ==> !InClass(cls, r[|r| - 1])
    ensures forall j :: |r| <= j < |s| ==> InClass(cls, s[j])
    decreases |s|
  {
    if s != [] && InClass(cls, s[|s| - 1]) then TrimRight(s[..|s| - 1], cls) else s
  }

  /** Python's `s.strip()`. */
  function Strip(s: string): string
  {
    TrimRight(TrimLeft(s, Whitespace), Whitespace)
  }

  /** Python's `s.strip(c)`. */
  function StripChar(s: string, c: char): string
  {
    TrimRight(TrimLeft(s, Exactly(c)), Exactly(c))
  }

  /** Python's `s.rstrip(c)`. */
  function RStripChar(s: string, c: char): string
  {
    TrimRight(s, Exactly(c))
  }

  /** Trimming removes characters and adds none: a character absent from `s` is absent after either trim. */
  lemma TrimAvoids(s: string, cls: CharClass, c: char)
    requires c !in s
    ensures c !in TrimLeft(s, cls) && c !in TrimRight(s, cls)
  {
    var l := TrimLeft(s, cls);
    var r := TrimRight(s, cls);
    assert forall k :: 0 <= k < |l| ==> l[k] == s[|s| - |l| + k];
    assert forall k :: 0 <= k < |r| ==> r[k] == s[k];
  }

  /** A character absent from `s` is absent from `s.strip()`. */
  lemma StripAvoids(s: string, c: char)
    requires c !in s
    ensures c !in Strip(s)
  {
    TrimAvoids(s, Whitespace, c);
    TrimAvoids(TrimLeft(s, Whitespace), Whitespace, c);
  }

  /** A character absent from `s` is absent from `s.strip(x)`. */
  lemma StripCharAvoids(s: string, x: char, c: char)
    requires c !in s
    ensures c !in StripChar(s, x)
  {
    TrimAvoids(s, Exactly(x), c);
    TrimAvoids(TrimLeft(s, Exactly(x)), Exactly(x), c);
  }

  /** Trimming from the left leaves nothing exactly when every character is of the class. */
  lemma {:induction false} TrimLeftEmptyIff(s: string, cls: CharClass)
    ensures TrimLeft(s, cls) == [] <==> forall j :: 0 <= j < |s| ==> InClass(cls, s[j])
    decreases |s|
  {
    if s != [] && InClass(cls, s[0]) {
      TrimLeftEmptyIff(s[1..], cls);
      assert forall j :: 1 <= j < |s| ==> s[j] == s[1..][j - 1];
    }
  }

  lemma StripEmptyIff(s: string)
    ensures Strip(s) == "" <==> forall j :: 0 <= j < |s| ==> IsSpace(s[j])
  {
    var l := TrimLeft(s, Whitespace);
    TrimLeftEmptyIff(s, Whitespace);
    if l != [] {
      assert !IsSpace(l[0]);
      assert TrimRight(l, Whitespace) != [];
    }
  }

  function LowerChar(c: char): char
  {
    if IsAsciiUpper(c) then (c as int + 32) as char else c
  }

  /** Python's `s.lower()` on the ASCII letters. */
  function Lower(s: string): (r: string)
    ensures |r| == |s|
    ensures forall i :: 0 <= i < |s| ==> r[i] == LowerChar(s[i])
  {
    seq(|s|, i requires 0 <= i < |s| => LowerChar(s[i]))
  }

  /** Python's `s.replace(a, b)` for single characters. */
  function ReplaceChar(s: string, a: char, b: char): (r: string)
    ensures |r| == |s|
    ensures forall i :: 0 <= i < |s| ==> r[i] == (if s[i] == a then b else s[i])
  {
    seq(|s|, i requires 0 <= i < |s| => if s[i] == a then b else s[i])
  }

  /** Python's `s * n`. */
  function Repeat(s: string, n: nat): (r: string)
    ensures |r| == n * |s|
  {
    if n == 0 then "" else s + Repeat(s, n - 1)
  }

  function DigitChar(d: nat): char
    requires d < 10
  {
    (48 + d) as char
  }

  function DigitValue(c: char): nat
    requires IsDigit(c)
  {
    c as int - 48
  }

  predicate AllDigits(s: string)
  {
    forall i :: 0 <= i < |s| ==> IsDigit(s[i])
  }

  /** Python's `str(n)` for a natural number. */
  function NatToString(n: nat): (r: string)
    ensures r != "" && AllDigits(r)
    decreases n
  {
    if n < 10 then [DigitChar(n)] else NatToString(n / 10) + [DigitChar(n % 10)]
  }

  /** Python's `int(ds)` for a string of decimal digits. */
  function DigitsValue(ds: string): nat
    requires AllDigits(ds)
  {
    if ds == "" then 0 else 10 * DigitsValue(ds[..|ds| - 1]) + DigitValue(ds[|ds| - 1])
  }

  /** `int(str(n)) == n`. */
  lemma {:induction false} NatToStringRoundTrip(n: nat)
    ensures DigitsValue(NatToString(n)) == n
    decreases n
  {
    var r := NatToString(n);
    if n >= 10 {
      NatToStringRoundTrip(n / 10);
      assert r[..|r| - 1] == NatToString(n / 10);
    }
  }

  /** Splitting a '/'-rooted path made of '/'-free names followed by more text. */
  lemma RootedSplit(all: seq<string>, dep: string)
    requires all != [] && forall k :: 0 <= k < |all| ==> '/' !in all[k]
    ensures Split("/" + (Join(all, "/") + "/" + dep), '/') == [""] + (all + Split(dep, '/'))
  {
    var j := Join(all, "/");
    var s := j + "/" + dep;
    JoinThenSplit(all, '/');
    SplitConcat(j, dep, '/');
    SplitConcat("", s, '/');
    assert "/" + s == "" + ['/'] + s;
    assert Split("", '/') == [""];
  }
}
