/** Small string toolkit shared by every module of the model: an Option type,
    substring search with JavaScript's leftmost semantics, `trim`, an ASCII
    `toLowerCase`, the last segment of a `split`, decimal rendering and parsing,
    and the clamping `slice` of JavaScript strings and arrays. */
module Strings {

  datatype Option<+T> = None | Some(value: T)

  // ---------------------------------------------------------------------------
  // Substrings

  /** `p` occurs in `s` starting at index `i`. */
  predicate OccursAt(s: string, p: string, i: nat) {
    i + |p| <= |s| && s[i..i + |p|] == p
  }

  predicate StartsWith(s: string, p: string) {
    OccursAt(s, p, 0)
  }

  lemma StartsWithConcat(p: string, rest: string)
    ensures StartsWith(p + rest, p)
  {
    assert (p + rest)[..|p|] == p;
  }

  /** Specification of "p is a substring of s". */
  ghost predicate Occurs(s: string, p: string) {
    exists i: nat :: OccursAt(s, p, i)
  }

  /** JavaScript's `s.indexOf(p, from)`: the leftmost occurrence at or after `from`. */
  function IndexOf(s: string, p: string, from: nat): (r: Option<nat>)
    ensures r.Some? ==> from <= r.value && OccursAt(s, p, r.value)
    ensures r.Some? ==> forall j :: from <= j < r.value ==> !OccursAt(s, p, j)
    ensures r.None? ==> forall j :: from <= j ==> !OccursAt(s, p, j)
    decreases |s| - from
  {
    if from + |p| > |s| then None
    else if s[from..from + |p|] == p then Some(from)
    else IndexOf(s, p, from + 1)
  }

  /** JavaScript's `s.includes(p)`. */
  predicate Includes(s: string, p: string) {
    IndexOf(s, p, 0).Some?
  }

  lemma IncludesIff(s: string, p: string)
    ensures Includes(s, p) <==> Occurs(s, p)
  {
    if Occurs(s, p) {
      var i: nat :| OccursAt(s, p, i);
      assert 0 <= i;
    }
  }

  lemma IncludesAt(s: string, p: string, i: nat)
    requires OccursAt(s, p, i)
    ensures Includes(s, p)
  {
    IncludesIff(s, p);
  }

  /** Every string includes the empty string, so an empty search query keeps everything. */
  lemma IncludesEmpty(s: string)
    ensures Includes(s, "")
  {
    assert OccursAt(s, "", 0);
  }

  /** A string that includes `p + q` includes `p`. */
  lemma IncludesPrefixOf(s: string, p: string, q: string)
    requires Includes(s, p + q)
    ensures Includes(s, p)
  {
    IncludesIff(s, p + q);
    var i: nat :| OccursAt(s, p + q, i);
    assert s[i..i + |p|] == (p + q)[..|p|];
    IncludesAt(s, p, i);
  }

  /** An occurrence with none before it is the one `indexOf` finds. */
  lemma IndexOfFirst(s: string, p: string, i: nat)
    requires OccursAt(s, p, i)
    requires forall j :: 0 <= j < i ==> !OccursAt(s, p, j)
    ensures IndexOf(s, p, 0) == Some(i)
  {
  }

  /** An occurrence inside a piece of `s` is an occurrence in `s`. */
  lemma OccursAtShift(a: string, s: string, p: string, i: nat)
    requires OccursAt(s, p, i)
    ensures OccursAt(a + s, p, |a| + i)
  {
    assert (a + s)[|a| + i..|a| + i + |p|] == s[i..i + |p|];
  }

  /** An occurrence at `i` puts the `j`-th character of `p` at `i + j`. */
  lemma OccursAtChar(s: string, p: string, i: nat, j: nat)
    ensures OccursAt(s, p, i) && j < |p| ==> s[i + j] == p[j]
  {
    if OccursAt(s, p, i) && j < |p| {
      assert s[i..i + |p|][j] == s[i + j];
    }
  }

  /** `part` is `rest` up to the first occurrence of `sep` in it, or all of
      `rest` when `sep` does not occur: no occurrence starts inside `part`,
      and one starts right after it unless `part` runs to the end. */
  predicate PieceBeforeNext(rest: string, sep: string, part: string) {
    && |part| <= |rest| && rest[..|part|] == part
    && (|part| == |rest| || OccursAt(rest, sep, |part|))
    && forall k: nat :: k < |part| ==> !OccursAt(rest, sep, k)
  }

  /** At most one piece fits that description. */
  lemma PieceBeforeNextUnique(rest: string, sep: string, a: string, b: string)
    requires |sep| > 0
    requires PieceBeforeNext(rest, sep, a) && PieceBeforeNext(rest, sep, b)
    ensures a == b
  {
    assert |a| == |b|;
  }

  /** `s.split(sep)[1]` for a non-empty separator: the text between the first
      occurrence of `sep` and the next one, or the end; `None` when `sep`
      does not occur. */
  function SplitSecond(s: string, sep: string): (r: Option<string>)
    requires |sep| > 0
    ensures r.None? <==> !Includes(s, sep)
    ensures r.Some? ==> Includes(s, sep + r.value) && !Includes(r.value, sep)
    ensures r.Some? ==> IndexOf(s, sep, 0).Some?
                        && PieceBeforeNext(s[IndexOf(s, sep, 0).value + |sep|..], sep, r.value)
  {
    match IndexOf(s, sep, 0)
    case None => None
    case Some(i) =>
      var part := UpToFirst(s[i + |sep|..], sep);
      PieceFollowsSeparator(s, sep, i, part);
      Some(part)
  }

  /** The separator at `i`, followed by a piece of the text after it, occurs in `s`. */
  lemma PieceFollowsSeparator(s: string, sep: string, i: nat, part: string)
    requires OccursAt(s, sep, i)
    requires |part| <= |s[i + |sep|..]| && s[i + |sep|..][..|part|] == part
    ensures Includes(s, sep + part)
  {
    var rest := s[i + |sep|..];
    assert s[i..i + |sep| + |part|] == s[i..i + |sep|] + rest[..|part|];
    IncludesAt(s, sep + part, i);
  }

  /** The text of `rest` before the first `sep`, or all of it. */
  function UpToFirst(rest: string, sep: string): (part: string)
    requires |sep| > 0
    ensures !Includes(part, sep)
    ensures PieceBeforeNext(rest, sep, part)
  {
    var part := (match IndexOf(rest, sep, 0)
      case Some(j) => rest[..j]
      case None => rest);
    PrefixBeforeFirst(rest, sep, part);
    part
  }

  /** A piece of `rest` that ends before the first `sep` holds no `sep`. */
  lemma PrefixBeforeFirst(rest: string, sep: string, part: string)
    requires |sep| > 0
    requires IndexOf(rest, sep, 0).Some? ==> part == rest[..IndexOf(rest, sep, 0).value]
    requires IndexOf(rest, sep, 0).None? ==> part == rest
    ensures !Includes(part, sep)
    ensures PieceBeforeNext(rest, sep, part)
  {
    forall k: nat | k + |sep| <= |part| ensures !OccursAt(part, sep, k) {
      assert rest[k..k + |sep|] == part[k..k + |sep|];
      assert !OccursAt(rest, sep, k);
    }
    IncludesIff(part, sep);
  }

  /** Appending text after the first occurrence does not move it. */
  lemma FirstOccurrenceKept(head: string, sep: string, part: string, i: nat)
    requires IndexOf(head, sep, 0) == Some(i)
    ensures IndexOf(head + part, sep, 0) == Some(i)
  {
    var url := head + part;
    assert OccursAt(url, sep, i) by {
      assert url[i..i + |sep|] == head[i..i + |sep|];
    }
    forall j | 0 <= j < i ensures !OccursAt(url, sep, j) {
      assert !OccursAt(head, sep, j);
      assert url[j..j + |sep|] == head[j..j + |sep|];
    }
    IndexOfFirst(url, sep, i);
  }

  /** Joining a head that ends in its first `sep` with a piece free of `sep`,
      and splitting again, gives the piece back. */
  lemma SplitSecondRoundTrip(head: string, sep: string, part: string)
    requires |sep| > 0 && |head| >= |sep|
    requires IndexOf(head, sep, 0) == Some(|head| - |sep|)
    requires !Includes(part, sep)
    ensures SplitSecond(head + part, sep) == Some(part)
  {
    FirstOccurrenceKept(head, sep, part, |head| - |sep|);
    var url := head + part;
    assert url[|head|..] == part;
  }

  // ---------------------------------------------------------------------------
  // Whitespace and `trim`

  /** The characters JavaScript's `trim` and the regular-expression class `\s`
      treat as white space (WhiteSpace and LineTerminator of ECMAScript). */
  predicate IsSpace(ch: char) {
    || ch == ' ' || ch == '\t' || ch == '\n' || ch == '\r'
    || ch == '\U{000B}' || ch == '\U{000C}' || ch == '\U{00A0}' || ch == '\U{1680}'
    || ('\U{2000}' <= ch <= '\U{200A}')
    || ch == '\U{2028}' || ch == '\U{2029}' || ch == '\U{202F}' || ch == '\U{205F}'
    || ch == '\U{3000}' || ch == '\U{FEFF}'
  }

  function TrimStart(s: string): (r: string)
    ensures |r| <= |s| && r == s[|s| - |r|..]
    ensures forall i :: 0 <= i < |s| - |r| ==> IsSpace(s[i])
    ensures r == [] || !IsSpace(r[0])
    decreases |s|
  {
    if s == [] || !IsSpace(s[0]) then s else TrimStart(s[1..])
  }

  function TrimEnd(s: string): (r: string)
    ensures |r| <= |s| && r == s[..|r|]
    ensures forall i :: |r| <= i < |s| ==> IsSpace(s[i])
    ensures r == [] || !IsSpace(r[|r| - 1])
    decreases |s|
  {
    if s == [] || !IsSpace(s[|s| - 1]) then s else TrimEnd(s[..|s| - 1])
  }

  /** JavaScript's `s.trim()`. */
  function Trim(s: string): string {
    TrimEnd(TrimStart(s))
  }

  /** Number of leading white-space characters `trim` removes. */
  function TrimOffset(s: string): nat {
    |s| - |TrimStart(s)|
  }

  /** The result of `trim` is a slice of the input with only white space cut
      off on either side, and it neither starts nor ends with white space. */
  lemma TrimShape(s: string)
    ensures TrimOffset(s) + |Trim(s)| <= |s|
    ensures Trim(s) == s[TrimOffset(s)..TrimOffset(s) + |Trim(s)|]
    ensures forall i :: 0 <= i < TrimOffset(s) ==> IsSpace(s[i])
    ensures forall i :: TrimOffset(s) + |Trim(s)| <= i < |s| ==> IsSpace(s[i])
    ensures Trim(s) == [] || (!IsSpace(Trim(s)[0]) && !IsSpace(Trim(s)[|Trim(s)| - 1]))
  {
    TrimSlice(s);
    TrimTrailing(s);
  }

  lemma TrimSlice(s: string)
    ensures TrimOffset(s) + |Trim(s)| <= |s|
    ensures Trim(s) == s[TrimOffset(s)..TrimOffset(s) + |Trim(s)|]
  {
    var t := TrimStart(s);
    var a := |s| - |t|;
    SliceOfSuffix(s, a, t, |TrimEnd(t)|);
  }

  lemma TrimTrailing(s: string)
    ensures forall i :: TrimOffset(s) + |Trim(s)| <= i < |s| ==> IsSpace(s[i])
  {
    var t := TrimStart(s);
    SuffixTail(s, |s| - |t|, t, |TrimEnd(t)|, IsSpace);
  }

  /** A prefix of a suffix is a middle slice. */
  lemma SliceOfSuffix<T>(s: seq<T>, a: nat, t: seq<T>, n: nat)
    requires a <= |s| && t == s[a..] && n <= |t|
    ensures t[..n] == s[a..a + n]
  {
  }

  /** What holds past position `n` of a suffix holds past position `a + n` of the whole. */
  lemma SuffixTail<T>(s: seq<T>, a: nat, t: seq<T>, n: nat, p: T -> bool)
    requires a <= |s| && t == s[a..] && n <= |t|
    requires forall i :: n <= i < |t| ==> p(t[i])
    ensures forall i :: a + n <= i < |s| ==> p(s[i])
  {
    forall i | a + n <= i < |s| ensures p(s[i]) {
      assert s[i] == t[i - a];
    }
  }

  /** `!s.trim()` holds exactly when `s` consists of white space only. */
  lemma TrimEmptyIff(s: string)
    ensures Trim(s) == [] <==> forall i :: 0 <= i < |s| ==> IsSpace(s[i])
  {
    var t := TrimStart(s);
    if Trim(s) == [] {
      assert t == [];
    }
  }

  // ---------------------------------------------------------------------------
  // Case folding

  /** `toLowerCase` restricted to ASCII letters; other characters are kept. */
  function LowerChar(ch: char): char {
    if 'A' <= ch <= 'Z' then (ch as int + 32) as char else ch
  }

  function Lower(s: string): (r: string)
    ensures |r| == |s|
    ensures forall i :: 0 <= i < |s| ==> r[i] == LowerChar(s[i])
  {
    seq(|s|, i requires 0 <= i < |s| => LowerChar(s[i]))
  }

  // ---------------------------------------------------------------------------
  // `split(c).pop()`

  /** `s.split(c).pop()` for a one-character separator: the text after the last
      `c`, or all of `s` when there is none. */
  function LastSegment(s: string, c: char): (r: string)
    ensures |r| <= |s| && r == s[|s| - |r|..]
    ensures c !in r
    ensures |r| == |s| || s[|s| - |r| - 1] == c
    decreases |s|
  {
    if s == [] || s[|s| - 1] == c then []
    else LastSegment(s[..|s| - 1], c) + [s[|s| - 1]]
  }

  /** The last segment only holds characters of the string. */
  lemma LastSegmentExcludes(s: string, c: char, ch: char)
    requires ch !in s
    ensures ch !in LastSegment(s, c)
  {
  }

  /** The last segment is determined by what follows the last separator. */
  lemma {:induction false} LastSegmentAfter(a: string, c: char, b: string)
    requires c !in b
    ensures LastSegment(a + [c] + b, c) == b
    decreases |b|
  {
    var s := a + [c] + b;
    if b == [] {
      assert s[|s| - 1] == c;
    } else {
      var b' := b[..|b| - 1];
      assert s[..|s| - 1] == a + [c] + b';
      assert s[|s| - 1] == b[|b| - 1];
      LastSegmentAfter(a, c, b');
      assert b' + [b[|b| - 1]] == b;
    }
  }

  /** Without a separator the whole string is the last segment. */
  lemma {:induction false} LastSegmentNone(s: string, c: char)
    requires c !in s
    ensures LastSegment(s, c) == s
    decreases |s|
  {
    if s != [] {
      assert s[|s| - 1] in s;
      LastSegmentNone(s[..|s| - 1], c);
      assert s[..|s| - 1] + [s[|s| - 1]] == s;
    }
  }

  // ---------------------------------------------------------------------------
  // Decimal numbers

  predicate IsDigit(ch: char) {
    '0' <= ch <= '9'
  }

  predicate AllDigits(s: string) {
    forall i :: 0 <= i < |s| ==> IsDigit(s[i])
  }

  function DigitChar(d: nat): (ch: char)
    requires d < 10
    ensures IsDigit(ch)
  {
    ('0' as int + d) as char
  }

  function DigitValue(ch: char): nat
    requires IsDigit(ch)
  {
    ch as int - '0' as int
  }

  /** `n.toString()` for a non-negative integer: decimal, no leading zeros. */
  function NatToString(n: nat): (r: string)
    ensures |r| >= 1 && AllDigits(r)
    ensures |r| > 1 ==> r[0] != '0'
    decreases n
  {
    if n < 10 then [DigitChar(n)] else NatToString(n / 10) + [DigitChar(n % 10)]
  }

  /** `n.toString()` for any integer. */
  function IntToString(n: int): string {
    if n < 0 then "-" + NatToString(-n) else NatToString(n)
  }

  /** A rendered number holds nothing but digits. */
  lemma DigitsOnly(s: string, ch: char)
    requires AllDigits(s) && !IsDigit(ch)
    ensures ch !in s
  {
  }

  /** `parseInt(s)` for a string of decimal digits. */
  function ParseNat(s: string): nat
    requires AllDigits(s)
    decreases |s|
  {
    if s == [] then 0 else ParseNat(s[..|s| - 1]) * 10 + DigitValue(s[|s| - 1])
  }

  /** Reading back a rendered number gives the number. */
  lemma {:induction false} ParseNatToString(n: nat)
    ensures ParseNat(NatToString(n)) == n
    decreases n
  {
    var s := NatToString(n);
    if n >= 10 {
      ParseNatToString(n / 10);
      assert s[..|s| - 1] == NatToString(n / 10);
    }
  }

  /** Leading zeros do not change the value `parseInt` reads. */
  lemma {:induction false} ParseNatLeadingZero(s: string)
    requires AllDigits(s)
    ensures ParseNat("0" + s) == ParseNat(s)
    decreases |s|
  {
    if s != [] {
      var t := "0" + s;
      assert t[..|t| - 1] == "0" + s[..|s| - 1];
      ParseNatLeadingZero(s[..|s| - 1]);
    }
  }

  /** `s.padStart(n, ch)`. */
  function PadStart(s: string, n: nat, ch: char): (r: string)
    ensures |r| == if |s| >= n then |s| else n
  {
    if |s| >= n then s else seq(n - |s|, _ => ch) + s
  }

  /** Padding only puts copies of `ch` in front of the input. */
  lemma PadStartShape(s: string, n: nat, ch: char)
    ensures var r := PadStart(s, n, ch);
      r[|r| - |s|..] == s && forall i :: 0 <= i < |r| - |s| ==> r[i] == ch
  {
  }

  // ---------------------------------------------------------------------------
  // `slice`

  /** How JavaScript's `slice` turns an argument into an index: negative values
      count from the end, and the result is clamped to `0..len`. */
  function ClampIndex(i: int, len: nat): (r: nat)
    ensures r <= len
  {
    if i < 0 then (if len + i < 0 then 0 else len + i) else if i > len then len else i
  }

  /** JavaScript's `xs.slice(start, end)` on arrays and strings. */
  function Slice<T>(xs: seq<T>, start: int, end: int): seq<T> {
    var a := ClampIndex(start, |xs|);
    var b := ClampIndex(end, |xs|);
    if a < b then xs[a..b] else []
  }

  function Min(a: int, b: int): int {
    if a <= b then a else b
  }

  function Max(a: int, b: int): int {
    if a <= b then b else a
  }

  /** With non-negative bounds, `slice` keeps indices `[start, end)` that exist. */
  lemma SliceNonNegative<T>(xs: seq<T>, start: int, end: int)
    requires 0 <= start <= end
    ensures Slice(xs, start, end) == xs[Min(start, |xs|)..Min(end, |xs|)]
  {
  }

  /** `xs.slice(0, n)` keeps the first `min(n, |xs|)` elements. */
  lemma SlicePrefix<T>(xs: seq<T>, n: nat)
    ensures Slice(xs, 0, n) == xs[..Min(n, |xs|)]
    ensures |Slice(xs, 0, n)| == Min(n, |xs|)
  {
  }
}
