/** The regular expressions the link parsers use all have one shape: a choice
    of literal prefixes followed by one captured run of a character class,
    either of a fixed length or greedy "one or more". This module matches that
    shape the way JavaScript's `String.prototype.match` does without the global
    flag: the leftmost position where any alternative matches wins, and at
    that position the alternatives are tried in order. */
module Patterns {
  import opened Strings

  /** The character classes that occur in the patterns. */
  datatype CharClass =
    | VideoIdChars     // [a-zA-Z0-9_-]
    | Alphanumerics    // [a-zA-Z0-9]
    | NotAmpOrSpace    // [^&\s]

  predicate InClass(ch: char, c: CharClass) {
    match c
    case VideoIdChars => ('a' <= ch <= 'z') || ('A' <= ch <= 'Z') || ('0' <= ch <= '9') || ch == '_' || ch == '-'
    case Alphanumerics => ('a' <= ch <= 'z') || ('A' <= ch <= 'Z') || ('0' <= ch <= '9')
    case NotAmpOrSpace => ch != '&' && !IsSpace(ch)
  }

  datatype Quantity = Exactly(n: nat) | OneOrMore

  /** One alternative: a literal, then the captured run. */
  datatype Alternative = Alternative(literal: string, cls: CharClass, quantity: Quantity)

  /** Length of the run of class characters starting at `k`. */
  function RunLength(s: string, k: nat, c: CharClass): (n: nat)
    ensures k + n <= |s| || (k > |s| && n == 0)
    ensures forall j :: k <= j < k + n ==> InClass(s[j], c)
    ensures k + n < |s| ==> !InClass(s[k + n], c)
    decreases |s| - k
  {
    if k < |s| && InClass(s[k], c) then 1 + RunLength(s, k + 1, c) else 0
  }

  /** The capture of one alternative tried at index `i`. */
  function AlternativeAt(s: string, i: nat, a: Alternative): (r: Option<string>)
    ensures r.Some? ==> OccursAt(s, a.literal + r.value, i)
    ensures r.Some? ==> forall k :: 0 <= k < |r.value| ==> InClass(r.value[k], a.cls)
    ensures r.Some? && a.quantity.Exactly? ==> |r.value| == a.quantity.n
    ensures r.Some? && a.quantity.OneOrMore? ==> |r.value| >= 1
  {
    if !OccursAt(s, a.literal, i) then None
    else
      var k := i + |a.literal|;
      var n := RunLength(s, k, a.cls);
      var len := if a.quantity.Exactly? then a.quantity.n else n;
      if n < len || (len < 1 && a.quantity.OneOrMore?) then None
      else
        var capture := s[k..k + len];
        assert s[i..i + |a.literal| + len] == s[i..k] + capture;
        assert forall j :: 0 <= j < len ==> capture[j] == s[k + j];
        Some(capture)
  }

  lemma {:induction false} RunLengthAtLeast(s: string, k: nat, c: CharClass, n: nat)
    requires k + n <= |s|
    requires forall j :: k <= j < k + n ==> InClass(s[j], c)
    ensures RunLength(s, k, c) >= n
    decreases n
  {
    if n > 0 {
      RunLengthAtLeast(s, k + 1, c, n - 1);
    }
  }

  /** A fixed-length alternative matches wherever its literal and enough class
      characters follow, and captures exactly those characters. */
  lemma ExactlyMatches(s: string, i: nat, a: Alternative)
    requires a.quantity.Exactly? && OccursAt(s, a.literal, i)
    requires i + |a.literal| + a.quantity.n <= |s|
    requires forall j :: i + |a.literal| <= j < i + |a.literal| + a.quantity.n ==> InClass(s[j], a.cls)
    ensures AlternativeAt(s, i, a) == Some(s[i + |a.literal|..i + |a.literal| + a.quantity.n])
  {
    var k := i + |a.literal|;
    RunLengthAtLeast(s, k, a.cls, a.quantity.n);
    assert RunLength(s, k, a.cls) >= a.quantity.n;
  }

  /** A greedy alternative captures the maximal run after its literal. */
  lemma OneOrMoreMatches(s: string, i: nat, a: Alternative, n: nat)
    requires a.quantity.OneOrMore? && OccursAt(s, a.literal, i) && n >= 1
    requires i + |a.literal| + n <= |s|
    requires forall j :: i + |a.literal| <= j < i + |a.literal| + n ==> InClass(s[j], a.cls)
    requires i + |a.literal| + n == |s| || !InClass(s[i + |a.literal| + n], a.cls)
    ensures AlternativeAt(s, i, a) == Some(s[i + |a.literal|..i + |a.literal| + n])
  {
    var k := i + |a.literal|;
    RunLengthAtLeast(s, k, a.cls, n);
    assert RunLength(s, k, a.cls) == n;
  }

  /** Index of the first alternative that matches at `i`. */
  function FirstAlternative(s: string, i: nat, alts: seq<Alternative>, from: nat): (r: Option<nat>)
    ensures r.Some? ==> from <= r.value < |alts| && AlternativeAt(s, i, alts[r.value]).Some?
    ensures r.Some? ==> forall k :: from <= k < r.value ==> AlternativeAt(s, i, alts[k]).None?
    ensures r.None? ==> forall k :: from <= k < |alts| ==> AlternativeAt(s, i, alts[k]).None?
    decreases |alts| - from
  {
    if from >= |alts| then None
    else if AlternativeAt(s, i, alts[from]).Some? then Some(from)
    else FirstAlternative(s, i, alts, from + 1)
  }

  /** The alternatives tried in order at index `i`. */
  function MatchAt(s: string, i: nat, alts: seq<Alternative>): Option<string> {
    match FirstAlternative(s, i, alts, 0)
    case Some(k) => AlternativeAt(s, i, alts[k])
    case None => None
  }

  /** No alternative can match where the string differs from every literal's first character. */
  lemma NoMatchAt(s: string, i: nat, alts: seq<Alternative>)
    requires i < |s|
    requires forall k :: 0 <= k < |alts| ==> |alts[k].literal| > 0 && alts[k].literal[0] != s[i]
    ensures MatchAt(s, i, alts).None?
  {
    forall k | 0 <= k < |alts| ensures AlternativeAt(s, i, alts[k]).None? {
    }
  }

  /** The least index in `from..last` where `holds` is true. */
  function Leftmost(holds: nat -> bool, from: nat, last: nat): (r: Option<nat>)
    ensures r.Some? ==> from <= r.value <= last && holds(r.value)
    ensures r.Some? ==> forall j :: from <= j < r.value ==> !holds(j)
    ensures r.None? ==> forall j :: from <= j <= last ==> !holds(j)
    decreases last + 1 - from
  {
    if from > last then None
    else if holds(from) then Some(from)
    else Leftmost(holds, from + 1, last)
  }

  /** Leftmost index at or after `from` where the pattern matches. */
  function Search(s: string, alts: seq<Alternative>, from: nat): (r: Option<nat>)
    ensures r.Some? ==> from <= r.value <= |s| && MatchAt(s, r.value, alts).Some?
    ensures r.Some? ==> forall j :: from <= j < r.value ==> MatchAt(s, j, alts).None?
    ensures r.None? ==> forall j :: from <= j <= |s| ==> MatchAt(s, j, alts).None?
  {
    var matches := (j: nat) => MatchAt(s, j, alts).Some?;
    assert forall j: nat :: matches(j) == MatchAt(s, j, alts).Some?;
    Leftmost(matches, from, |s|)
  }

  /** `s.match(pattern)?.[1]`: the capture of the leftmost match. */
  function Match(s: string, alts: seq<Alternative>): (r: Option<string>)
    ensures r.None? <==> forall j :: 0 <= j <= |s| ==> MatchAt(s, j, alts).None?
    ensures r.Some? ==> exists k :: 0 <= k < |alts| && Includes(s, alts[k].literal + r.value)
  {
    match Search(s, alts, 0)
    case Some(i) =>
      var k := FirstAlternative(s, i, alts, 0).value;
      var r := AlternativeAt(s, i, alts[k]);
      IncludesAt(s, alts[k].literal + r.value, i);
      r
    case None => None
  }

  /** The leftmost match wins: a match at `i` means the result is the
      capture of some match at or before `i`. */
  lemma MatchLeftmost(s: string, alts: seq<Alternative>, i: nat)
    requires i <= |s| && MatchAt(s, i, alts).Some?
    ensures Match(s, alts).Some?
    ensures exists j :: 0 <= j <= i && Match(s, alts) == MatchAt(s, j, alts)
  {
    var m := Search(s, alts, 0);
    assert m.Some? && m.value <= i;
  }

  /** When nothing matches before `i`, the match at `i` is the result. */
  lemma MatchFirstAt(s: string, alts: seq<Alternative>, i: nat)
    requires i <= |s| && MatchAt(s, i, alts).Some?
    requires forall j :: 0 <= j < i ==> MatchAt(s, j, alts).None?
    ensures Match(s, alts) == MatchAt(s, i, alts)
  {
    var m := Search(s, alts, 0);
    assert m.Some? by {
      assert MatchAt(s, i, alts).Some?;
    }
    assert m.value == i by {
      assert m.value <= i;
      assert MatchAt(s, m.value, alts).Some?;
    }
  }

  /** Two literals that differ at a position both of them reach. */
  predicate Diverge(a: string, b: string) {
    exists d :: 0 <= d < |a| && d < |b| && a[d] != b[d]
  }

  /** Where one literal occurs, a literal diverging from it does not. */
  lemma DivergeExcludes(s: string, a: string, b: string, i: nat)
    requires OccursAt(s, b, i) && Diverge(a, b)
    ensures !OccursAt(s, a, i)
  {
    var d :| 0 <= d < |a| && d < |b| && a[d] != b[d];
    OccursAtChar(s, a, i, d);
    OccursAtChar(s, b, i, d);
  }

  /** Nothing matches inside a prefix that holds no literal's first character. */
  lemma NoMatchInPrefix(s: string, p: string, alts: seq<Alternative>)
    requires |p| <= |s| && s[..|p|] == p
    requires forall m :: 0 <= m < |alts| ==> |alts[m].literal| > 0 && alts[m].literal[0] !in p
    ensures forall j :: 0 <= j < |p| ==> MatchAt(s, j, alts).None?
  {
    forall j | 0 <= j < |p| ensures MatchAt(s, j, alts).None? {
      assert s[j] == p[j];
      assert p[j] in p;
      NoMatchAt(s, j, alts);
    }
  }

  /** Where the `k`-th literal occurs right after a prefix that holds no
      literal's first character, every earlier literal diverges from it and the
      `k`-th alternative matches there, the match is the result. */
  lemma MatchAtLiteral(url: string, p: string, alts: seq<Alternative>, k: nat, id: string)
    requires k < |alts|
    requires forall m :: 0 <= m < |alts| ==> |alts[m].literal| > 0 && alts[m].literal[0] !in p
    requires forall m :: 0 <= m < k ==> Diverge(alts[m].literal, alts[k].literal)
    requires |p| <= |url| && url[..|p|] == p && OccursAt(url, alts[k].literal, |p|)
    requires AlternativeAt(url, |p|, alts[k]) == Some(id)
    ensures Match(url, alts) == Some(id)
  {
    var i := |p|;
    forall m | 0 <= m < k ensures AlternativeAt(url, i, alts[m]).None? {
      DivergeExcludes(url, alts[m].literal, alts[k].literal, i);
    }
    assert FirstAlternative(url, i, alts, 0) == Some(k);
    NoMatchInPrefix(url, p, alts);
    MatchFirstAt(url, alts, i);
  }

  /** A link made of a prefix that holds no literal's first character, the
      `k`-th literal, a run of its class and a tail that ends the run, is
      matched at the literal and captures exactly the run, provided every
      earlier alternative's literal diverges from the `k`-th. */
  lemma MatchAfterPrefix(p: string, alts: seq<Alternative>, k: nat, id: string, rest: string)
    requires k < |alts| && alts[k].quantity.OneOrMore?
    requires forall m :: 0 <= m < |alts| ==> |alts[m].literal| > 0 && alts[m].literal[0] !in p
    requires forall m :: 0 <= m < k ==> Diverge(alts[m].literal, alts[k].literal)
    requires |id| >= 1 && forall j :: 0 <= j < |id| ==> InClass(id[j], alts[k].cls)
    requires rest == [] || !InClass(rest[0], alts[k].cls)
    ensures Match(p + alts[k].literal + id + rest, alts) == Some(id)
  {
    var lit := alts[k].literal;
    var url := p + lit + id + rest;
    var i := |p|;
    assert OccursAt(url, lit, i) by {
      assert url[i..i + |lit|] == lit;
    }
    assert url[i + |lit|..i + |lit| + |id|] == id;
    assert i + |lit| + |id| < |url| ==> url[i + |lit| + |id|] == rest[0];
    OneOrMoreMatches(url, i, alts[k], |id|);
    assert url[..i] == p;
    MatchAtLiteral(url, p, alts, k, id);
  }

  /** The same for an alternative that takes exactly `|id|` characters of
      its class: whatever follows the run is left alone. */
  lemma MatchExactlyAfterPrefix(p: string, alts: seq<Alternative>, k: nat, id: string, rest: string)
    requires k < |alts| && alts[k].quantity == Exactly(|id|)
    requires forall m :: 0 <= m < |alts| ==> |alts[m].literal| > 0 && alts[m].literal[0] !in p
    requires forall m :: 0 <= m < k ==> Diverge(alts[m].literal, alts[k].literal)
    requires forall j :: 0 <= j < |id| ==> InClass(id[j], alts[k].cls)
    ensures Match(p + alts[k].literal + id + rest, alts) == Some(id)
  {
    var lit := alts[k].literal;
    var url := p + lit + id + rest;
    var i := |p|;
    assert OccursAt(url, lit, i) by {
      assert url[i..i + |lit|] == lit;
    }
    assert url[i + |lit|..i + |lit| + |id|] == id;
    ExactlyMatches(url, i, alts[k]);
    assert url[..i] == p;
    MatchAtLiteral(url, p, alts, k, id);
  }

  // ---------------------------------------------------------------------------
  // Greedy patterns described without the matcher

  /** A greedy alternative has a match at `i`: its literal occurs there and
      at least one character of its class follows. */
  predicate GreedyAt(s: string, i: nat, a: Alternative) {
    OccursAt(s, a.literal, i) && RunLength(s, i + |a.literal|, a.cls) >= 1
  }

  /** The longest run of the class right after the literal at `i`. */
  function GreedyRun(s: string, i: nat, a: Alternative): (run: string)
    requires OccursAt(s, a.literal, i)
    ensures forall k :: 0 <= k < |run| ==> InClass(run[k], a.cls)
    ensures i + |a.literal| + |run| <= |s| && OccursAt(s, a.literal + run, i)
    ensures i + |a.literal| + |run| < |s| ==> !InClass(s[i + |a.literal| + |run|], a.cls)
  {
    var k := i + |a.literal|;
    var run := s[k..k + RunLength(s, k, a.cls)];
    assert s[i..k + |run|] == s[i..k] + run;
    run
  }

  predicate AllGreedy(alts: seq<Alternative>) {
    forall m :: 0 <= m < |alts| ==> alts[m].quantity.OneOrMore?
  }

  /** A greedy alternative matches at `i` exactly when `GreedyAt` says so,
      and then captures the whole run. */
  lemma AlternativeAtGreedy(s: string, i: nat, a: Alternative)
    requires a.quantity.OneOrMore?
    ensures AlternativeAt(s, i, a).Some? <==> GreedyAt(s, i, a)
    ensures GreedyAt(s, i, a) ==> AlternativeAt(s, i, a) == Some(GreedyRun(s, i, a))
  {
  }

  /** With greedy alternatives only, the pattern matches at `i` iff some
      alternative has a greedy match there. */
  lemma MatchAtGreedy(s: string, i: nat, alts: seq<Alternative>)
    requires AllGreedy(alts)
    ensures MatchAt(s, i, alts).None? <==> forall m :: 0 <= m < |alts| ==> !GreedyAt(s, i, alts[m])
  {
    forall m | 0 <= m < |alts| ensures AlternativeAt(s, i, alts[m]).Some? <==> GreedyAt(s, i, alts[m]) {
      AlternativeAtGreedy(s, i, alts[m]);
    }
  }

  /** The result of a greedy pattern, for every input: the whole run after
      the first alternative that matches at the least index where any does. */
  lemma MatchGreedy(s: string, alts: seq<Alternative>, i: nat, k: nat)
    requires AllGreedy(alts) && i <= |s| && k < |alts|
    requires GreedyAt(s, i, alts[k])
    requires forall m :: 0 <= m < k ==> !GreedyAt(s, i, alts[m])
    requires forall j, m :: 0 <= j < i && 0 <= m < |alts| ==> !GreedyAt(s, j, alts[m])
    ensures Match(s, alts) == Some(GreedyRun(s, i, alts[k]))
  {
    forall j | 0 <= j < i ensures MatchAt(s, j, alts).None? {
      MatchAtGreedy(s, j, alts);
    }
    forall m | 0 <= m < k ensures AlternativeAt(s, i, alts[m]).None? {
      AlternativeAtGreedy(s, i, alts[m]);
    }
    AlternativeAtGreedy(s, i, alts[k]);
    assert FirstAlternative(s, i, alts, 0) == Some(k);
    MatchFirstAt(s, alts, i);
  }

  /** A greedy pattern without a match anywhere gives no result. */
  lemma NoMatchGreedy(s: string, alts: seq<Alternative>)
    requires AllGreedy(alts)
    requires forall j, m :: 0 <= j <= |s| && 0 <= m < |alts| ==> !GreedyAt(s, j, alts[m])
    ensures Match(s, alts).None?
  {
    forall j | 0 <= j <= |s| ensures MatchAt(s, j, alts).None? {
      MatchAtGreedy(s, j, alts);
    }
  }
}
