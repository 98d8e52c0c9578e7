/** The text-colour decision of src/components/Loader.tsx: a CSS colour
    string is read as its first three runs of decimal digits (white when there
    are fewer), its YIQ brightness is the integer-weighted mean
    `(299 r + 587 g + 114 b) / 1000`, and the percentage text is black on a
    background brighter than 128 and white otherwise. The sampled background
    itself comes from the browser and is the input here. */
module Loader {
  import opened Strings

  datatype Rgb = Rgb(r: nat, g: nat, b: nat)

  const White: Rgb := Rgb(255, 255, 255)

  /** The length of the run of digits that starts `s`. */
  function LeadingDigits(s: string): (n: nat)
    ensures n <= |s| && AllDigits(s[..n])
    ensures n < |s| ==> !IsDigit(s[n])
    ensures s != [] && IsDigit(s[0]) ==> n >= 1
    decreases |s|
  {
    if s == [] || !IsDigit(s[0]) then 0
    else
      var n := LeadingDigits(s[1..]);
      assert s[..1 + n] == [s[0]] + s[1..][..n];
      1 + n
  }

  /** `s.match(/\d+/g)`: the maximal runs of decimal digits, left to right
      (an empty list standing for `null`). */
  function DigitRuns(s: string): (runs: seq<string>)
    ensures forall k :: 0 <= k < |runs| ==> runs[k] != [] && AllDigits(runs[k])
    decreases |s|
  {
    if s == [] then []
    else if !IsDigit(s[0]) then DigitRuns(s[1..])
    else
      var n := LeadingDigits(s);
      [s[..n]] + DigitRuns(s[n..])
  }

  /** `parseRGB`: the first three runs as red, green and blue; any further
      run (an alpha) is ignored, and fewer than three give white. */
  function ParseRgb(s: string): (c: Rgb) {
    var runs := DigitRuns(s);
    if |runs| >= 3 then Rgb(ParseNat(runs[0]), ParseNat(runs[1]), ParseNat(runs[2]))
    else White
  }

  /** A run of digits followed by a non-digit (or nothing) is the first run. */
  lemma {:induction false} LeadingDigitsOf(d: string, rest: string)
    requires AllDigits(d)
    requires rest == [] || !IsDigit(rest[0])
    ensures LeadingDigits(d + rest) == |d|
    decreases |d|
  {
    if d != [] {
      assert (d + rest)[1..] == d[1..] + rest;
      LeadingDigitsOf(d[1..], rest);
    }
  }

  lemma RunsOfDigitsThenRest(d: string, rest: string)
    requires d != [] && AllDigits(d)
    requires rest == [] || !IsDigit(rest[0])
    ensures DigitRuns(d + rest) == [d] + DigitRuns(rest)
  {
    LeadingDigitsOf(d, rest);
    assert (d + rest)[..|d|] == d;
    assert (d + rest)[|d|..] == rest;
  }

  predicate NoDigits(s: string) {
    forall i :: 0 <= i < |s| ==> !IsDigit(s[i])
  }

  /** Text without digits contributes no run. */
  lemma {:induction false} RunsSkipNonDigits(p: string, rest: string)
    requires NoDigits(p)
    ensures DigitRuns(p + rest) == DigitRuns(rest)
    decreases |p|
  {
    if p != [] {
      var s := p + rest;
      assert s[0] == p[0] && !IsDigit(s[0]);
      assert s[1..] == p[1..] + rest;
      assert NoDigits(p[1..]) by {
        forall i | 0 <= i < |p[1..]|
          ensures !IsDigit(p[1..][i])
        {
          assert p[1..][i] == p[i + 1];
        }
      }
      RunsSkipNonDigits(p[1..], rest);
    } else {
      assert p + rest == rest;
    }
  }

  /** `match(/\d+/g)` finds nothing (`null`) exactly when the text holds no digit. */
  lemma {:induction false} DigitRunsEmptyIff(s: string)
    ensures DigitRuns(s) == [] <==> NoDigits(s)
    decreases |s|
  {
    if s != [] && !IsDigit(s[0]) {
      DigitRunsEmptyIff(s[1..]);
      assert NoDigits(s) <==> NoDigits(s[1..]) by {
        assert forall i :: 0 <= i < |s[1..]| ==> s[1..][i] == s[i + 1];
      }
    }
  }

  /** The three channels of a CSS colour, as `getComputedStyle` writes
      it, with any prefix free of digits and any tail after the blue channel
      that does not continue its digits. */
  function CssColour(prefix: string, c: Rgb, tail: string): string {
    prefix + (NatToString(c.r) + (ChannelSeparator + (NatToString(c.g) + (ChannelSeparator + (NatToString(c.b) + tail)))))
  }

  /** A run of digits, then a digit-free separator that is not empty: the
      run is the first run and the separator adds none. */
  lemma RunThenSeparator(d: string, sep: string, rest: string)
    requires d != [] && AllDigits(d)
    requires sep != [] && NoDigits(sep)
    ensures DigitRuns(d + (sep + rest)) == [d] + DigitRuns(rest)
  {
    assert (sep + rest)[0] == sep[0];
    RunsOfDigitsThenRest(d, sep + rest);
    RunsSkipNonDigits(sep, rest);
  }

  /** The separator `getComputedStyle` puts between channels. */
  const ChannelSeparator: string := ", "

  lemma SeparatorHasNoDigits()
    ensures ChannelSeparator != [] && NoDigits(ChannelSeparator)
  {
  }

  /** The runs of `prefix r sep g sep b tail` start with the three channels. */
  lemma RunsOfChannels(prefix: string, r: string, g: string, b: string, sep: string, tail: string)
    requires NoDigits(prefix) && sep != [] && NoDigits(sep)
    requires r != [] && AllDigits(r) && g != [] && AllDigits(g) && b != [] && AllDigits(b)
    requires tail == [] || !IsDigit(tail[0])
    ensures DigitRuns(prefix + (r + (sep + (g + (sep + (b + tail)))))) == [r, g, b] + DigitRuns(tail)
  {
    var t := DigitRuns(tail);
    var s3 := b + tail;
    var s2 := g + (sep + s3);
    var s1 := r + (sep + s2);
    RunsOfDigitsThenRest(b, tail);
    RunThenSeparator(g, sep, s3);
    RunThenSeparator(r, sep, s2);
    RunsSkipNonDigits(prefix, s1);
    ThreeRuns(r, g, b, t);
  }

  lemma ThreeRuns(r: string, g: string, b: string, t: seq<string>)
    ensures [r] + ([g] + ([b] + t)) == [r, g, b] + t
  {
  }

  /** Reading back a written colour gives the colour: `rgb(r, g, b)` and
      `rgba(r, g, b, a)` alike, since a tail such as `, 0.5)` is ignored. */
  lemma ParseRgbRoundTrip(prefix: string, c: Rgb, tail: string)
    requires NoDigits(prefix)
    requires tail == [] || !IsDigit(tail[0])
    ensures ParseRgb(CssColour(prefix, c, tail)) == c
  {
    var runs := DigitRuns(CssColour(prefix, c, tail));
    SeparatorHasNoDigits();
    RunsOfChannels(prefix, NatToString(c.r), NatToString(c.g), NatToString(c.b), ChannelSeparator, tail);
    assert runs[0] == NatToString(c.r) && runs[1] == NatToString(c.g) && runs[2] == NatToString(c.b);
    ParseNatToString(c.r);
    ParseNatToString(c.g);
    ParseNatToString(c.b);
  }

  /** A colour string without digits (a keyword such as `transparent`) reads
      as white, so the text over it is black. */
  lemma NoDigitsReadsWhite(s: string)
    requires NoDigits(s)
    ensures ParseRgb(s) == White
    ensures TextColour(ParseRgb(s)) == "#000"
  {
    RunsSkipNonDigits(s, []);
    assert s + [] == s;
  }

  /** A colour with only two channels, such as `rgb(1, 2)`, reads as white. */
  lemma TwoChannelsReadWhite(prefix: string, r: nat, g: nat, tail: string)
    requires NoDigits(prefix) && NoDigits(tail)
    ensures ParseRgb(prefix + (NatToString(r) + (ChannelSeparator + (NatToString(g) + tail)))) == White
  {
    SeparatorHasNoDigits();
    DigitRunsEmptyIff(tail);
    assert tail == [] || !IsDigit(tail[0]);
    RunsOfDigitsThenRest(NatToString(g), tail);
    RunThenSeparator(NatToString(r), ChannelSeparator, NatToString(g) + tail);
    RunsSkipNonDigits(prefix, NatToString(r) + (ChannelSeparator + (NatToString(g) + tail)));
  }

  /** `calculateLuminance`, kept exact as a rational. */
  function Luminance(c: Rgb): (l: real)
    ensures l >= 0.0
    ensures c.r <= 255 && c.g <= 255 && c.b <= 255 ==> l <= 255.0
    ensures c == White ==> l == 255.0
  {
    (299 * c.r + 587 * c.g + 114 * c.b) as real / 1000.0
  }

  /** Black text on a bright background, white text otherwise, decided on
      the integer weights alone. */
  function TextColour(c: Rgb): (colour: string)
    ensures colour == "#000" || colour == "#fff"
    ensures colour == "#000" <==> 299 * c.r + 587 * c.g + 114 * c.b > 128000
  {
    if Luminance(c) > 128.0 then "#000" else "#fff"
  }

  /** Brightening any channel never turns black text white. */
  lemma BrighterStaysBlack(c: Rgb, d: Rgb)
    requires c.r <= d.r && c.g <= d.g && c.b <= d.b
    ensures TextColour(c) == "#000" ==> TextColour(d) == "#000"
  {
  }
}
