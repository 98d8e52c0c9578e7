/** Content sniffing of uploaded files by their leading "magic" bytes, and the
    pixel-size limit for images (src/lib/fileValidation.ts).

    The classifier renders the first four bytes as lower-case hexadecimal and
    compares prefixes of that text against known signatures: JPEG start of
    image, the PNG signature (section 3.1 of RFC 2083), "GIF8" (section 17 of
    the GIF89a specification), "RIFF", "ID3", the MPEG frame sync and "OggS"
    (section 6 of RFC 3533). */
module FileValidation {
  import opened Strings

  newtype byte = x: int | 0 <= x < 256

  /** What `validateFileType` resolves with. */
  datatype FileTypeResult = FileTypeResult(valid: bool, mime: string, error: Option<string>)

  const Unknown: string := "unknown"

  // ---------------------------------------------------------------------------
  // The hexadecimal header

  /** The lower-case hexadecimal digit of a nibble. */
  function HexDigit(n: nat): char
    requires n < 16
  {
    if n < 10 then ('0' as int + n) as char else ('a' as int + n - 10) as char
  }

  function HexValue(ch: char): int {
    if '0' <= ch <= '9' then ch as int - '0' as int else ch as int - 'a' as int + 10
  }

  lemma HexValueOfDigit(n: nat)
    requires n < 16
    ensures HexValue(HexDigit(n)) == n
  {
  }

  /** `b.toString(16)`: one digit below 16, two digits otherwise. */
  function Radix16(b: byte): string {
    if b < 16 then [HexDigit(b as nat)] else [HexDigit((b / 16) as nat), HexDigit((b % 16) as nat)]
  }

  /** `b.toString(16).padStart(2, "0")`. */
  function ByteHex(b: byte): string {
    PadStart(Radix16(b), 2, '0')
  }

  /** Each byte becomes exactly its two hexadecimal digits, high nibble first. */
  lemma ByteHexDigits(b: byte)
    ensures ByteHex(b) == [HexDigit((b / 16) as nat), HexDigit((b % 16) as nat)]
  {
    if b < 16 {
      assert HexDigit(0) == '0';
    }
  }

  /** Different bytes have different renderings. */
  lemma ByteHexInjective(a: byte, b: byte)
    requires ByteHex(a) == ByteHex(b)
    ensures a == b
  {
    ByteHexDigits(a);
    ByteHexDigits(b);
    HexValueOfDigit((a / 16) as nat);
    HexValueOfDigit((b / 16) as nat);
    HexValueOfDigit((a % 16) as nat);
    HexValueOfDigit((b % 16) as nat);
    assert ByteHex(a)[0] == ByteHex(b)[0] && ByteHex(a)[1] == ByteHex(b)[1];
  }

  /** `bytes.map(hex).join("")`. */
  function HexJoin(bs: seq<byte>): string
    decreases |bs|
  {
    if bs == [] then "" else ByteHex(bs[0]) + HexJoin(bs[1..])
  }

  /** The `header` of `validateFileType`: the first (up to) four bytes in hex. */
  function Header(bs: seq<byte>): string {
    HexJoin(Slice(bs, 0, 4))
  }

  lemma {:induction false} HexJoinLength(bs: seq<byte>)
    ensures |HexJoin(bs)| == 2 * |bs|
    decreases |bs|
  {
    if bs != [] {
      ByteHexDigits(bs[0]);
      HexJoinLength(bs[1..]);
    }
  }

  /** One hex text is a prefix of another exactly when the bytes are. */
  lemma {:induction false} HexJoinPrefix(p: seq<byte>, q: seq<byte>)
    ensures StartsWith(HexJoin(q), HexJoin(p)) <==> |p| <= |q| && q[..|p|] == p
    decreases |p|
  {
    HexJoinLength(p);
    HexJoinLength(q);
    if p != [] && q != [] {
      ByteHexDigits(p[0]);
      ByteHexDigits(q[0]);
      HexJoinPrefix(p[1..], q[1..]);
      var hp, hq := HexJoin(p), HexJoin(q);
      assert hp == ByteHex(p[0]) + HexJoin(p[1..]);
      assert hq == ByteHex(q[0]) + HexJoin(q[1..]);
      if StartsWith(hq, hp) {
        assert hq[..2] == hp[..2];
        assert ByteHex(p[0]) == hp[..2] && ByteHex(q[0]) == hq[..2];
        ByteHexInjective(p[0], q[0]);
        assert HexJoin(q[1..])[..|HexJoin(p[1..])|] == hq[2..|hp|];
        assert q[..|p|] == [q[0]] + q[1..][..|p| - 1];
      }
      if |p| <= |q| && q[..|p|] == p {
        assert q[1..][..|p| - 1] == p[1..];
        assert hq[..|hp|] == ByteHex(q[0]) + HexJoin(q[1..])[..|HexJoin(p[1..])|];
      }
    }
  }

  /** Rendering is injective, so distinct byte strings give distinct headers. */
  lemma HexJoinInjective(p: seq<byte>, q: seq<byte>)
    requires HexJoin(p) == HexJoin(q)
    ensures p == q
  {
    HexJoinLength(p);
    HexJoinLength(q);
    HexJoinPrefix(p, q);
  }

  /** The header has two characters per byte read, at most four bytes, and two
      inputs share a header exactly when their first four bytes agree. */
  lemma HeaderProperties(a: seq<byte>, b: seq<byte>)
    ensures |Header(a)| == 2 * Min(4, |a|)
    ensures Header(a) == Header(b) <==> a[..Min(4, |a|)] == b[..Min(4, |b|)]
  {
    SlicePrefix(a, 4);
    SlicePrefix(b, 4);
    HexJoinLength(Slice(a, 0, 4));
    if Header(a) == Header(b) {
      HexJoinInjective(Slice(a, 0, 4), Slice(b, 0, 4));
    }
  }

  /** A header starts with the rendering of `sig` exactly when the file does. */
  lemma HeaderStartsWith(bs: seq<byte>, sig: seq<byte>)
    requires |sig| <= 4
    ensures StartsWith(Header(bs), HexJoin(sig)) <==> |sig| <= |bs| && bs[..|sig|] == sig
  {
    var t := Slice(bs, 0, 4);
    SlicePrefix(bs, 4);
    assert t == bs[..Min(4, |bs|)];
    HexJoinPrefix(sig, t);
    if |sig| <= |t| {
      assert t[..|sig|] == bs[..|sig|];
    }
  }

  // ---------------------------------------------------------------------------
  // The classifier as written

  /** `String.fromCharCode` over bytes. */
  function Latin1(bs: seq<byte>): string {
    seq(|bs|, i requires 0 <= i < |bs| => bs[i] as int as char)
  }

  /** The branch chain of `validateFileType` over the header of the bytes read.
      The second RIFF test repeats the first and can never be reached. */
  function ClassifyAsWritten(bs: seq<byte>): FileTypeResult {
    var header := Header(bs);
    if StartsWith(header, "ffd8ff") then FileTypeResult(true, "image/jpeg", None)
    else if StartsWith(header, "89504e47") then FileTypeResult(true, "image/png", None)
    else if StartsWith(header, "47494638") then FileTypeResult(true, "image/gif", None)
    else if StartsWith(header, "52494646") then FileTypeResult(true, "image/webp", None)
    else if StartsWith(header, "494433") || StartsWith(header, "fffb") then FileTypeResult(true, "audio/mpeg", None)
    else if StartsWith(header, "4f676753") then FileTypeResult(true, "audio/ogg", None)
    else if StartsWith(header, "52494646") then
      (if Latin1(Slice(bs, 8, 12)) == "WAVE" then FileTypeResult(true, "audio/wav", None)
       else FileTypeResult(false, Unknown, Some("Unknown RIFF format")))
    else FileTypeResult(false, Unknown, Some("Invalid file type (signature: " + header + ")"))
  }

  /** `validateFileType`: reads the first twelve bytes (`None` when the reader
      fails) and classifies them. */
  function ValidateFileTypeAsWritten(contents: Option<seq<byte>>): FileTypeResult {
    match contents
    case None => FileTypeResult(false, Unknown, Some("Failed to read file"))
    case Some(data) => ClassifyAsWritten(Slice(data, 0, 12))
  }

  // ---------------------------------------------------------------------------
  // The signature table, stated on bytes

  const JpegMagic: seq<byte> := [0xFF, 0xD8, 0xFF]
  const PngMagic: seq<byte> := [0x89, 0x50, 0x4E, 0x47]
  const GifMagic: seq<byte> := [0x47, 0x49, 0x46, 0x38]
  const RiffMagic: seq<byte> := [0x52, 0x49, 0x46, 0x46]
  const Id3Magic: seq<byte> := [0x49, 0x44, 0x33]
  const MpegSyncMagic: seq<byte> := [0xFF, 0xFB]
  const OggMagic: seq<byte> := [0x4F, 0x67, 0x67, 0x53]

  lemma HexJoinSplit(b: byte, rest: seq<byte>)
    ensures HexJoin([b] + rest) == ByteHex(b) + HexJoin(rest)
  {
    assert ([b] + rest)[1..] == rest;
  }

  /** The header texts the source compares against are the renderings of these bytes. */
  lemma MagicTexts()
    ensures HexJoin(JpegMagic) == "ffd8ff"
    ensures HexJoin(PngMagic) == "89504e47"
    ensures HexJoin(GifMagic) == "47494638"
    ensures HexJoin(RiffMagic) == "52494646"
    ensures HexJoin(Id3Magic) == "494433"
    ensures HexJoin(MpegSyncMagic) == "fffb"
    ensures HexJoin(OggMagic) == "4f676753"
  {
    JpegText();
    PngText();
    GifText();
    RiffText();
    Id3Text();
    MpegSyncText();
    OggText();
  }

  lemma JpegText()
    ensures HexJoin(JpegMagic) == "ffd8ff"
  {
    ByteHexDigits(0xFF);
    assert ByteHex(0xFF) == "ff";
    ByteHexDigits(0xD8);
    assert ByteHex(0xD8) == "d8";
    ByteHexDigits(0xFF);
    assert ByteHex(0xFF) == "ff";
    HexJoinSplit(0xFF, [0xD8, 0xFF]);
    HexJoinSplit(0xD8, [0xFF]);
    HexJoinSplit(0xFF, []);
    assert JpegMagic == [0xFF, 0xD8, 0xFF];
  }

  lemma PngText()
    ensures HexJoin(PngMagic) == "89504e47"
  {
    ByteHexDigits(0x89);
    assert ByteHex(0x89) == "89";
    ByteHexDigits(0x50);
    assert ByteHex(0x50) == "50";
    ByteHexDigits(0x4E);
    assert ByteHex(0x4E) == "4e";
    ByteHexDigits(0x47);
    assert ByteHex(0x47) == "47";
    HexJoinSplit(0x89, [0x50, 0x4E, 0x47]);
    HexJoinSplit(0x50, [0x4E, 0x47]);
    HexJoinSplit(0x4E, [0x47]);
    HexJoinSplit(0x47, []);
    assert PngMagic == [0x89, 0x50, 0x4E, 0x47];
  }

  lemma GifText()
    ensures HexJoin(GifMagic) == "47494638"
  {
    ByteHexDigits(0x47);
    assert ByteHex(0x47) == "47";
    ByteHexDigits(0x49);
    assert ByteHex(0x49) == "49";
    ByteHexDigits(0x46);
    assert ByteHex(0x46) == "46";
    ByteHexDigits(0x38);
    assert ByteHex(0x38) == "38";
    HexJoinSplit(0x47, [0x49, 0x46, 0x38]);
    HexJoinSplit(0x49, [0x46, 0x38]);
    HexJoinSplit(0x46, [0x38]);
    HexJoinSplit(0x38, []);
    assert GifMagic == [0x47, 0x49, 0x46, 0x38];
  }

  lemma RiffText()
    ensures HexJoin(RiffMagic) == "52494646"
  {
    ByteHexDigits(0x52);
    assert ByteHex(0x52) == "52";
    ByteHexDigits(0x49);
    assert ByteHex(0x49) == "49";
    ByteHexDigits(0x46);
    assert ByteHex(0x46) == "46";
    ByteHexDigits(0x46);
    assert ByteHex(0x46) == "46";
    HexJoinSplit(0x52, [0x49, 0x46, 0x46]);
    HexJoinSplit(0x49, [0x46, 0x46]);
    HexJoinSplit(0x46, [0x46]);
    HexJoinSplit(0x46, []);
    assert RiffMagic == [0x52, 0x49, 0x46, 0x46];
  }

  lemma Id3Text()
    ensures HexJoin(Id3Magic) == "494433"
  {
    ByteHexDigits(0x49);
    assert ByteHex(0x49) == "49";
    ByteHexDigits(0x44);
    assert ByteHex(0x44) == "44";
    ByteHexDigits(0x33);
    assert ByteHex(0x33) == "33";
    HexJoinSplit(0x49, [0x44, 0x33]);
    HexJoinSplit(0x44, [0x33]);
    HexJoinSplit(0x33, []);
    assert Id3Magic == [0x49, 0x44, 0x33];
  }

  lemma MpegSyncText()
    ensures HexJoin(MpegSyncMagic) == "fffb"
  {
    ByteHexDigits(0xFF);
    assert ByteHex(0xFF) == "ff";
    ByteHexDigits(0xFB);
    assert ByteHex(0xFB) == "fb";
    HexJoinSplit(0xFF, [0xFB]);
    HexJoinSplit(0xFB, []);
    assert MpegSyncMagic == [0xFF, 0xFB];
  }

  lemma OggText()
    ensures HexJoin(OggMagic) == "4f676753"
  {
    ByteHexDigits(0x4F);
    assert ByteHex(0x4F) == "4f";
    ByteHexDigits(0x67);
    assert ByteHex(0x67) == "67";
    ByteHexDigits(0x67);
    assert ByteHex(0x67) == "67";
    ByteHexDigits(0x53);
    assert ByteHex(0x53) == "53";
    HexJoinSplit(0x4F, [0x67, 0x67, 0x53]);
    HexJoinSplit(0x67, [0x67, 0x53]);
    HexJoinSplit(0x67, [0x53]);
    HexJoinSplit(0x53, []);
    assert OggMagic == [0x4F, 0x67, 0x67, 0x53];
  }

  predicate HasMagic(bs: seq<byte>, magic: seq<byte>) {
    |magic| <= |bs| && bs[..|magic|] == magic
  }

  /** Reference classifier: the MIME type whose signature the bytes start
      with, read straight off the bytes, in the source's priority order. */
  function SniffAsWritten(bs: seq<byte>): Option<string> {
    if HasMagic(bs, JpegMagic) then Some("image/jpeg")
    else if HasMagic(bs, PngMagic) then Some("image/png")
    else if HasMagic(bs, GifMagic) then Some("image/gif")
    else if HasMagic(bs, RiffMagic) then Some("image/webp")
    else if HasMagic(bs, Id3Magic) || HasMagic(bs, MpegSyncMagic) then Some("audio/mpeg")
    else if HasMagic(bs, OggMagic) then Some("audio/ogg")
    else None
  }

  /** Each signature, wherever it sits in the priority order, decides the
      verdict on its own: the signatures exclude one another. */
  lemma SniffSignatures(bs: seq<byte>)
    ensures HasMagic(bs, JpegMagic) ==> SniffAsWritten(bs) == Some("image/jpeg")
    ensures HasMagic(bs, PngMagic) ==> SniffAsWritten(bs) == Some("image/png")
    ensures HasMagic(bs, GifMagic) ==> SniffAsWritten(bs) == Some("image/gif")
    ensures HasMagic(bs, RiffMagic) ==> SniffAsWritten(bs) == Some("image/webp")
    ensures HasMagic(bs, Id3Magic) ==> SniffAsWritten(bs) == Some("audio/mpeg")
    ensures HasMagic(bs, MpegSyncMagic) ==> SniffAsWritten(bs) == Some("audio/mpeg")
    ensures HasMagic(bs, OggMagic) ==> SniffAsWritten(bs) == Some("audio/ogg")
  {
    if |bs| >= 2 {
      assert HasMagic(bs, JpegMagic) ==> bs[0] == 0xFF && bs[1] == 0xD8;
      assert HasMagic(bs, MpegSyncMagic) ==> bs[0] == 0xFF && bs[1] == 0xFB;
      assert HasMagic(bs, PngMagic) ==> bs[0] == 0x89;
      assert HasMagic(bs, GifMagic) ==> bs[0] == 0x47;
      assert HasMagic(bs, RiffMagic) ==> bs[0] == 0x52;
      assert HasMagic(bs, Id3Magic) ==> bs[0] == 0x49;
      assert HasMagic(bs, OggMagic) ==> bs[0] == 0x4F;
    }
  }

  /** The hex-text classifier agrees with the byte-level table on every input:
      each file gets exactly one verdict, and it is valid exactly when it names
      a type. Unknown files report their header in the error. */
  lemma ClassifyMatchesSniff(bs: seq<byte>)
    ensures var r := ClassifyAsWritten(bs);
      && (SniffAsWritten(bs).Some? ==> r == FileTypeResult(true, SniffAsWritten(bs).value, None))
      && (SniffAsWritten(bs).None? ==>
            r == FileTypeResult(false, Unknown, Some("Invalid file type (signature: " + Header(bs) + ")")))
      && (r.valid <==> r.mime != Unknown)
  {
    MagicTexts();
    HeaderStartsWith(bs, JpegMagic);
    HeaderStartsWith(bs, PngMagic);
    HeaderStartsWith(bs, GifMagic);
    HeaderStartsWith(bs, RiffMagic);
    HeaderStartsWith(bs, Id3Magic);
    HeaderStartsWith(bs, MpegSyncMagic);
    HeaderStartsWith(bs, OggMagic);
  }

  /** The defect: every RIFF file, WAVE audio included, is reported as WebP. */
  lemma RiffAlwaysWebp(bs: seq<byte>)
    requires HasMagic(bs, RiffMagic)
    ensures ClassifyAsWritten(bs) == FileTypeResult(true, "image/webp", None)
  {
    ClassifyMatchesSniff(bs);
  }

  const WaveFile: seq<byte> := RiffMagic + [0x24, 0x08, 0x00, 0x00] + [0x57, 0x41, 0x56, 0x45]

  lemma WaveForm()
    ensures Latin1(Slice(WaveFile, 8, 12)) == "WAVE"
  {
    var f := Slice(WaveFile, 8, 12);
    assert f == [0x57, 0x41, 0x56, 0x45];
    var t := Latin1(f);
    assert t[0] == 'W' && t[1] == 'A' && t[2] == 'V' && t[3] == 'E';
  }

  /** A concrete WAVE header ("RIFF", a length, "WAVE") is classified as an image. */
  lemma WaveMisclassified()
    ensures Latin1(Slice(WaveFile, 8, 12)) == "WAVE"
    ensures ValidateFileTypeAsWritten(Some(WaveFile)).mime == "image/webp"
  {
    WaveForm();
    assert Slice(WaveFile, 0, 12) == WaveFile;
    assert HasMagic(WaveFile, RiffMagic);
    RiffAlwaysWebp(WaveFile);
  }

  // ---------------------------------------------------------------------------
  // The classifier as intended

  const WaveTag: string := "WAVE"
  const WebpTag: string := "WEBP"

  /** The RIFF container resolved by its form type at bytes 8..12: WAVE is
      audio, WEBP is an image, anything else is an unknown RIFF format. */
  function Classify(bs: seq<byte>): FileTypeResult {
    var header := Header(bs);
    if StartsWith(header, "ffd8ff") then FileTypeResult(true, "image/jpeg", None)
    else if StartsWith(header, "89504e47") then FileTypeResult(true, "image/png", None)
    else if StartsWith(header, "47494638") then FileTypeResult(true, "image/gif", None)
    else if StartsWith(header, "52494646") then
      (var form := Latin1(Slice(bs, 8, 12));
       if form == WaveTag then FileTypeResult(true, "audio/wav", None)
       else if form == WebpTag then FileTypeResult(true, "image/webp", None)
       else FileTypeResult(false, Unknown, Some("Unknown RIFF format")))
    else if StartsWith(header, "494433") || StartsWith(header, "fffb") then FileTypeResult(true, "audio/mpeg", None)
    else if StartsWith(header, "4f676753") then FileTypeResult(true, "audio/ogg", None)
    else FileTypeResult(false, Unknown, Some("Invalid file type (signature: " + header + ")"))
  }

  function ValidateFileType(contents: Option<seq<byte>>): FileTypeResult {
    match contents
    case None => FileTypeResult(false, Unknown, Some("Failed to read file"))
    case Some(data) => Classify(Slice(data, 0, 12))
  }

  /** The corrected classifier tells WAVE audio from WebP images, rejects other
      RIFF forms, and agrees with the code as written on every non-RIFF file. */
  lemma ClassifyRiff(bs: seq<byte>)
    ensures HasMagic(bs, RiffMagic) && Latin1(Slice(bs, 8, 12)) == WaveTag ==>
      Classify(bs) == FileTypeResult(true, "audio/wav", None)
    ensures HasMagic(bs, RiffMagic) && Latin1(Slice(bs, 8, 12)) == WebpTag ==>
      Classify(bs) == FileTypeResult(true, "image/webp", None)
    ensures HasMagic(bs, RiffMagic) && Latin1(Slice(bs, 8, 12)) !in {WaveTag, WebpTag} ==>
      !Classify(bs).valid
    ensures !HasMagic(bs, RiffMagic) ==> Classify(bs) == ClassifyAsWritten(bs)
    ensures Classify(bs).valid <==> Classify(bs).mime != Unknown
  {
    MagicTexts();
    HeaderStartsWith(bs, JpegMagic);
    HeaderStartsWith(bs, PngMagic);
    HeaderStartsWith(bs, GifMagic);
    HeaderStartsWith(bs, RiffMagic);
    HeaderStartsWith(bs, Id3Magic);
    HeaderStartsWith(bs, MpegSyncMagic);
    HeaderStartsWith(bs, OggMagic);
  }

  /** The corrected classifier recognises the WAVE file the code as written misreads. */
  lemma WaveRecognised()
    ensures ValidateFileType(Some(WaveFile)) == FileTypeResult(true, "audio/wav", None)
  {
    WaveForm();
    assert Slice(WaveFile, 0, 12) == WaveFile;
    assert HasMagic(WaveFile, RiffMagic);
    ClassifyRiff(WaveFile);
  }

  // ---------------------------------------------------------------------------
  // Image dimensions

  datatype Verdict = Verdict(valid: bool, error: Option<string>)

  const DefaultMaxDimension: int := 4096

  /** `validateImageDimensions`: `size` is the loaded image's width and height,
      `None` when the image fails to load. */
  function ValidateImageDimensions(size: Option<(nat, nat)>, maxWidth: int, maxHeight: int): (r: Verdict)
    ensures size.None? ==> r == Verdict(false, Some("Failed to load image"))
    ensures size.Some? ==> (r.valid <==> size.value.0 <= maxWidth && size.value.1 <= maxHeight)
    ensures r.valid <==> r.error.None?
  {
    match size
    case None => Verdict(false, Some("Failed to load image"))
    case Some((w, h)) =>
      if w > maxWidth || h > maxHeight then
        Verdict(false, Some("Image dimensions " + NatToString(w) + "x" + NatToString(h)
                            + " exceed limit " + IntToString(maxWidth) + "x" + IntToString(maxHeight)))
      else Verdict(true, None)
  }

  /** With the default limits, an image passes iff neither side exceeds 4096 pixels. */
  lemma DefaultDimensions(w: nat, h: nat)
    ensures ValidateImageDimensions(Some((w, h)), DefaultMaxDimension, DefaultMaxDimension).valid
      <==> w <= 4096 && h <= 4096
  {
  }
}
