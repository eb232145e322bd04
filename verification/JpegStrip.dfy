/**
  Removing metadata from a JPEG file (section B.1.1 of ITU-T T.81): parser, printer and the
  byte loop, proved to agree.
 */
module JpegStrip {
  import opened Basics
  import opened ImageBytes

  datatype Segment =
    | Bare(marker: byte)
    | Framed(marker: byte, payload: bytes)
    | EndOfImage
    | Scan(data: bytes)

  const APP0: byte := 0xE0
  const APP1: byte := 0xE1
  const APP13: byte := 0xED
  const COM: byte := 0xFE
  const SOS: byte := 0xDA
  const EOI: byte := 0xD9
  const FILL: byte := 0xFF

  /** Markers that stand alone: TEM and the restart markers. */
  predicate StandsAlone(m: byte) {
    m == 0x01 || 0xD0 <= m <= 0xD7
  }

  predicate Terminal(g: Segment) {
    g.EndOfImage? || g.Scan?
  }

  predicate SegmentOk(g: Segment) {
    match g
    case Bare(m) => StandsAlone(m)
    case Framed(m, payload) => m != FILL && m != EOI && m != SOS && !StandsAlone(m) && |payload| + 2 < 0x1_0000
    case EndOfImage => true
    case Scan(d) => |d| >= 4 && d[0] == FILL && d[1] == SOS && 2 <= U16BE(d, 2) && 2 + U16BE(d, 2) <= |d|
  }

  /** Nothing follows an end-of-image marker or the scan, which runs to the end of the file. */
  ghost predicate SegmentsOk(gs: seq<Segment>) {
    && (forall g | g in gs :: SegmentOk(g))
    && (forall i | 0 <= i < |gs| - 1 :: !Terminal(gs[i]))
  }

  // ----- Printing and parsing --------------------------------------------------------------

  function Print(g: Segment): (s: bytes)
    requires SegmentOk(g)
    ensures |s| >= 2 && s[0] == FILL && s[1] != FILL
    ensures s[1] == APP0 <==> g.Framed? && g.marker == APP0
  {
    match g
    case Bare(m) => [FILL, m]
    case Framed(m, payload) => [FILL, m] + PutU16BE(|payload| + 2) + payload
    case EndOfImage => [FILL, EOI]
    case Scan(d) => d
  }

  function PrintAll(gs: seq<Segment>): bytes
    requires forall g | g in gs :: SegmentOk(g)
  {
    if gs == [] then [] else Print(gs[0]) + PrintAll(gs[1..])
  }

  function Prepend(g: Segment, r: Result<seq<Segment>>): Result<seq<Segment>> {
    match r
    case Ok(gs) => Ok([g] + gs)
    case Corrupt => Corrupt
  }

  /** The segments of the bytes after the start-of-image marker. */
  function Parse(s: bytes): Result<seq<Segment>>
    decreases |s|
  {
    if s == [] then Ok([])
    else if s[0] != FILL || |s| < 2 then Corrupt
    else if s[1] == FILL then Parse(s[1..])
    else if s[1] == EOI then Ok([EndOfImage])
    else if StandsAlone(s[1]) then Prepend(Bare(s[1]), Parse(s[2..]))
    else if |s| < 4 || U16BE(s, 2) < 2 || 2 + U16BE(s, 2) > |s| then Corrupt
    else if s[1] == SOS then Ok([Scan(s)])
    else Prepend(Framed(s[1], s[4..2 + U16BE(s, 2)]), Parse(s[2 + U16BE(s, 2)..]))
  }

  /** The grammar of the standard: fill bytes may precede each marker, anything may follow the end of the image. */
  ghost predicate Spells(s: bytes, gs: seq<Segment>)
    decreases |gs|, |s|
  {
    if gs == [] then s == []
    else if |s| >= 2 && s[0] == FILL && s[1] == FILL then Spells(s[1..], gs)
    else
      && SegmentOk(gs[0])
      && Print(gs[0]) <= s
      && var rest := s[|Print(gs[0])|..];
         if Terminal(gs[0]) then |gs| == 1 && (gs[0].Scan? ==> rest == []) else Spells(rest, gs[1..])
  }

  lemma PrintedFrame(m: byte, payload: bytes, s: bytes)
    requires SegmentOk(Framed(m, payload)) && Print(Framed(m, payload)) <= s
    ensures |s| >= 4 && s[0] == FILL && s[1] == m && U16BE(s, 2) == |payload| + 2 && 2 + U16BE(s, 2) <= |s|
    ensures s[4..2 + U16BE(s, 2)] == payload
    ensures |Print(Framed(m, payload))| == 2 + U16BE(s, 2)
  {
    var p := Print(Framed(m, payload));
    assert p[2..4] == PutU16BE(|payload| + 2);
    assert U16BE(p, 2) == U16BE(p[2..4], 0);
    assert s[..|p|] == p;
    assert p[4..] == payload;
    assert s[4..|p|] == p[4..];
  }

  /** A file starts with the frame that the parser reads from it. */
  lemma ReadFrame(s: bytes)
    requires |s| >= 4 && s[0] == FILL && 2 <= U16BE(s, 2) && 2 + U16BE(s, 2) <= |s|
    requires s[1] != FILL && s[1] != EOI && s[1] != SOS && !StandsAlone(s[1])
    ensures var g := Framed(s[1], s[4..2 + U16BE(s, 2)]); SegmentOk(g) && Print(g) == s[..2 + U16BE(s, 2)]
  {
    assert PutU16BE(U16BE(s, 2)) == s[2..4];
  }

  lemma SpellsEnd(s: bytes, gs: seq<Segment>)
    requires |s| >= 2 && s[0] == FILL && s[1] == EOI
    ensures Spells(s, gs) <==> gs == [EndOfImage]
  {
    if gs != [] && Spells(s, gs) {
      SecondByteDecides(s, gs[0]);
    }
  }

  lemma SpellsBare(s: bytes, gs: seq<Segment>)
    requires |s| >= 2 && s[0] == FILL && StandsAlone(s[1])
    ensures Spells(s, gs) <==> gs != [] && gs[0] == Bare(s[1]) && Spells(s[2..], gs[1..])
  {
    if gs != [] && Spells(s, gs) {
      SecondByteDecides(s, gs[0]);
    }
  }

  lemma SpellsScan(s: bytes, gs: seq<Segment>)
    requires |s| >= 4 && s[0] == FILL && s[1] == SOS && 2 <= U16BE(s, 2) && 2 + U16BE(s, 2) <= |s|
    ensures Spells(s, gs) <==> gs == [Scan(s)]
  {
    if gs != [] && Spells(s, gs) {
      SecondByteDecides(s, gs[0]);
      var d := gs[0].data;
      assert |s[|d|..]| == 0 && d == s[..|d|];
      assert d == s && gs == [gs[0]];
    }
    assert Print(Scan(s)) == s && s[|s|..] == [];
  }

  lemma SpellsFrame(s: bytes, gs: seq<Segment>)
    requires |s| >= 4 && s[0] == FILL && 2 <= U16BE(s, 2) && 2 + U16BE(s, 2) <= |s|
    requires s[1] != FILL && s[1] != EOI && s[1] != SOS && !StandsAlone(s[1])
    ensures Spells(s, gs)
       <==> gs != [] && gs[0] == Framed(s[1], s[4..2 + U16BE(s, 2)]) && Spells(s[2 + U16BE(s, 2)..], gs[1..])
  {
    ReadFrame(s);
    if gs != [] && Spells(s, gs) {
      SecondByteDecides(s, gs[0]);
    }
  }

  lemma SpellsNothing(s: bytes, gs: seq<Segment>)
    requires |s| >= 2 && s[0] == FILL && s[1] != FILL && s[1] != EOI && !StandsAlone(s[1])
    requires |s| < 4 || U16BE(s, 2) < 2 || 2 + U16BE(s, 2) > |s|
    ensures !Spells(s, gs)
  {
    if gs != [] && Spells(s, gs) {
      SecondByteDecides(s, gs[0]);
    }
  }

  /** The parser accepts exactly the grammar, and reads the segments that the grammar spells. */
  lemma {:induction false} ParseIsGrammar(s: bytes, gs: seq<Segment>)
    ensures Parse(s) == Ok(gs) <==> Spells(s, gs)
    decreases |s|
  {
    if s == [] || s[0] != FILL || |s| < 2 {
      // Neither the parser nor the grammar accepts more than the empty list here.
    } else if s[1] == FILL {
      ParseIsGrammar(s[1..], gs);
    } else if s[1] == EOI {
      SpellsEnd(s, gs);
    } else if StandsAlone(s[1]) {
      SpellsBare(s, gs);
      if gs != [] {
        ParseIsGrammar(s[2..], gs[1..]);
        assert [gs[0]] + gs[1..] == gs;
      }
    } else if |s| < 4 || U16BE(s, 2) < 2 || 2 + U16BE(s, 2) > |s| {
      SpellsNothing(s, gs);
    } else if s[1] == SOS {
      SpellsScan(s, gs);
    } else {
      SpellsFrame(s, gs);
      if gs != [] {
        ParseIsGrammar(s[2 + U16BE(s, 2)..], gs[1..]);
        assert [gs[0]] + gs[1..] == gs;
      }
    }
  }

  /** The second byte decides which kind of segment a prefix can be. */
  lemma SecondByteDecides(s: bytes, g: Segment)
    requires SegmentOk(g) && Print(g) <= s
    ensures |s| >= 2 && s[0] == FILL
    ensures g.EndOfImage? <==> s[1] == EOI
    ensures g.Bare? <==> StandsAlone(s[1])
    ensures g.Bare? ==> g.marker == s[1]
    ensures g.Scan? <==> s[1] == SOS
    ensures g.Scan? || g.Framed? ==> |s| >= 4 && 2 <= U16BE(s, 2) && 2 + U16BE(s, 2) <= |s|
    ensures g.Framed? ==> g == Framed(s[1], s[4..2 + U16BE(s, 2)]) && |Print(g)| == 2 + U16BE(s, 2)
  {
    if g.Framed? {
      PrintedFrame(g.marker, g.payload, s);
    }
  }

  lemma {:induction false} ParsedSegmentsOk(s: bytes)
    ensures Parse(s).Ok? ==> SegmentsOk(Parse(s).value)
    decreases |s|
  {
    if s == [] || s[0] != FILL || |s| < 2 {
    } else if s[1] == FILL {
      ParsedSegmentsOk(s[1..]);
    } else if s[1] == EOI {
    } else if StandsAlone(s[1]) {
      ParsedSegmentsOk(s[2..]);
    } else if |s| < 4 || U16BE(s, 2) < 2 || 2 + U16BE(s, 2) > |s| {
    } else if s[1] != SOS {
      ReadFrame(s);
      ParsedSegmentsOk(s[2 + U16BE(s, 2)..]);
    }
  }

  /** The parser reads one printed segment and goes on after it. */
  lemma ParsePrinted(g: Segment, rest: bytes)
    requires SegmentOk(g) && (g.Scan? ==> rest == [])
    ensures Parse(Print(g) + rest) == if Terminal(g) then Ok([g]) else Prepend(g, Parse(rest))
  {
    var p := Print(g);
    var s := p + rest;
    assert s[|p|..] == rest && p <= s;
    SecondByteDecides(s, g);
    if g.Scan? {
      assert s == p;
    }
  }

  lemma PrintParseStep(g: Segment, gs: seq<Segment>, rest: bytes)
    requires SegmentOk(g) && Parse(rest) == Ok(gs) && (Terminal(g) ==> gs == [] && rest == [])
    ensures Parse(Print(g) + rest) == Ok([g] + gs)
  {
    ParsePrinted(g, rest);
    if Terminal(g) {
      assert [g] + gs == [g];
    }
  }

  /** What is printed parses back to the same segments. */
  lemma {:induction false} PrintParse(gs: seq<Segment>)
    requires SegmentsOk(gs)
    ensures Parse(PrintAll(gs)) == Ok(gs)
  {
    if gs != [] {
      PrintParse(gs[1..]);
      assert Terminal(gs[0]) ==> gs[1..] == [];
      PrintParseStep(gs[0], gs[1..], PrintAll(gs[1..]));
      assert gs == [gs[0]] + gs[1..];
    }
  }

  // ----- Orientation -----------------------------------------------------------------------

  const EXIF_HEADER: bytes := [0x45, 0x78, 0x69, 0x66, 0, 0]
  const ORIENTATION_TAG := 0x0112

  function U16(tiff: bytes, littleEndian: bool, i: nat): nat
    requires i + 2 <= |tiff|
  {
    if littleEndian then U16LE(tiff, i) else U16BE(tiff, i)
  }

  function U32(tiff: bytes, littleEndian: bool, i: nat): nat
    requires i + 4 <= |tiff|
  {
    if littleEndian then U32LE(tiff, i) else U32BE(tiff, i)
  }

  /** The first orientation entry among entries `i` onwards of the directory at `ifd`. */
  function FindOrientation(tiff: bytes, le: bool, ifd: nat, count: nat, i: nat): (r: Option<nat>)
    requires i <= count
    ensures r.Some? ==> 1 <= r.value <= 8
    decreases count - i
  {
    var entry := ifd + 2 + i * 12;
    if i == count || entry + 12 > |tiff| then None
    else if U16(tiff, le, entry) == ORIENTATION_TAG then
      var value := U16(tiff, le, entry + 8);
      if 1 <= value <= 8 then Some(value) else None
    else FindOrientation(tiff, le, ifd, count, i + 1)
  }

  predicate HasTiffOrder(tiff: bytes)
    requires |tiff| >= 2
  {
    Ascii(tiff[..2]) == [0x49, 0x49] || Ascii(tiff[..2]) == [0x4D, 0x4D]
  }

  /** The orientation in the data of an APP1 segment, when it has one between 1 and 8. */
  function ExifOrientation(payload: bytes): (r: Option<nat>)
    ensures r.Some? ==> 1 <= r.value <= 8
  {
    if |payload| < 14 || payload[..6] != EXIF_HEADER || !HasTiffOrder(payload[6..]) then None
    else
      var tiff := payload[6..];
      var le := Ascii(tiff[..2]) == [0x49, 0x49];
      var ifd := U32(tiff, le, 4);
      if ifd + 2 > |tiff| then None
      else FindOrientation(tiff, le, ifd, U16(tiff, le, ifd), 0)
  }

  method JpegExifOrientation(segment: bytes) returns (orientation: Option<nat>)
    ensures orientation == ExifOrientation(segment)
  {
    if |segment| < 14 || segment[..6] != EXIF_HEADER {
      return None;
    }
    var tiff := segment[6..];
    if !HasTiffOrder(tiff) {
      return None;
    }
    var le := Ascii(tiff[..2]) == [0x49, 0x49];
    var ifd := U32(tiff, le, 4);
    if ifd + 2 > |tiff| {
      return None;
    }
    var count := U16(tiff, le, ifd);
    for i := 0 to count
      invariant FindOrientation(tiff, le, ifd, count, 0) == FindOrientation(tiff, le, ifd, count, i)
    {
      var entry := ifd + 2 + i * 12;
      if entry + 12 > |tiff| {
        return None;
      }
      if U16(tiff, le, entry) == ORIENTATION_TAG {
        var value := U16(tiff, le, entry + 8);
        return if 1 <= value <= 8 then Some(value) else None;
      }
    }
    return None;
  }

  /**
    Byte `i` of the smallest Exif block that carries only an orientation, big-endian: the header,
    "MM", 42, the directory at offset 8, one entry (tag 0x0112, type SHORT, one value), no next directory.
   */
  function MinimalByte(i: nat, orientation: nat): byte
    requires orientation < 0x1_0000
  {
    if i < 6 then EXIF_HEADER[i]
    else if i == 6 || i == 7 then 0x4D
    else if i == 9 then 42
    else if i == 13 then 8
    else if i == 15 || i == 16 || i == 23 then 1
    else if i == 17 then 0x12
    else if i == 19 then 3
    else if i == 24 then orientation / 0x100
    else if i == 25 then orientation % 0x100
    else 0
  }

  function MinimalExif(orientation: nat): (s: bytes)
    requires orientation < 0x1_0000
    ensures |s| == 32
  {
    seq(32, i requires 0 <= i < 32 => MinimalByte(i, orientation))
  }

  /** The first `n` bytes of the block have been written into the zeroed buffer. */
  ghost predicate Written(b: bytes, orientation: nat, n: nat)
    requires orientation < 0x1_0000
  {
    |b| == 32 && forall i | 0 <= i < 32 :: b[i] == if i < n then MinimalByte(i, orientation) else 0
  }

  method Write(b: array<byte>, at: nat, s: bytes, ghost orientation: nat)
    requires orientation < 0x1_0000 && at + |s| <= 32
    requires Written(b[..], orientation, at)
    requires forall i | 0 <= i < |s| :: s[i] == MinimalByte(at + i, orientation)
    modifies b
    ensures Written(b[..], orientation, at + |s|)
  {
    for k := 0 to |s|
      invariant Written(b[..], orientation, at + k)
    {
      b[at + k] := s[k];
    }
  }

  method WriteHeader(body: array<byte>, ghost orientation: nat)
    requires orientation < 0x1_0000 && Written(body[..], orientation, 0)
    modifies body
    ensures Written(body[..], orientation, 14)
  {
    Write(body, 0, EXIF_HEADER, orientation);
    Write(body, 6, [0x4D, 0x4D], orientation);
    Write(body, 8, PutU16BE(42), orientation);
    Write(body, 10, PutU32BE(8), orientation);
  }

  method WriteEntry(body: array<byte>, orientation: nat)
    requires orientation < 0x1_0000 && Written(body[..], orientation, 14)
    modifies body
    ensures Written(body[..], orientation, 26)
  {
    Write(body, 14, PutU16BE(1), orientation);
    Write(body, 16, PutU16BE(ORIENTATION_TAG), orientation);
    Write(body, 18, PutU16BE(3), orientation);
    Write(body, 20, PutU32BE(1), orientation);
    Write(body, 24, PutU16BE(orientation), orientation);
  }

  /** Writes the APP1 segment field by field into a zeroed buffer. */
  method MinimalOrientationApp1(orientation: nat) returns (segment: bytes)
    requires orientation < 0x1_0000
    ensures segment == Print(Framed(APP1, MinimalExif(orientation)))
  {
    var body := new byte[32](_ => 0);
    WriteHeader(body, orientation);
    WriteEntry(body, orientation);
    assert Written(body[..], orientation, 28);
    Write(body, 28, [0, 0, 0, 0], orientation);
    assert body[..] == MinimalExif(orientation);
    return [FILL, APP1] + PutU16BE(body.Length + 2) + body[..];
  }

  /** The minimal block is read back as the orientation it was written for. */
  lemma MinimalExifCarries(orientation: nat)
    requires 1 <= orientation <= 8
    ensures ExifOrientation(MinimalExif(orientation)) == Some(orientation)
  {
    var s := MinimalExif(orientation);
    var tiff := s[6..];
    assert s[..6] == EXIF_HEADER;
    assert Ascii(tiff[..2]) == [0x4D, 0x4D];
    assert U16BE(tiff, 4) == 0 && U16BE(tiff, 6) == 8;
    assert U32BE(tiff, 4) == 8;
    assert U16BE(tiff, 8) == 1;
    assert U16BE(tiff, 10) == ORIENTATION_TAG;
    assert U16BE(tiff, 18) == orientation;
  }

  // ----- Stripping -------------------------------------------------------------------------

  predicate IsMetadata(g: Segment) {
    g.Framed? && (g.marker == APP1 || g.marker == APP13 || g.marker == COM)
  }

  function KeptSegments(gs: seq<Segment>): (r: seq<Segment>)
    ensures forall g :: g in r <==> g in gs && !IsMetadata(g)
  {
    Filter(gs, (g: Segment) => !IsMetadata(g))
  }

  function MetadataSegments(gs: seq<Segment>): (r: seq<Segment>)
    ensures forall g :: g in r <==> g in gs && IsMetadata(g)
  {
    Filter(gs, (g: Segment) => IsMetadata(g))
  }

  lemma PartsConcat(gs: seq<Segment>, hs: seq<Segment>)
    ensures KeptSegments(gs + hs) == KeptSegments(gs) + KeptSegments(hs)
    ensures MetadataSegments(gs + hs) == MetadataSegments(gs) + MetadataSegments(hs)
  {
    FilterConcat(gs, hs, (g: Segment) => !IsMetadata(g));
    FilterConcat(gs, hs, (g: Segment) => IsMetadata(g));
  }

  function OrientationOf(g: Segment): Option<nat> {
    if g.Framed? && g.marker == APP1 then ExifOrientation(g.payload) else None
  }

  /** The orientation of the first APP1 segment that carries one. */
  function FirstOrientation(gs: seq<Segment>): (r: Option<nat>)
    ensures r.Some? ==> 1 <= r.value <= 8
  {
    if gs == [] then None
    else if OrientationOf(gs[0]).Some? then OrientationOf(gs[0])
    else FirstOrientation(gs[1..])
  }

  /** How a viewer rotates the image: upright when the file says nothing. */
  function EffectiveOrientation(gs: seq<Segment>): nat {
    FirstOrientation(gs).GetOr(1)
  }

  function OrientationBlock(orientation: nat): (g: Segment)
    requires 1 <= orientation <= 8
    ensures SegmentOk(g) && IsMetadata(g)
  {
    Framed(APP1, MinimalExif(orientation))
  }

  predicate StartsWithJfif(gs: seq<Segment>) {
    gs != [] && gs[0].Framed? && gs[0].marker == APP0
  }

  /** A rotated image gets the orientation block back, after the JFIF segment when that comes first. */
  function StripSegments(gs: seq<Segment>): seq<Segment> {
    var kept := KeptSegments(gs);
    if EffectiveOrientation(gs) == 1 then kept
    else
      var g := OrientationBlock(EffectiveOrientation(gs));
      if StartsWithJfif(kept) then [kept[0], g] + kept[1..] else [g] + kept
  }

  function StripSpec(input: bytes): Result<bytes> {
    if |input| < 2 || input[0] != FILL || input[1] != 0xD8 then Corrupt
    else
      match Parse(input[2..])
      case Corrupt => Corrupt
      case Ok(gs) =>
        ParsedSegmentsOk(input[2..]);
        StrippedOk(gs);
        Ok(input[..2] + PrintAll(StripSegments(gs)))
  }

  lemma {:induction false} KeptOk(gs: seq<Segment>)
    requires SegmentsOk(gs)
    ensures SegmentsOk(KeptSegments(gs))
  {
    if gs != [] {
      assert forall i | 0 <= i < |gs| - 1 :: gs[1..][i] == gs[i + 1];
      KeptOk(gs[1..]);
      if |gs| > 1 && Terminal(gs[0]) {
        assert false;
      }
    }
  }

  lemma StrippedOk(gs: seq<Segment>)
    requires SegmentsOk(gs)
    ensures SegmentsOk(StripSegments(gs))
  {
    KeptOk(gs);
  }

  // ----- The byte loop ---------------------------------------------------------------------

  lemma {:induction false} FirstOrientationConcat(gs: seq<Segment>, hs: seq<Segment>)
    ensures FirstOrientation(gs + hs)
         == if FirstOrientation(gs).Some? then FirstOrientation(gs) else FirstOrientation(hs)
  {
    if gs == [] {
      assert gs + hs == hs;
    } else {
      assert (gs + hs)[1..] == gs[1..] + hs;
      FirstOrientationConcat(gs[1..], hs);
    }
  }

  /** One buffer per segment. */
  function PrintEach(gs: seq<Segment>): seq<bytes> {
    seq(|gs|, i requires 0 <= i < |gs| => if SegmentOk(gs[i]) then Print(gs[i]) else [])
  }

  lemma PrintEachConcat(gs: seq<Segment>, hs: seq<Segment>)
    ensures PrintEach(gs + hs) == PrintEach(gs) + PrintEach(hs)
  {
  }

  lemma {:induction false} FlattenPrints(gs: seq<Segment>)
    requires forall g | g in gs :: SegmentOk(g)
    ensures Flatten(PrintEach(gs)) == PrintAll(gs)
  {
    if gs != [] {
      assert gs[0] in gs;
      assert PrintEach(gs)[1..] == PrintEach(gs[1..]);
      FlattenPrints(gs[1..]);
    }
  }

  function Joined(done: seq<Segment>, rest: Result<seq<Segment>>): Result<seq<Segment>> {
    match rest
    case Ok(gs) => Ok(done + gs)
    case Corrupt => Corrupt
  }

  /** The segments read so far, followed by those that parse from `offset`. */
  ghost function Reading(input: bytes, offset: nat, done: seq<Segment>): Result<seq<Segment>>
    requires offset <= |input|
  {
    Joined(done, Parse(input[offset..]))
  }

  lemma JoinOne(done: seq<Segment>, g: Segment, rest: Result<seq<Segment>>)
    ensures Joined(done, Prepend(g, rest)) == Joined(done + [g], rest)
  {
    if rest.Ok? {
      assert done + ([g] + rest.value) == done + [g] + rest.value;
    }
  }

  /** The buffers that the loop keeps from the segments `gs`. */
  function KeptPrints(gs: seq<Segment>): seq<bytes> {
    PrintEach(KeptSegments(gs))
  }

  lemma CollectOne(done: seq<Segment>, g: Segment)
    requires SegmentOk(g)
    ensures KeptPrints(done + [g]) == if IsMetadata(g) then KeptPrints(done) else KeptPrints(done) + [Print(g)]
    ensures FirstOrientation(done + [g])
         == if FirstOrientation(done).Some? then FirstOrientation(done) else OrientationOf(g)
  {
    PartsConcat(done, [g]);
    FirstOrientationConcat(done, [g]);
    assert KeptSegments([g]) == if IsMetadata(g) then [] else [g];
    PrintEachConcat(KeptSegments(done), KeptSegments([g]));
  }

  lemma ParseBare(s: bytes)
    requires |s| >= 2 && s[0] == FILL && StandsAlone(s[1])
    ensures Parse(s) == Prepend(Bare(s[1]), Parse(s[2..]))
  {
  }

  lemma TakeBare(input: bytes, at: nat, end: nat, done: seq<Segment>, g: Segment)
    requires at + 2 == end <= |input| && input[at] == FILL && StandsAlone(input[at + 1])
    requires g == Bare(input[at + 1])
    ensures SegmentOk(g) && Print(g) == input[at..end]
    ensures Reading(input, end, done + [g]) == Reading(input, at, done)
  {
    var s := input[at..];
    assert s[2..] == input[end..];
    ParseBare(s);
    JoinOne(done, g, Parse(input[end..]));
  }

  lemma ParseFrame(s: bytes)
    requires |s| >= 4 && s[0] == FILL && 2 <= U16BE(s, 2) && 2 + U16BE(s, 2) <= |s|
    requires s[1] != FILL && s[1] != EOI && s[1] != SOS && !StandsAlone(s[1])
    ensures Parse(s) == Prepend(Framed(s[1], s[4..2 + U16BE(s, 2)]), Parse(s[2 + U16BE(s, 2)..]))
  {
  }

  lemma TakeFrame(input: bytes, at: nat, end: nat, done: seq<Segment>, g: Segment)
    requires at + 4 <= |input| && input[at] == FILL && end == at + 2 + U16BE(input, at + 2) && at + 4 <= end <= |input|
    requires var m := input[at + 1]; m != FILL && m != EOI && m != SOS && !StandsAlone(m)
    requires g == Framed(input[at + 1], input[at + 4..end])
    ensures SegmentOk(g) && Print(g) == input[at..end]
    ensures Reading(input, end, done + [g]) == Reading(input, at, done)
  {
    var s := input[at..];
    assert U16BE(s, 2) == U16BE(input, at + 2);
    assert s[4..end - at] == input[at + 4..end] && s[..end - at] == input[at..end] && s[end - at..] == input[end..];
    ReadFrame(s);
    ParseFrame(s);
    JoinOne(done, g, Parse(input[end..]));
  }

  /** What the loop does with the framed segment from `at` to `end`. */
  method CollectFrame(input: bytes, at: nat, end: nat, keptInput: seq<bytes>, orientationInput: Option<nat>,
                      ghost done: seq<Segment>)
    returns (kept: seq<bytes>, orientation: Option<nat>, ghost all: seq<Segment>)
    requires at + 4 <= |input| && input[at] == FILL && end == at + 2 + U16BE(input, at + 2) && at + 4 <= end <= |input|
    requires var m := input[at + 1]; m != FILL && m != EOI && m != SOS && !StandsAlone(m)
    requires keptInput == KeptPrints(done) && orientationInput == FirstOrientation(done)
    ensures Reading(input, end, all) == Reading(input, at, done)
    ensures kept == KeptPrints(all) && orientation == FirstOrientation(all)
  {
    ghost var g := Framed(input[at + 1], input[at + 4..end]);
    TakeFrame(input, at, end, done, g);
    CollectOne(done, g);
    kept, orientation, all := keptInput, orientationInput, done + [g];
    var marker := input[at + 1];
    if marker == APP1 {
      if orientation == None {
        orientation := JpegExifOrientation(input[at + 4..end]);
      }
    } else if marker != APP13 && marker != COM {
      kept := kept + [input[at..end]];
    }
  }

  /** What the loop does with a marker that stands alone. */
  method CollectBare(input: bytes, at: nat, keptInput: seq<bytes>, ghost done: seq<Segment>)
    returns (kept: seq<bytes>, ghost all: seq<Segment>)
    requires at + 2 <= |input| && input[at] == FILL && StandsAlone(input[at + 1])
    requires keptInput == KeptPrints(done)
    ensures Reading(input, at + 2, all) == Reading(input, at, done)
    ensures kept == KeptPrints(all) && FirstOrientation(all) == FirstOrientation(done)
  {
    ghost var g := Bare(input[at + 1]);
    TakeBare(input, at, at + 2, done, g);
    CollectOne(done, g);
    kept, all := keptInput + [input[at..at + 2]], done + [g];
  }

  lemma StripSpecOf(input: bytes, gs: seq<Segment>)
    requires |input| >= 2 && input[0] == FILL && input[1] == 0xD8 && Parse(input[2..]) == Ok(gs)
    ensures SegmentsOk(gs) && SegmentsOk(StripSegments(gs))
    ensures StripSpec(input) == Ok(input[..2] + PrintAll(StripSegments(gs)))
  {
    ParsedSegmentsOk(input[2..]);
    StrippedOk(gs);
  }

  /** Where the marker of the next segment starts, past any fill bytes. */
  method SkipFill(input: bytes, offset: nat) returns (markerAt: nat)
    requires offset < |input| && input[offset] == FILL
    ensures offset <= markerAt < |input| && input[markerAt] == FILL
    ensures markerAt + 1 < |input| ==> input[markerAt + 1] != FILL
    ensures Parse(input[markerAt..]) == Parse(input[offset..])
  {
    markerAt := offset;
    while markerAt + 1 < |input| && input[markerAt + 1] == FILL
      invariant offset <= markerAt < |input| && input[markerAt] == FILL
      invariant Parse(input[markerAt..]) == Parse(input[offset..])
    {
      assert input[markerAt..][1..] == input[markerAt + 1..];
      markerAt := markerAt + 1;
    }
  }

  /** Where the segment that starts at `markerAt` ends, by its length field. */
  method FrameEnd(input: bytes, markerAt: nat) returns (end: Option<nat>)
    requires markerAt + 2 <= |input| && input[markerAt] == FILL && input[markerAt + 1] != FILL
    requires input[markerAt + 1] != EOI && !StandsAlone(input[markerAt + 1])
    ensures end.None? ==> Parse(input[markerAt..]) == Corrupt
    ensures end.Some? ==> markerAt + 4 <= end.value <= |input| && end.value == markerAt + 2 + U16BE(input, markerAt + 2)
  {
    if markerAt + 4 > |input| {
      return None;
    }
    var length := U16BE(input, markerAt + 2);
    assert length == U16BE(input[markerAt..], 2);
    if length < 2 || markerAt + 2 + length > |input| {
      return None;
    }
    return Some(markerAt + 2 + length);
  }

  lemma TakeEnd(input: bytes, at: nat, done: seq<Segment>)
    requires at + 2 <= |input| && input[at] == FILL && input[at + 1] == EOI
    ensures Reading(input, at, done) == Ok(done + [EndOfImage])
    ensures KeptPrints(done + [EndOfImage]) == KeptPrints(done) + [input[at..at + 2]]
    ensures FirstOrientation(done + [EndOfImage]) == FirstOrientation(done)
  {
    assert Print(EndOfImage) == input[at..at + 2];
    CollectOne(done, EndOfImage);
  }

  lemma TakeScan(input: bytes, at: nat, done: seq<Segment>)
    requires at + 4 <= |input| && input[at] == FILL && input[at + 1] == SOS
    requires 2 <= U16BE(input, at + 2) && at + 2 + U16BE(input, at + 2) <= |input|
    ensures Reading(input, at, done) == Ok(done + [Scan(input[at..])])
    ensures KeptPrints(done + [Scan(input[at..])]) == KeptPrints(done) + [input[at..]]
    ensures FirstOrientation(done + [Scan(input[at..])]) == FirstOrientation(done)
  {
    assert U16BE(input[at..], 2) == U16BE(input, at + 2);
    CollectOne(done, Scan(input[at..]));
  }

  /** The segment loop: what to keep and the orientation, or nothing when the structure is broken. */
  method ReadSegments(input: bytes) returns (ok: bool, kept: seq<bytes>, orientation: Option<nat>, ghost done: seq<Segment>)
    requires |input| >= 2
    ensures Parse(input[2..]) == if ok then Ok(done) else Corrupt
    ensures ok ==> kept == KeptPrints(done) && orientation == FirstOrientation(done)
  {
    kept, orientation, done := [], None, [];
    var offset := 2;
    ghost var whole := Parse(input[2..]);
    assert whole.Ok? ==> [] + whole.value == whole.value;
    while offset < |input|
      invariant 2 <= offset <= |input|
      invariant Reading(input, offset, done) == whole
      invariant kept == KeptPrints(done) && orientation == FirstOrientation(done)
    {
      if input[offset] != FILL {
        return false, [], None, [];
      }
      var markerAt := SkipFill(input, offset);
      if markerAt + 1 >= |input| {
        return false, [], None, [];
      }
      var marker := input[markerAt + 1];
      if marker == EOI {
        TakeEnd(input, markerAt, done);
        return true, kept + [input[markerAt..markerAt + 2]], orientation, done + [EndOfImage];
      }
      if StandsAlone(marker) {
        kept, done := CollectBare(input, markerAt, kept, done);
        offset := markerAt + 2;
        continue;
      }
      var end := FrameEnd(input, markerAt);
      if end == None {
        return false, [], None, [];
      }
      if marker == SOS {
        TakeScan(input, markerAt, done);
        return true, kept + [input[markerAt..]], orientation, done + [Scan(input[markerAt..])];
      }
      kept, orientation, done := CollectFrame(input, markerAt, end.value, kept, orientation, done);
      offset := end.value;
    }
    assert done + [] == done;
    ok := true;
  }

  method StripJpeg(input: bytes) returns (r: Result<bytes>)
    ensures r == StripSpec(input)
  {
    if |input| < 2 || input[0] != FILL || input[1] != 0xD8 {
      return Corrupt;
    }
    var ok, kept, orientation, done := ReadSegments(input);
    if !ok {
      return Corrupt;
    }
    StripSpecOf(input, done);
    var output := Assemble(input[..2], kept, orientation, done);
    return Ok(output);
  }

  /** Where the orientation block of a rotated image goes. */
  lemma StripShape(gs: seq<Segment>) returns (front: seq<Segment>, back: seq<Segment>)
    requires EffectiveOrientation(gs) != 1
    ensures KeptSegments(gs) == front + back
    ensures StripSegments(gs) == front + [OrientationBlock(EffectiveOrientation(gs))] + back
    ensures front == if StartsWithJfif(KeptSegments(gs)) then KeptSegments(gs)[..1] else []
  {
    var kept := KeptSegments(gs);
    front := if StartsWithJfif(kept) then kept[..1] else [];
    back := kept[|front|..];
  }

  /** The buffers of a rotated image: the block goes after the JFIF segment when that comes first. */
  lemma RotatedPrints(gs: seq<Segment>, kept: seq<bytes>)
    requires kept == KeptPrints(gs) && EffectiveOrientation(gs) != 1
    ensures var n := if StartsWithJfif(KeptSegments(gs)) then 1 else 0;
            n <= |kept|
            && PrintEach(StripSegments(gs)) == kept[..n] + [Print(OrientationBlock(EffectiveOrientation(gs)))] + kept[n..]
  {
    var front, back := StripShape(gs);
    var block := OrientationBlock(EffectiveOrientation(gs));
    var n := |front|;
    PrintEachConcat(front, back);
    assert kept[..n] == PrintEach(front) && kept[n..] == PrintEach(back);
    PrintEachConcat(front, [block]);
    PrintEachConcat(front + [block], back);
    assert PrintEach([block]) == [Print(block)];
  }

  lemma JfifFirst(gs: seq<Segment>)
    requires forall g | g in gs :: SegmentOk(g)
    ensures StartsWithJfif(gs) <==> |PrintEach(gs)| > 0 && |PrintEach(gs)[0]| > 1 && PrintEach(gs)[0][1] == APP0
  {
    if gs != [] {
      assert gs[0] in gs;
    }
  }

  /** The buffers of a rotated image, the orientation block among them. */
  method WithOrientation(kept: seq<bytes>, orientation: nat, ghost done: seq<Segment>) returns (all: seq<bytes>)
    requires SegmentsOk(done) && kept == KeptPrints(done) && orientation == EffectiveOrientation(done) != 1
    ensures all == PrintEach(StripSegments(done))
  {
    RotatedPrints(done, kept);
    JfifFirst(KeptSegments(done));
    var app1 := MinimalOrientationApp1(orientation);
    var jfifFirst := |kept| > 0 && |kept[0]| > 1 && kept[0][1] == APP0;
    if jfifFirst {
      return [kept[0]] + [app1] + kept[1..];
    }
    assert kept[..0] + [app1] + kept[0..] == [app1] + kept;
    return [app1] + kept;
  }

  /** The start of the image, the orientation block when the image is rotated, and the kept segments. */
  method Assemble(start: bytes, kept: seq<bytes>, orientation: Option<nat>, ghost done: seq<Segment>)
    returns (output: bytes)
    requires SegmentsOk(done) && kept == KeptPrints(done) && orientation == FirstOrientation(done)
    ensures SegmentsOk(StripSegments(done)) && output == start + PrintAll(StripSegments(done))
  {
    StrippedOk(done);
    var all := kept;
    if orientation.Some? && orientation.value != 1 {
      all := WithOrientation(kept, orientation.value, done);
    }
    assert all == PrintEach(StripSegments(done));
    FlattenPrints(StripSegments(done));
    return start + Flatten(all);
  }

  // ----- What stripping guarantees -----------------------------------------------------------

  lemma {:induction false} KeptHasNoMetadata(gs: seq<Segment>)
    requires forall g | g in gs :: !IsMetadata(g)
    ensures KeptSegments(gs) == gs && MetadataSegments(gs) == [] && FirstOrientation(gs) == None
  {
    if gs != [] {
      KeptHasNoMetadata(gs[1..]);
      assert gs[0] in gs;
    }
  }

  lemma SplitAroundBlock(front: seq<Segment>, block: Segment, back: seq<Segment>)
    requires IsMetadata(block)
    requires forall g | g in front + back :: !IsMetadata(g)
    ensures KeptSegments(front + [block] + back) == front + back
    ensures MetadataSegments(front + [block] + back) == [block]
    ensures FirstOrientation(front + [block] + back) == OrientationOf(block)
  {
    PartsConcat(front + [block], back);
    PartsConcat(front, [block]);
    KeptHasNoMetadata(front);
    KeptHasNoMetadata(back);
    FirstOrientationConcat(front + [block], back);
    FirstOrientationConcat(front, [block]);
  }

  /**
    Every segment that is not APP1, APP13 or COM is kept, in order and unchanged, the scan
    included; of those that are, nothing is left but one block with the orientation, and that
    only for a rotated image. The orientation is unchanged.
   */
  lemma StripKeepsTheImage(gs: seq<Segment>)
    ensures KeptSegments(StripSegments(gs)) == KeptSegments(gs)
    ensures MetadataSegments(StripSegments(gs))
         == if EffectiveOrientation(gs) == 1 then [] else [OrientationBlock(EffectiveOrientation(gs))]
    ensures EffectiveOrientation(StripSegments(gs)) == EffectiveOrientation(gs)
  {
    var o := EffectiveOrientation(gs);
    if o == 1 {
      KeptHasNoMetadata(KeptSegments(gs));
    } else {
      var front, back := StripShape(gs);
      assert forall g | g in front + back :: g in KeptSegments(gs);
      MinimalExifCarries(o);
      SplitAroundBlock(front, OrientationBlock(o), back);
    }
  }

  lemma StripSegmentsTwice(gs: seq<Segment>)
    ensures StripSegments(StripSegments(gs)) == StripSegments(gs)
  {
    StripKeepsTheImage(gs);
  }

  /** The output parses to the stripped segments: what is written is what was meant. */
  lemma StripReparses(input: bytes)
    requires StripSpec(input).Ok?
    ensures Parse(StripSpec(input).value[2..]) == Ok(StripSegments(Parse(input[2..]).value))
    ensures StripSpec(input).value[..2] == input[..2]
  {
    var gs := Parse(input[2..]).value;
    ParsedSegmentsOk(input[2..]);
    StrippedOk(gs);
    PrintParse(StripSegments(gs));
    assert StripSpec(input).value[2..] == PrintAll(StripSegments(gs));
  }

  /** A file is refused exactly when it is not a start-of-image marker followed by a well-formed segment list. */
  lemma StripAcceptsGrammar(input: bytes)
    ensures StripSpec(input).Ok? <==> |input| >= 2 && input[0] == FILL && input[1] == 0xD8 && exists gs :: Spells(input[2..], gs)
  {
    if |input| >= 2 {
      assert input[..2] == [input[0], input[1]];
      forall gs ensures Parse(input[2..]) == Ok(gs) <==> Spells(input[2..], gs) {
        ParseIsGrammar(input[2..], gs);
      }
      if Parse(input[2..]).Ok? && input[0] == FILL && input[1] == 0xD8 {
        StripSpecOf(input, Parse(input[2..]).value);
        assert Spells(input[2..], Parse(input[2..]).value);
        assert StripSpec(input).Ok?;
        assert exists gs :: Spells(input[2..], gs);
      }
    }
  }

  /** Stripping twice equals stripping once. */
  lemma StripJpegTwice(input: bytes)
    requires StripSpec(input).Ok?
    ensures StripSpec(StripSpec(input).value) == StripSpec(input)
  {
    StripReparses(input);
    StripSegmentsTwice(Parse(input[2..]).value);
  }
}
