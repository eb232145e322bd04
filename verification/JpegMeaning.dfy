/** What the bytes of a JPEG file mean to the stripper. */
module JpegMeaning {
  import opened Basics
  import opened ImageBytes
  import opened JpegStrip

  // ----- Markers -------------------------------------------------------------------------------

  /** A segment is taken out exactly if it is framed with one of three markers; a few markers have no frame. */
  lemma Markers(g: Segment, m: byte)
    ensures IsMetadata(g) <==> g.Framed? && (g.marker == 0xE1 || g.marker == 0xED || g.marker == 0xFE)
    ensures StandsAlone(m) <==> m == 0x01 || (0xD0 <= m && m <= 0xD7)
    ensures StartsWithJfif([g]) <==> g.Framed? && g.marker == 0xE0
  {
  }

  /** A frame is the marker, its length with the two bytes that hold it, and the payload. */
  lemma FrameBytes(g: Segment)
    requires SegmentOk(g)
    ensures g.Framed? ==>
              var p, n := Print(g), |g.payload| + 2;
              && |p| == n + 2 && p[0] == 0xFF && p[1] == g.marker && p[2] as int * 256 + p[3] == n && p[4..] == g.payload
    ensures g.Bare? ==> Print(g) == [0xFF, g.marker]
    ensures g.EndOfImage? ==> Print(g) == [0xFF, 0xD9]
    ensures g.Scan? ==> Print(g) == g.data && g.data[0] == 0xFF && g.data[1] == 0xDA
  {
    if g.Framed? {
      assert Print(g)[2..4] == PutU16BE(|g.payload| + 2);
    }
  }

  // ----- The orientation of a block ----------------------------------------------------------------

  /** The block says that its numbers have the least significant byte first. */
  predicate Intel(payload: bytes)
    requires |payload| >= 14
  {
    payload[6] % 0x80 == 0x49
  }

  /** Two and four bytes of the block as a number, in the order that the block declares. */
  function Short(payload: bytes, i: nat): nat
    requires |payload| >= 14 && i + 2 <= |payload|
  {
    if Intel(payload) then payload[i + 1] as int * 256 + payload[i] else payload[i] as int * 256 + payload[i + 1]
  }

  function Long(payload: bytes, i: nat): nat
    requires |payload| >= 14 && i + 4 <= |payload|
  {
    if Intel(payload) then Short(payload, i + 2) * 65_536 + Short(payload, i) else Short(payload, i) * 65_536 + Short(payload, i + 2)
  }

  /** The header, the byte order twice and a directory offset within the block. */
  ghost predicate HasDirectory(payload: bytes) {
    && |payload| >= 14 && payload[..6] == [0x45, 0x78, 0x69, 0x66, 0, 0]
    && payload[6] % 0x80 == payload[7] % 0x80 && (payload[6] % 0x80 == 0x49 || payload[6] % 0x80 == 0x4D)
    && Directory(payload) + 2 <= |payload|
  }

  function Directory(payload: bytes): nat
    requires |payload| >= 14
  {
    6 + Long(payload, 10)
  }

  /** The `i`-th entry of the directory, of twelve bytes each. */
  function EntryAt(payload: bytes, i: nat): nat
    requires |payload| >= 14
  {
    Directory(payload) + 2 + 12 * i
  }

  /** Entry `i` is there, as are those before it. */
  predicate HasEntry(payload: bytes, i: nat)
    requires |payload| >= 14 && Directory(payload) + 2 <= |payload|
  {
    i < Short(payload, Directory(payload)) && EntryAt(payload, i) + 12 <= |payload|
  }

  predicate IsOrientation(payload: bytes, i: nat)
    requires |payload| >= 14 && Directory(payload) + 2 <= |payload| && HasEntry(payload, i)
  {
    Short(payload, EntryAt(payload, i)) == 0x0112
  }

  /** The first orientation entry of the directory says `o`. */
  ghost predicate Carries(payload: bytes, o: nat) {
    && HasDirectory(payload) && 1 <= o <= 8
    && exists i: nat ::
         && HasEntry(payload, i) && IsOrientation(payload, i) && Short(payload, EntryAt(payload, i) + 8) == o
         && forall j: nat | j < i && HasEntry(payload, j) :: !IsOrientation(payload, j)
  }

  lemma SameNumbers(payload: bytes, i: nat)
    requires |payload| >= 14 && HasTiffOrder(payload[6..])
    ensures var tiff := payload[6..];
            var le := Ascii(tiff[..2]) == [0x49, 0x49];
            && le == Intel(payload)
            && (6 + i + 2 <= |payload| ==> U16(tiff, le, i) == Short(payload, 6 + i))
            && (6 + i + 4 <= |payload| ==> U32(tiff, le, i) == Long(payload, 6 + i))
  {
    var tiff := payload[6..];
    assert Ascii(tiff[..2])[0] == payload[6] % 0x80 && Ascii(tiff[..2])[1] == payload[7] % 0x80;
  }

  lemma OrderExactly(payload: bytes)
    requires |payload| >= 14
    ensures HasTiffOrder(payload[6..])
       <==> payload[6] % 0x80 == payload[7] % 0x80 && (payload[6] % 0x80 == 0x49 || payload[6] % 0x80 == 0x4D)
  {
    var order := Ascii(payload[6..][..2]);
    assert order == [payload[6] % 0x80, payload[7] % 0x80];
  }

  /** From entry `k` on, the search finds what the first orientation entry says. */
  lemma {:induction false} FindsFirst(payload: bytes, tiff: bytes, le: bool, k: nat, o: nat)
    requires HasDirectory(payload) && tiff == payload[6..] && HasTiffOrder(tiff) && le == (Ascii(tiff[..2]) == [0x49, 0x49])
    requires k <= Short(payload, Directory(payload))
    requires forall j: nat | j < k && HasEntry(payload, j) :: !IsOrientation(payload, j)
    ensures FindOrientation(tiff, le, Long(payload, 10), Short(payload, Directory(payload)), k) == Some(o) <==> Carries(payload, o)
    decreases Short(payload, Directory(payload)) - k
  {
    var ifd, count := Long(payload, 10), Short(payload, Directory(payload));
    var entry := ifd + 2 + k * 12;
    if k == count || entry + 12 > |tiff| {
      assert forall i: nat | HasEntry(payload, i) :: i < k;
    } else {
      assert HasEntry(payload, k) && EntryAt(payload, k) == 6 + entry;
      SameNumbers(payload, entry);
      SameNumbers(payload, entry + 8);
      if IsOrientation(payload, k) {
        assert forall i: nat | HasEntry(payload, i) && IsOrientation(payload, i) && forall j: nat | j < i && HasEntry(payload, j) :: !IsOrientation(payload, j) :: i == k;
      } else {
        FindsFirst(payload, tiff, le, k + 1, o);
      }
    }
  }

  /**
    A block has an orientation exactly when the first orientation entry of its directory says one,
    in either byte order (section 4.6 of JEITA CP-3451).
   */
  lemma OrientationExactly(payload: bytes, o: nat)
    ensures ExifOrientation(payload) == Some(o) <==> Carries(payload, o)
  {
    if |payload| >= 14 && payload[..6] == EXIF_HEADER {
      OrderExactly(payload);
      if HasTiffOrder(payload[6..]) {
        SameNumbers(payload, 4);
        if Directory(payload) + 2 <= |payload| {
          SameNumbers(payload, Long(payload, 10));
          FindsFirst(payload, payload[6..], Ascii(payload[6..][..2]) == [0x49, 0x49], 0, o);
        }
      }
    }
  }

  // ----- The orientation of a file -----------------------------------------------------------------

  /** The first block with marker APP1 that carries an orientation carries `o`. */
  ghost predicate FileCarries(gs: seq<Segment>, o: nat) {
    exists i ::
      && 0 <= i < |gs| && BlockCarries(gs[i], o)
      && forall j, other: nat | 0 <= j < i :: !BlockCarries(gs[j], other)
  }

  ghost predicate BlockCarries(g: Segment, o: nat) {
    g.Framed? && g.marker == 0xE1 && Carries(g.payload, o)
  }

  lemma {:induction false} FirstOrientationExactly(gs: seq<Segment>, o: nat)
    ensures FirstOrientation(gs) == Some(o) <==> FileCarries(gs, o)
  {
    if gs != [] {
      forall other: nat ensures BlockCarries(gs[0], other) <==> OrientationOf(gs[0]) == Some(other) {
        if gs[0].Framed? {
          OrientationExactly(gs[0].payload, other);
        }
      }
      FirstOrientationExactly(gs[1..], o);
      FileCarriesStep(gs, o);
    }
  }

  lemma FileCarriesStep(gs: seq<Segment>, o: nat)
    requires gs != [] && forall other: nat :: BlockCarries(gs[0], other) <==> OrientationOf(gs[0]) == Some(other)
    ensures FileCarries(gs, o) <==> if OrientationOf(gs[0]).Some? then BlockCarries(gs[0], o) else FileCarries(gs[1..], o)
  {
    var rest := gs[1..];
    if OrientationOf(gs[0]).Some? {
      assert BlockCarries(gs[0], OrientationOf(gs[0]).value);
    } else {
      if i :| 0 <= i < |gs| && BlockCarries(gs[i], o) && forall j, other: nat | 0 <= j < i :: !BlockCarries(gs[j], other) {
        assert rest[i - 1] == gs[i] && forall j | 0 <= j < i - 1 :: rest[j] == gs[j + 1];
      }
      if i :| 0 <= i < |rest| && BlockCarries(rest[i], o) && forall j, other: nat | 0 <= j < i :: !BlockCarries(rest[j], other) {
        assert gs[i + 1] == rest[i] && forall j | 0 < j < i + 1 :: gs[j] == rest[j - 1];
      }
    }
  }

  // ----- Where the orientation goes ------------------------------------------------------------------

  lemma FirstHalf(o: nat)
    requires 1 <= o <= 8
    ensures MinimalExif(o)[..16] == [0x45, 0x78, 0x69, 0x66, 0, 0, 0x4D, 0x4D, 0, 42, 0, 0, 0, 8, 0, 1]
  {
  }

  lemma SecondHalf(o: nat)
    requires 1 <= o <= 8
    ensures MinimalExif(o)[16..] == [0x01, 0x12, 0, 3, 0, 0, 0, 1, 0, o, 0, 0, 0, 0, 0, 0]
  {
  }

  /** The block of thirty-two bytes: big-endian, one entry, its value in the last place but six. */
  lemma BlockBytes(o: nat)
    requires 1 <= o <= 8
    ensures OrientationBlock(o)
         == Framed(0xE1, [0x45, 0x78, 0x69, 0x66, 0, 0, 0x4D, 0x4D, 0, 42, 0, 0, 0, 8, 0, 1]
                         + [0x01, 0x12, 0, 3, 0, 0, 0, 1, 0, o, 0, 0, 0, 0, 0, 0])
  {
    FirstHalf(o);
    SecondHalf(o);
    assert MinimalExif(o) == MinimalExif(o)[..16] + MinimalExif(o)[16..];
  }

  /** One block that carries the orientation is in front of the kept segments, or behind a leading JFIF segment. */
  ghost predicate BlockAdded(kept: seq<Segment>, o: nat, after: seq<Segment>) {
    var n := if kept != [] && kept[0].Framed? && kept[0].marker == 0xE0 then 1 else 0;
    exists payload :: Carries(payload, o) && after == kept[..n] + [Framed(0xE1, payload)] + kept[n..]
  }

  lemma UprightUnchanged(gs: seq<Segment>)
    requires forall o: nat | FileCarries(gs, o) :: o == 1
    ensures StripSegments(gs) == KeptSegments(gs)
  {
    if FirstOrientation(gs).Some? {
      FirstOrientationExactly(gs, FirstOrientation(gs).value);
    }
  }

  lemma RotatedGetsBlock(gs: seq<Segment>, o: nat)
    requires FileCarries(gs, o) && o != 1
    ensures BlockAdded(KeptSegments(gs), o, StripSegments(gs))
  {
    FirstOrientationExactly(gs, o);
    var front, back := StripShape(gs);
    var kept, payload := KeptSegments(gs), MinimalExif(o);
    MinimalExifCarries(o);
    OrientationExactly(payload, o);
    assert kept[..|front|] == front && kept[|front|..] == back;
  }

  /**
    A file that carries no orientation but one is left with the segments that are not metadata;
    any other has one block more, which carries the file's orientation.
   */
  lemma StrippedShape(gs: seq<Segment>)
    ensures (forall o: nat | FileCarries(gs, o) :: o == 1) ==> StripSegments(gs) == KeptSegments(gs)
    ensures forall o: nat | FileCarries(gs, o) && o != 1 :: BlockAdded(KeptSegments(gs), o, StripSegments(gs))
  {
    if forall o: nat | FileCarries(gs, o) :: o == 1 {
      UprightUnchanged(gs);
    }
    forall o: nat | FileCarries(gs, o) && o != 1 ensures BlockAdded(KeptSegments(gs), o, StripSegments(gs)) {
      RotatedGetsBlock(gs, o);
    }
  }
}
