/**
  Removing metadata chunks from a WebP file: the RIFF chunk layout (sections 2.3 and 2.7 of
  RFC 9649) as a parser and a printer, and the byte loop of the stripper.
 */
module WebpStrip {
  import opened Basics
  import opened ImageBytes

  /** `pad` is the padding byte of a chunk of odd size; the last chunk of a file may lack it. */
  datatype Chunk = Chunk(fourcc: bytes, data: bytes, pad: bytes)

  const HEADER_LENGTH: nat := 12
  const RIFF: bytes := [0x52, 0x49, 0x46, 0x46]
  const WEBP: bytes := [0x57, 0x45, 0x42, 0x50]
  const EXIF: bytes := [0x45, 0x58, 0x49, 0x46]
  const XMP: bytes := [0x58, 0x4D, 0x50, 0x20]
  const VP8X: bytes := [0x56, 0x50, 0x38, 0x58]

  predicate ChunkOk(c: Chunk) {
    |c.fourcc| == 4 && |c.data| < 0x1_0000_0000 && |c.pad| <= |c.data| % 2
  }

  predicate Padded(c: Chunk) {
    |c.pad| == |c.data| % 2
  }

  ghost predicate ChunksOk(cs: seq<Chunk>) {
    && (forall c | c in cs :: ChunkOk(c))
    && (forall i | 0 <= i < |cs| - 1 :: Padded(cs[i]))
  }

  function Print(c: Chunk): (s: bytes)
    ensures ChunkOk(c) ==> |s| == 8 + |c.data| + |c.pad|
  {
    if ChunkOk(c) then c.fourcc + PutU32LE(|c.data|) + c.data + c.pad else []
  }

  function PrintAll(cs: seq<Chunk>): bytes {
    if cs == [] then [] else Print(cs[0]) + PrintAll(cs[1..])
  }

  lemma {:induction false} PrintAllConcat(cs: seq<Chunk>, ds: seq<Chunk>)
    ensures PrintAll(cs + ds) == PrintAll(cs) + PrintAll(ds)
  {
    if cs == [] {
      assert cs + ds == ds;
    } else {
      assert (cs + ds)[1..] == cs[1..] + ds;
      PrintAllConcat(cs[1..], ds);
    }
  }

  predicate HasChunk(s: bytes) {
    |s| >= 8 && 8 + U32LE(s, 4) <= |s|
  }

  /** The padding byte is taken when it is there. */
  function ChunkLength(s: bytes): (n: nat)
    requires HasChunk(s)
    ensures 8 <= n <= |s|
  {
    var end := 8 + U32LE(s, 4) + U32LE(s, 4) % 2;
    if end <= |s| then end else |s|
  }

  function FirstChunk(s: bytes): (c: Chunk)
    requires HasChunk(s)
    ensures ChunkOk(c)
  {
    var n := U32LE(s, 4);
    Chunk(s[..4], s[8..8 + n], s[8 + n..ChunkLength(s)])
  }

  function Prepend(c: Chunk, r: Result<seq<Chunk>>): Result<seq<Chunk>> {
    match r
    case Ok(cs) => Ok([c] + cs)
    case Corrupt => Corrupt
  }

  function Parse(s: bytes): Result<seq<Chunk>>
    decreases |s|
  {
    if s == [] then Ok([])
    else if !HasChunk(s) then Corrupt
    else Prepend(FirstChunk(s), Parse(s[ChunkLength(s)..]))
  }

  lemma JoinParts(s: bytes, a: nat, b: nat, c: nat, d: nat)
    requires a <= b <= c <= d <= |s|
    ensures s[..a] + s[a..b] + s[b..c] + s[c..d] == s[..d]
  {
  }

  lemma ReadChunk(s: bytes)
    requires HasChunk(s)
    ensures Print(FirstChunk(s)) == s[..ChunkLength(s)]
    ensures Padded(FirstChunk(s)) || ChunkLength(s) == |s|
  {
    var n := U32LE(s, 4);
    assert U32LE(s[4..8], 0) == n;
    PutGet32LE(s[4..8]);
    assert PutU32LE(n) == s[4..8];
    JoinParts(s, 4, 8, 8 + n, ChunkLength(s));
  }

  /** A chunk can be read back from the front of the bytes, unless its padding is missing and more bytes follow. */
  lemma PrefixChunk(s: bytes, c: Chunk)
    requires ChunkOk(c) && Print(c) <= s && (Padded(c) || Print(c) == s)
    ensures HasChunk(s) && FirstChunk(s) == c && |Print(c)| == ChunkLength(s)
  {
    var p, n := Print(c), |c.data|;
    assert p[4..8] == PutU32LE(n) && s[4..8] == p[4..8];
    assert U32LE(s, 4) == U32LE(s[4..8], 0);
    assert s[..4] == p[..4] == c.fourcc;
    assert s[8..8 + n] == p[8..8 + n] == c.data;
    assert s[8 + n..|p|] == p[8 + n..] == c.pad;
  }

  /** The bytes are the chunks `cs`, one after the other. */
  ghost predicate Layout(s: bytes, cs: seq<Chunk>) {
    ChunksOk(cs) && PrintAll(cs) == s
  }

  lemma LayoutStep(s: bytes, cs: seq<Chunk>)
    requires cs != [] && ChunkOk(cs[0]) && Print(cs[0]) <= s
    ensures Layout(s, cs) <==> Layout(s[|Print(cs[0])|..], cs[1..]) && (Padded(cs[0]) || |cs| == 1)
  {
    var p, n := Print(cs[0]), |Print(cs[0])|;
    assert s == p + s[n..];
    assert forall i | 0 <= i < |cs| - 1 :: cs[1..][i] == cs[i + 1];
    assert forall c :: c in cs <==> c == cs[0] || c in cs[1..];
    if PrintAll(cs) == s {
      assert s[n..] == PrintAll(cs[1..]);
    }
  }

  lemma LayoutFirst(s: bytes, cs: seq<Chunk>)
    requires Layout(s, cs) && cs != []
    ensures ChunkOk(cs[0]) && Print(cs[0]) <= s && (Padded(cs[0]) || Print(cs[0]) == s)
  {
    assert cs[0] in cs && Print(cs[0]) <= PrintAll(cs);
    if !Padded(cs[0]) {
      assert cs == [cs[0]];
      assert Print(cs[0]) + [] == Print(cs[0]);
    }
  }

  lemma ParseStep(s: bytes, cs: seq<Chunk>)
    requires cs != [] && ChunkOk(cs[0]) && Print(cs[0]) <= s && (Padded(cs[0]) || Print(cs[0]) == s)
    ensures Parse(s) == Ok(cs) <==> Parse(s[|Print(cs[0])|..]) == Ok(cs[1..])
  {
    PrefixChunk(s, cs[0]);
    assert cs == [cs[0]] + cs[1..];
  }

  lemma ParseFirst(s: bytes, cs: seq<Chunk>)
    requires Parse(s) == Ok(cs) && cs != []
    ensures ChunkOk(cs[0]) && Print(cs[0]) <= s && (Padded(cs[0]) || Print(cs[0]) == s)
  {
    assert cs[0] == FirstChunk(s);
    ReadChunk(s);
    assert s[..|s|] == s;
  }

  /** The parser reads the chunks `cs` exactly when the bytes are laid out as those chunks. */
  lemma {:induction false} ParseIsLayout(s: bytes, cs: seq<Chunk>)
    ensures Parse(s) == Ok(cs) <==> Layout(s, cs)
    decreases |cs|
  {
    if cs != [] {
      if Layout(s, cs) {
        LayoutFirst(s, cs);
      }
      if Parse(s) == Ok(cs) {
        ParseFirst(s, cs);
      }
      if ChunkOk(cs[0]) && Print(cs[0]) <= s && (Padded(cs[0]) || Print(cs[0]) == s) {
        ParseStep(s, cs);
        LayoutStep(s, cs);
        ParseIsLayout(s[|Print(cs[0])|..], cs[1..]);
        if !Padded(cs[0]) && Layout(s[|Print(cs[0])|..], cs[1..]) {
          NothingLeft(cs[1..]);
        }
      }
    }
  }

  lemma NothingLeft(cs: seq<Chunk>)
    requires Layout([], cs)
    ensures cs == []
  {
    if cs != [] {
      LayoutFirst([], cs);
    }
  }

  // ----- Stripping -------------------------------------------------------------------------

  predicate IsMetadata(c: Chunk) {
    Ascii(c.fourcc) == EXIF || Ascii(c.fourcc) == XMP
  }

  /** The flags byte with the EXIF and XMP bits (0x08 and 0x04) off and every other bit as it was. */
  function Cleared(flags: byte): (r: byte)
    ensures r % 4 == flags % 4 && r / 16 == flags / 16 && r / 4 % 4 == 0
  {
    flags / 16 * 16 + flags % 4
  }

  /** The feature chunk stops announcing the metadata that is taken out. */
  function ClearFlags(c: Chunk): (r: Chunk)
    ensures ChunkOk(r) == ChunkOk(c) && Padded(r) == Padded(c) && r.fourcc == c.fourcc
    ensures |Print(r)| == |Print(c)|
  {
    if Ascii(c.fourcc) == VP8X && |c.data| >= 1 then c.(data := c.data[0 := Cleared(c.data[0])]) else c
  }

  function StripChunks(cs: seq<Chunk>): (r: seq<Chunk>)
    ensures |r| <= |cs|
  {
    if cs == [] then []
    else if IsMetadata(cs[0]) then StripChunks(cs[1..])
    else [ClearFlags(cs[0])] + StripChunks(cs[1..])
  }

  /** A body that a 32-bit size field cannot hold is refused, as the buffer write is. */
  function WithHeader(body: bytes): Result<bytes> {
    if |body| + 4 < 0x1_0000_0000 then Ok(RIFF + PutU32LE(|body| + 4) + WEBP + body) else Corrupt
  }

  function StripSpec(input: bytes): Result<bytes> {
    if |input| < HEADER_LENGTH then WithHeader([])
    else
      match Parse(input[HEADER_LENGTH..])
      case Ok(cs) => WithHeader(PrintAll(StripChunks(cs)))
      case Corrupt => Corrupt
  }

  function Joined(done: seq<Chunk>, rest: Result<seq<Chunk>>): Result<seq<Chunk>> {
    match rest
    case Ok(cs) => Ok(done + cs)
    case Corrupt => Corrupt
  }

  ghost function Reading(input: bytes, offset: nat, done: seq<Chunk>): Result<seq<Chunk>>
    requires offset <= |input|
  {
    Joined(done, Parse(input[offset..]))
  }

  lemma {:induction false} StripConcat(cs: seq<Chunk>, ds: seq<Chunk>)
    ensures StripChunks(cs + ds) == StripChunks(cs) + StripChunks(ds)
  {
    if cs == [] {
      assert cs + ds == ds;
    } else {
      assert (cs + ds)[1..] == cs[1..] + ds;
      StripConcat(cs[1..], ds);
    }
  }

  lemma WrittenOne(done: seq<Chunk>, c: Chunk)
    ensures PrintAll(StripChunks(done + [c]))
         == PrintAll(StripChunks(done)) + if IsMetadata(c) then [] else Print(ClearFlags(c))
  {
    StripConcat(done, [c]);
    PrintAllConcat(StripChunks(done), StripChunks([c]));
    assert StripChunks([c]) == if IsMetadata(c) then [] else [ClearFlags(c)];
    assert PrintAll([ClearFlags(c)]) == Print(ClearFlags(c)) + [];
  }

  lemma SuffixSize(input: bytes, at: nat)
    requires at + 8 <= |input|
    ensures U32LE(input[at..], 4) == U32LE(input, at + 4) == U32LE(input[at + 4..at + 8], 0)
  {
  }

  /** Where the chunk's data and the chunk end, by its size field; the padding is taken when it is there. */
  method ChunkEnd(input: bytes, at: nat) returns (ends: Option<(nat, nat)>)
    requires at < |input|
    ensures ends.None? ==> Parse(input[at..]) == Corrupt
    ensures ends.Some? ==>
      && HasChunk(input[at..])
      && ends.value.0 == at + 8 + U32LE(input[at..], 4)
      && ends.value.1 == at + ChunkLength(input[at..])
  {
    if at + 8 > |input| {
      return None;
    }
    SuffixSize(input, at);
    var size := U32LE(input, at + 4);
    if at + 8 + size > |input| {
      return None;
    }
    var end := at + 8 + size + size % 2;
    return Some((at + 8 + size, if end <= |input| then end else |input|));
  }

  lemma TakeChunk(input: bytes, at: nat, end: nat, done: seq<Chunk>)
    requires at < |input| && HasChunk(input[at..]) && end == at + ChunkLength(input[at..])
    ensures Print(FirstChunk(input[at..])) == input[at..end]
    ensures Reading(input, at, done) == Reading(input, end, done + [FirstChunk(input[at..])])
  {
    var s := input[at..];
    var c := FirstChunk(s);
    assert s[..end - at] == input[at..end] && s[end - at..] == input[end..];
    ReadChunk(s);
    if Parse(input[end..]).Ok? {
      var rest := Parse(input[end..]).value;
      assert done + ([c] + rest) == done + [c] + rest;
    }
  }

  lemma PrintedHead(c: Chunk)
    requires ChunkOk(c)
    ensures var p := Print(c); p[..4] == c.fourcc && U32LE(p, 4) == |c.data| && (|c.data| >= 1 ==> p[8] == c.data[0])
  {
    var p := Print(c);
    assert p[4..8] == PutU32LE(|c.data|);
    SuffixSize(p, 0);
    assert p[0..] == p;
  }

  /** The copy of a chunk that is kept, with the two flags cleared in place in a feature chunk. */
  method KeptCopy(chunk: bytes, ghost c: Chunk) returns (copy: bytes)
    requires ChunkOk(c) && chunk == Print(c)
    ensures copy == Print(ClearFlags(c))
  {
    PrintedHead(c);
    var buffer := new byte[|chunk|](i requires 0 <= i < |chunk| => chunk[i]);
    assert buffer[..] == chunk;
    if Ascii(chunk[..4]) == VP8X && U32LE(chunk, 4) >= 1 {
      buffer[8] := Cleared(buffer[8]);
      assert buffer[..] == chunk[8 := Cleared(c.data[0])];
      assert buffer[..] == Print(ClearFlags(c));
    }
    return buffer[..];
  }

  /** The chunk loop, over the bytes after the header. */
  method KeptBody(input: bytes) returns (body: Result<bytes>)
    requires |input| >= HEADER_LENGTH
    ensures body == match Parse(input[HEADER_LENGTH..])
                    case Ok(cs) => Ok(PrintAll(StripChunks(cs)))
                    case Corrupt => Corrupt
  {
    var kept: seq<bytes> := [];
    var offset := HEADER_LENGTH;
    ghost var done: seq<Chunk> := [];
    ghost var whole := Parse(input[offset..]);
    assert whole.Ok? ==> [] + whole.value == whole.value;
    while offset < |input|
      invariant offset <= |input|
      invariant Reading(input, offset, done) == whole
      invariant Flatten(kept) == PrintAll(StripChunks(done))
    {
      var ends := ChunkEnd(input, offset);
      if ends == None {
        return Corrupt;
      }
      var end := ends.value.1;
      ghost var c := FirstChunk(input[offset..]);
      TakeChunk(input, offset, end, done);
      WrittenOne(done, c);
      PrintedHead(c);
      var chunk := input[offset..end];
      var fourcc := Ascii(chunk[..4]);
      if fourcc != EXIF && fourcc != XMP {
        var copy := KeptCopy(chunk, c);
        FlattenAppend(kept, copy);
        kept := kept + [copy];
      }
      offset, done := end, done + [c];
    }
    assert done + [] == done;
    return Ok(Flatten(kept));
  }

  lemma EmptyFile()
    ensures RIFF + PutU32LE(4) + WEBP + [] == [0x52, 0x49, 0x46, 0x46, 4, 0, 0, 0, 0x57, 0x45, 0x42, 0x50]
  {
    assert PutU32LE(4) == [4, 0, 0, 0];
  }

  method StripWebp(input: bytes) returns (r: Result<bytes>)
    ensures r == StripSpec(input)
    ensures |input| < 12 ==> r == Ok([0x52, 0x49, 0x46, 0x46, 4, 0, 0, 0, 0x57, 0x45, 0x42, 0x50])
  {
    EmptyFile();
    var body := Ok([]);
    if |input| >= HEADER_LENGTH {
      body := KeptBody(input);
    }
    if body == Corrupt || |body.value| + 4 >= 0x1_0000_0000 {
      return Corrupt;
    }
    return Ok(RIFF + PutU32LE(|body.value| + 4) + WEBP + body.value);
  }

  /** EXIF and XMP chunks are taken out; of the others only the first byte of a feature chunk is written, which loses two bits. */
  lemma Kinds(c: Chunk)
    requires |c.fourcc| == 4
    ensures IsMetadata(c) <==> Spelled(c.fourcc, "EXIF") || Spelled(c.fourcc, "XMP ")
    ensures !Spelled(c.fourcc, "VP8X") || c.data == [] ==> ClearFlags(c) == c
    ensures Spelled(c.fourcc, "VP8X") && c.data != [] ==>
              var r := ClearFlags(c);
              && r == c.(data := r.data) && |r.data| == |c.data| && r.data[1..] == c.data[1..]
              && r.data[0] % 4 == c.data[0] % 4 && r.data[0] / 16 == c.data[0] / 16 && r.data[0] / 4 % 4 == 0
  {
    SpelledExactly(c.fourcc, EXIF, "EXIF");
    SpelledExactly(c.fourcc, XMP, "XMP ");
    SpelledExactly(c.fourcc, VP8X, "VP8X");
  }

  /** A chunk is its name, its size in four bytes, its data and, unless it is missing at the end of the file, the padding. */
  lemma ChunkBytes(c: Chunk)
    requires ChunkOk(c)
    ensures var p, n := Print(c), |c.data|;
            && |p| == 8 + n + |c.pad| && |c.pad| <= n % 2
            && p[..4] == c.fourcc && p[7] as int * 16_777_216 + p[6] as int * 65_536 + p[5] as int * 256 + p[4] == n
            && p[8..8 + n] == c.data && p[8 + n..] == c.pad
  {
    var p := Print(c);
    assert p[4..8] == PutU32LE(|c.data|);
    Numbers(p[4..8], 0);
  }

  // ----- What stripping guarantees -----------------------------------------------------------

  /** Chunk by chunk: what is not EXIF or XMP stays, in order, apart from the two cleared flags. */
  lemma {:induction false} StripKeepsTheRest(cs: seq<Chunk>)
    ensures |StripChunks(cs)| == |Filter(cs, (c: Chunk) => !IsMetadata(c))|
    ensures forall i | 0 <= i < |StripChunks(cs)| ::
              StripChunks(cs)[i] == ClearFlags(Filter(cs, (c: Chunk) => !IsMetadata(c))[i])
    ensures forall c | c in StripChunks(cs) :: !IsMetadata(c)
  {
    if cs != [] {
      StripKeepsTheRest(cs[1..]);
    }
  }

  lemma {:induction false} StripOk(cs: seq<Chunk>)
    requires ChunksOk(cs)
    ensures ChunksOk(StripChunks(cs))
  {
    if cs != [] {
      assert forall i | 0 <= i < |cs| - 1 :: cs[1..][i] == cs[i + 1];
      StripOk(cs[1..]);
      if |cs| > 1 {
        assert Padded(cs[0]);
      }
    }
  }

  lemma ClearTwice(c: Chunk)
    ensures ClearFlags(ClearFlags(c)) == ClearFlags(c)
  {
    if Ascii(c.fourcc) == VP8X && |c.data| >= 1 {
      var d := ClearFlags(c).data;
      assert d[0 := Cleared(d[0])] == d;
    }
  }

  lemma {:induction false} StripChunksTwice(cs: seq<Chunk>)
    ensures StripChunks(StripChunks(cs)) == StripChunks(cs)
  {
    if cs != [] {
      ClearTwice(cs[0]);
      StripChunksTwice(cs[1..]);
    }
  }

  /** The output is a header whose size field is the body's length plus 4, and the stripped chunks. */
  lemma StripReparses(input: bytes)
    requires |input| >= HEADER_LENGTH && StripSpec(input).Ok?
    ensures var output := StripSpec(input).value;
            && |output| >= HEADER_LENGTH
            && output[..4] == [0x52, 0x49, 0x46, 0x46] && output[8..12] == [0x57, 0x45, 0x42, 0x50]
            && U32LE(output, 4) == |output| - HEADER_LENGTH + 4
            && Parse(input[HEADER_LENGTH..]).Ok?
            && Parse(output[HEADER_LENGTH..]) == Ok(StripChunks(Parse(input[HEADER_LENGTH..]).value))
  {
    var s := input[HEADER_LENGTH..];
    var cs := Parse(s).value;
    var body, output := PrintAll(StripChunks(cs)), StripSpec(input).value;
    ParseIsLayout(s, cs);
    StripOk(cs);
    ParseIsLayout(body, StripChunks(cs));
    assert output[HEADER_LENGTH..] == body;
    assert output[4..8] == PutU32LE(|body| + 4);
    SuffixSize(output, 0);
    assert output[0..] == output;
  }

  lemma StripWebpTwice(input: bytes)
    requires StripSpec(input).Ok?
    ensures StripSpec(StripSpec(input).value) == StripSpec(input)
  {
    var output := StripSpec(input).value;
    if |input| >= HEADER_LENGTH {
      StripReparses(input);
      StripChunksTwice(Parse(input[HEADER_LENGTH..]).value);
    } else {
      assert output[HEADER_LENGTH..] == [];
    }
  }
}
