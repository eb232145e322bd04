/**
  Removing metadata chunks from a PNG file: the chunk layout (section 3.2 of RFC 2083) as a
  parser and a printer, and the byte loop of the stripper.
 */
module PngStrip {
  import opened Basics
  import opened ImageBytes

  datatype Chunk = Chunk(kind: bytes, data: bytes, crc: bytes)

  const SIGNATURE_LENGTH: nat := 8

  const IEND: bytes := [0x49, 0x45, 0x4E, 0x44]
  const EXIF: bytes := [0x65, 0x58, 0x49, 0x66]
  const TEXT: bytes := [0x74, 0x45, 0x58, 0x74]
  const ZTXT: bytes := [0x7A, 0x54, 0x58, 0x74]
  const ITXT: bytes := [0x69, 0x54, 0x58, 0x74]
  const TIME: bytes := [0x74, 0x49, 0x4D, 0x45]

  predicate ChunkOk(c: Chunk) {
    |c.kind| == 4 && |c.crc| == 4 && |c.data| < 0x1_0000_0000
  }

  predicate IsEnd(c: Chunk) {
    Ascii(c.kind) == IEND
  }

  predicate IsMetadata(c: Chunk) {
    Ascii(c.kind) in {EXIF, TEXT, ZTXT, ITXT, TIME}
  }

  /** Well-formed chunks, the end chunk only in last place. */
  ghost predicate ChunksOk(cs: seq<Chunk>) {
    && (forall c | c in cs :: ChunkOk(c))
    && (forall i | 0 <= i < |cs| - 1 :: !IsEnd(cs[i]))
  }

  function Print(c: Chunk): (s: bytes)
    ensures ChunkOk(c) ==> |s| == 12 + |c.data|
  {
    if ChunkOk(c) then PutU32BE(|c.data|) + c.kind + c.data + c.crc else []
  }

  function PrintAll(cs: seq<Chunk>): bytes {
    if cs == [] then [] else Print(cs[0]) + PrintAll(cs[1..])
  }

  lemma {:induction false} PrintAllConcat(cs: seq<Chunk>, ds: seq<Chunk>)
    ensures PrintAll(cs + ds) == PrintAll(cs) + PrintAll(ds)
  {
    if cs == [] {
      assert cs + ds == ds;
    } else {
      assert (cs + ds)[1..] == cs[1..] + ds;
      PrintAllConcat(cs[1..], ds);
    }
  }

  function Prepend(c: Chunk, r: Result<seq<Chunk>>): Result<seq<Chunk>> {
    match r
    case Ok(cs) => Ok([c] + cs)
    case Corrupt => Corrupt
  }

  predicate HasChunk(s: bytes) {
    |s| >= 12 && 12 + U32BE(s, 0) <= |s|
  }

  function FirstChunk(s: bytes): (c: Chunk)
    requires HasChunk(s)
    ensures ChunkOk(c)
  {
    var n := U32BE(s, 0);
    Chunk(s[4..8], s[8..8 + n], s[8 + n..12 + n])
  }

  lemma ReadChunk(s: bytes)
    requires HasChunk(s)
    ensures Print(FirstChunk(s)) == s[..12 + U32BE(s, 0)]
  {
    PutGet32BE(s[..4]);
    assert U32BE(s[..4], 0) == U32BE(s, 0);
  }

  /** The chunks after the signature, up to the end chunk. */
  function Parse(s: bytes): Result<seq<Chunk>>
    decreases |s|
  {
    if s == [] then Ok([])
    else if !HasChunk(s) then Corrupt
    else if IsEnd(FirstChunk(s)) then Ok([FirstChunk(s)])
    else Prepend(FirstChunk(s), Parse(s[12 + U32BE(s, 0)..]))
  }

  lemma PrefixChunk(s: bytes, c: Chunk)
    requires ChunkOk(c) && Print(c) <= s
    ensures HasChunk(s) && FirstChunk(s) == c && |Print(c)| == 12 + U32BE(s, 0)
  {
    var p := Print(c);
    assert p[..4] == PutU32BE(|c.data|) && s[..4] == p[..4];
    assert U32BE(s, 0) == U32BE(s[..4], 0);
    var n := |c.data|;
    assert s[4..8] == p[4..8] == c.kind;
    assert s[8..8 + n] == p[8..8 + n] == c.data;
    assert s[8 + n..12 + n] == p[8 + n..12 + n] == c.crc;
  }

  /** The bytes are the chunks `cs` one after the other, and then nothing unless the last is the end chunk. */
  ghost predicate Layout(s: bytes, cs: seq<Chunk>) {
    ChunksOk(cs) && PrintAll(cs) <= s && (PrintAll(cs) == s || (cs != [] && IsEnd(cs[|cs| - 1])))
  }

  lemma LayoutPrefix(s: bytes, cs: seq<Chunk>)
    requires cs != [] && ChunkOk(cs[0]) && Print(cs[0]) <= s
    ensures var n := |Print(cs[0])|;
            && (PrintAll(cs) <= s <==> PrintAll(cs[1..]) <= s[n..])
            && (PrintAll(cs) == s <==> PrintAll(cs[1..]) == s[n..])
  {
    var p, n, rest := Print(cs[0]), |Print(cs[0])|, PrintAll(cs[1..]);
    assert s == p + s[n..];
    if p + rest <= s {
      assert rest == s[..n + |rest|][n..];
    }
    if rest <= s[n..] {
      assert p + rest == s[..n + |rest|];
    }
  }

  lemma ChunksOkStep(cs: seq<Chunk>)
    requires cs != [] && ChunkOk(cs[0])
    ensures ChunksOk(cs) <==> ChunksOk(cs[1..]) && (IsEnd(cs[0]) ==> |cs| == 1)
  {
    assert forall i | 0 <= i < |cs| - 1 :: cs[1..][i] == cs[i + 1];
    assert forall c :: c in cs <==> c == cs[0] || c in cs[1..];
  }

  lemma LayoutStep(s: bytes, cs: seq<Chunk>)
    requires cs != [] && ChunkOk(cs[0]) && Print(cs[0]) <= s
    ensures Layout(s, cs) <==> if IsEnd(cs[0]) then |cs| == 1 else Layout(s[|Print(cs[0])|..], cs[1..])
  {
    LayoutPrefix(s, cs);
    ChunksOkStep(cs);
  }

  lemma LayoutFirst(s: bytes, cs: seq<Chunk>)
    requires Layout(s, cs) && cs != []
    ensures ChunkOk(cs[0]) && Print(cs[0]) <= s
  {
    assert cs[0] in cs && Print(cs[0]) <= PrintAll(cs);
  }

  lemma ParseFirst(s: bytes, cs: seq<Chunk>)
    requires Parse(s) == Ok(cs) && cs != []
    ensures ChunkOk(cs[0]) && Print(cs[0]) <= s
  {
    assert cs[0] == FirstChunk(s);
    ReadChunk(s);
  }

  lemma ParseStep(s: bytes, cs: seq<Chunk>)
    requires cs != [] && ChunkOk(cs[0]) && Print(cs[0]) <= s
    ensures Parse(s) == Ok(cs) <==> if IsEnd(cs[0]) then |cs| == 1 else Parse(s[|Print(cs[0])|..]) == Ok(cs[1..])
  {
    PrefixChunk(s, cs[0]);
    assert cs == [cs[0]] + cs[1..];
    assert |cs| == 1 <==> cs == [cs[0]];
  }

  /** The parser reads the chunks `cs` exactly when the bytes are laid out as those chunks. */
  lemma {:induction false} ParseIsLayout(s: bytes, cs: seq<Chunk>)
    ensures Parse(s) == Ok(cs) <==> Layout(s, cs)
    decreases |cs|
  {
    if cs != [] {
      if Layout(s, cs) {
        LayoutFirst(s, cs);
      }
      if Parse(s) == Ok(cs) {
        ParseFirst(s, cs);
      }
      if ChunkOk(cs[0]) && Print(cs[0]) <= s {
        ParseStep(s, cs);
        LayoutStep(s, cs);
        ParseIsLayout(s[|Print(cs[0])|..], cs[1..]);
      }
    }
  }

  // ----- Stripping -------------------------------------------------------------------------

  function KeptChunks(cs: seq<Chunk>): (r: seq<Chunk>)
    ensures forall c :: c in r <==> c in cs && !IsMetadata(c)
  {
    Filter(cs, (c: Chunk) => !IsMetadata(c))
  }

  function StripSpec(input: bytes): Result<bytes> {
    if |input| <= SIGNATURE_LENGTH then Ok(input)
    else
      match Parse(input[SIGNATURE_LENGTH..])
      case Ok(cs) => Ok(input[..SIGNATURE_LENGTH] + PrintAll(KeptChunks(cs)))
      case Corrupt => Corrupt
  }

  function Joined(done: seq<Chunk>, rest: Result<seq<Chunk>>): Result<seq<Chunk>> {
    match rest
    case Ok(cs) => Ok(done + cs)
    case Corrupt => Corrupt
  }

  ghost function Reading(input: bytes, offset: nat, done: seq<Chunk>): Result<seq<Chunk>>
    requires offset <= |input|
  {
    Joined(done, Parse(input[offset..]))
  }

  /** What the loop has written when it has read the chunks `done`. */
  ghost function Written(start: bytes, done: seq<Chunk>): bytes {
    start + PrintAll(KeptChunks(done))
  }

  lemma WrittenNothing(start: bytes)
    ensures Flatten([start]) == Written(start, [])
  {
    assert [start][1..] == [] && Flatten([]) == [];
    assert Flatten([start]) == start + Flatten([start][1..]);
    assert KeptChunks([]) == [] && PrintAll([]) == [];
  }

  lemma WrittenOne(start: bytes, done: seq<Chunk>, c: Chunk)
    ensures Written(start, done + [c]) == if IsMetadata(c) then Written(start, done) else Written(start, done) + Print(c)
  {
    FilterConcat(done, [c], (c: Chunk) => !IsMetadata(c));
    assert Filter([c], (c: Chunk) => !IsMetadata(c)) == if IsMetadata(c) then [] else [c];
    PrintAllConcat(KeptChunks(done), [c]);
    assert PrintAll([c]) == Print(c) + [];
    var before := PrintAll(KeptChunks(done));
    assert start + (before + Print(c)) == start + before + Print(c);
    assert KeptChunks(done) + [] == KeptChunks(done);
  }

  lemma TakeChunk(input: bytes, at: nat, end: nat, done: seq<Chunk>, c: Chunk)
    requires at + 12 <= |input| && end == at + 12 + U32BE(input, at) <= |input|
    requires c == Chunk(input[at + 4..at + 8], input[at + 8..end - 4], input[end - 4..end])
    ensures Print(c) == input[at..end]
    ensures Reading(input, at, done) == if IsEnd(c) then Ok(done + [c]) else Reading(input, end, done + [c])
  {
    var s, n := input[at..], end - at;
    assert U32BE(s, 0) == U32BE(input, at);
    assert s[4..8] == input[at + 4..at + 8] && s[8..n - 4] == input[at + 8..end - 4] && s[n - 4..n] == input[end - 4..end];
    assert s[..n] == input[at..end] && s[n..] == input[end..];
    assert FirstChunk(s) == c;
    ReadChunk(s);
    if Parse(input[end..]).Ok? {
      var rest := Parse(input[end..]).value;
      assert done + ([c] + rest) == done + [c] + rest;
    }
  }

  /** Where the chunk at `at` ends, by its length field. */
  method ChunkEnd(input: bytes, at: nat) returns (end: Option<nat>)
    requires at < |input|
    ensures end.None? ==> Parse(input[at..]) == Corrupt
    ensures end.Some? ==> at + 12 <= end.value <= |input| && end.value == at + 12 + U32BE(input, at)
  {
    if at + 12 > |input| {
      return None;
    }
    var length := U32BE(input, at);
    assert length == U32BE(input[at..], 0);
    if at + 12 + length > |input| {
      return None;
    }
    return Some(at + 12 + length);
  }

  method StripPng(input: bytes) returns (r: Result<bytes>)
    ensures r == StripSpec(input)
    ensures |input| <= 8 ==> r == Ok(input)
  {
    if |input| <= SIGNATURE_LENGTH {
      return Ok(input);
    }
    var start := input[..SIGNATURE_LENGTH];
    var kept := [start];
    var offset := SIGNATURE_LENGTH;
    ghost var done: seq<Chunk> := [];
    ghost var whole := Parse(input[offset..]);
    assert whole.Ok? ==> [] + whole.value == whole.value;
    WrittenNothing(start);
    while offset < |input|
      invariant offset <= |input|
      invariant Reading(input, offset, done) == whole
      invariant Flatten(kept) == Written(start, done)
    {
      var end := ChunkEnd(input, offset);
      if end == None {
        return Corrupt;
      }
      var kind := Ascii(input[offset + 4..offset + 8]);
      ghost var c := Chunk(input[offset + 4..offset + 8], input[offset + 8..end.value - 4], input[end.value - 4..end.value]);
      TakeChunk(input, offset, end.value, done, c);
      WrittenOne(start, done, c);
      if kind !in {EXIF, TEXT, ZTXT, ITXT, TIME} {
        FlattenAppend(kept, input[offset..end.value]);
        kept := kept + [input[offset..end.value]];
      }
      offset, done := end.value, done + [c];
      if kind == IEND {
        return Ok(Flatten(kept));
      }
    }
    assert done + [] == done;
    return Ok(Flatten(kept));
  }

  /** The chunks of the five metadata kinds are taken out, and the end chunk ends the file. */
  lemma Kinds(c: Chunk)
    requires |c.kind| == 4
    ensures IsMetadata(c) <==> Spelled(c.kind, "eXIf") || Spelled(c.kind, "tEXt") || Spelled(c.kind, "zTXt")
                               || Spelled(c.kind, "iTXt") || Spelled(c.kind, "tIME")
    ensures IsEnd(c) <==> Spelled(c.kind, "IEND")
  {
    SpelledExactly(c.kind, EXIF, "eXIf");
    SpelledExactly(c.kind, TEXT, "tEXt");
    SpelledExactly(c.kind, ZTXT, "zTXt");
    SpelledExactly(c.kind, ITXT, "iTXt");
    SpelledExactly(c.kind, TIME, "tIME");
    SpelledExactly(c.kind, IEND, "IEND");
  }

  /** A chunk is its length in four bytes, its kind, its data and its checksum. */
  lemma ChunkBytes(c: Chunk)
    requires ChunkOk(c)
    ensures var p, n := Print(c), |c.data|;
            && |p| == 12 + n && p[0] as int * 16_777_216 + p[1] as int * 65_536 + p[2] as int * 256 + p[3] == n
            && p[4..8] == c.kind && p[8..8 + n] == c.data && p[8 + n..] == c.crc
  {
    var p := Print(c);
    assert p[..4] == PutU32BE(|c.data|);
    Numbers(p[..4], 0);
  }

  // ----- What stripping guarantees -----------------------------------------------------------

  lemma {:induction false} KeptOk(cs: seq<Chunk>)
    requires ChunksOk(cs)
    ensures ChunksOk(KeptChunks(cs))
  {
    if cs != [] {
      assert forall i | 0 <= i < |cs| - 1 :: cs[1..][i] == cs[i + 1];
      KeptOk(cs[1..]);
      if |cs| > 1 {
        assert !IsEnd(cs[0]);
      }
    }
  }

  /** The output's chunks are the input's chunks with exactly the metadata chunks taken out. */
  lemma StripReparses(input: bytes)
    requires |input| >= SIGNATURE_LENGTH && StripSpec(input).Ok?
    ensures Parse(input[SIGNATURE_LENGTH..]).Ok?
    ensures Parse(StripSpec(input).value[SIGNATURE_LENGTH..]) == Ok(KeptChunks(Parse(input[SIGNATURE_LENGTH..]).value))
    ensures StripSpec(input).value == input[..8] + PrintAll(KeptChunks(Parse(input[8..]).value))
    ensures StripSpec(input).value[..SIGNATURE_LENGTH] == input[..SIGNATURE_LENGTH]
  {
    var s := input[SIGNATURE_LENGTH..];
    var cs := Parse(s).value;
    ParseIsLayout(s, cs);
    KeptOk(cs);
    var body := PrintAll(KeptChunks(cs));
    ParseIsLayout(body, KeptChunks(cs));
    assert |input| > SIGNATURE_LENGTH ==> StripSpec(input).value[SIGNATURE_LENGTH..] == body;
  }

  lemma StripPngTwice(input: bytes)
    requires StripSpec(input).Ok?
    ensures StripSpec(StripSpec(input).value) == StripSpec(input)
  {
    if |input| > SIGNATURE_LENGTH {
      StripReparses(input);
      FilterTwice(Parse(input[SIGNATURE_LENGTH..]).value, (c: Chunk) => !IsMetadata(c));
      var output := StripSpec(input).value;
      if |output| <= SIGNATURE_LENGTH {
        assert output == output[..SIGNATURE_LENGTH];
      }
    }
  }
}
