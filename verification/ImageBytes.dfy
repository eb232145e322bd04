/** Bytes, and the fixed-width integers that image containers store in them. */
module ImageBytes {

  type byte = x: int | 0 <= x < 256

  type bytes = seq<byte>

  function U16BE(s: bytes, i: nat): (v: nat)
    requires i + 2 <= |s|
    ensures v < 0x1_0000
  {
    s[i] as int * 0x100 + s[i + 1]
  }

  function U16LE(s: bytes, i: nat): (v: nat)
    requires i + 2 <= |s|
    ensures v < 0x1_0000
  {
    s[i + 1] as int * 0x100 + s[i]
  }

  function U32BE(s: bytes, i: nat): (v: nat)
    requires i + 4 <= |s|
    ensures v < 0x1_0000_0000
  {
    U16BE(s, i) * 0x1_0000 + U16BE(s, i + 2)
  }

  function U32LE(s: bytes, i: nat): (v: nat)
    requires i + 4 <= |s|
    ensures v < 0x1_0000_0000
  {
    U16LE(s, i + 2) * 0x1_0000 + U16LE(s, i)
  }

  function PutU16BE(v: nat): (s: bytes)
    requires v < 0x1_0000
    ensures |s| == 2 && U16BE(s, 0) == v
  {
    [v / 0x100, v % 0x100]
  }

  function PutU32BE(v: nat): (s: bytes)
    requires v < 0x1_0000_0000
    ensures |s| == 4 && U32BE(s, 0) == v
  {
    PutU16BE(v / 0x1_0000) + PutU16BE(v % 0x1_0000)
  }

  function PutU32LE(v: nat): (s: bytes)
    requires v < 0x1_0000_0000
    ensures |s| == 4 && U32LE(s, 0) == v
  {
    var lo, hi := v % 0x1_0000, v / 0x1_0000;
    [lo % 0x100, lo / 0x100, hi % 0x100, hi / 0x100]
  }

  /** Decoding a buffer as `ascii` drops the top bit of every byte. */
  function Ascii(s: bytes): (t: bytes)
    ensures |t| == |s| && forall i | 0 <= i < |s| :: t[i] == s[i] % 0x80
  {
    seq(|s|, i requires 0 <= i < |s| => s[i] % 0x80)
  }

  /** The bytes spell the name, in whatever way their top bits are set. */
  ghost predicate Spelled(s: bytes, name: string) {
    |s| == |name| && forall i | 0 <= i < |s| :: s[i] % 0x80 == name[i] as int
  }

  /** Big-endian numbers have the most significant byte first, little-endian ones last. */
  lemma Numbers(s: bytes, i: nat)
    requires i + 4 <= |s|
    ensures U16BE(s, i) == s[i] as int * 256 + s[i + 1]
    ensures U16LE(s, i) == s[i + 1] as int * 256 + s[i]
    ensures U32BE(s, i) == s[i] as int * 16_777_216 + s[i + 1] as int * 65_536 + s[i + 2] as int * 256 + s[i + 3]
    ensures U32LE(s, i) == s[i + 3] as int * 16_777_216 + s[i + 2] as int * 65_536 + s[i + 1] as int * 256 + s[i]
  {
  }

  lemma SpelledExactly(s: bytes, code: bytes, name: string)
    requires |s| == |code| == |name| && forall i | 0 <= i < |s| :: code[i] == name[i] as int
    ensures Ascii(s) == code <==> Spelled(s, name)
  {
    if Spelled(s, name) {
      assert forall i | 0 <= i < |s| :: Ascii(s)[i] == code[i];
    }
  }

  function Flatten(parts: seq<bytes>): bytes {
    if parts == [] then [] else parts[0] + Flatten(parts[1..])
  }

  lemma {:induction false} FlattenConcat(p: seq<bytes>, q: seq<bytes>)
    ensures Flatten(p + q) == Flatten(p) + Flatten(q)
  {
    if p == [] {
      assert p + q == q;
    } else {
      assert (p + q)[1..] == p[1..] + q;
      FlattenConcat(p[1..], q);
    }
  }

  lemma FlattenAppend(parts: seq<bytes>, part: bytes)
    ensures Flatten(parts + [part]) == Flatten(parts) + part
  {
    FlattenConcat(parts, [part]);
    assert Flatten([part]) == part + [];
  }

  lemma PutGet32BE(s: bytes)
    requires |s| == 4
    ensures PutU32BE(U32BE(s, 0)) == s
  {
    assert PutU16BE(U16BE(s, 0)) == s[..2];
    assert PutU16BE(U16BE(s, 2)) == s[2..];
    assert U32BE(s, 0) / 0x1_0000 == U16BE(s, 0) && U32BE(s, 0) % 0x1_0000 == U16BE(s, 2);
  }

  lemma PutGet32LE(s: bytes)
    requires |s| == 4
    ensures PutU32LE(U32LE(s, 0)) == s
  {
    assert U32LE(s, 0) / 0x1_0000 == U16LE(s, 2) && U32LE(s, 0) % 0x1_0000 == U16LE(s, 0);
  }
}
