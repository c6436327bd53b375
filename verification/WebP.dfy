/**
  The container check of chat WebP images: the RIFF header and the chunk loop (sections 2.3, 2.4 and 2.7
  of RFC 9649).  As in the code, the value of a padding byte is not looked at, though the RFC wants 0.
*/
module WebP {
  import opened Tiff
  import opened Jpeg

  const RIFF: seq<byte> := [0x52, 0x49, 0x46, 0x46]
  const WEBP: seq<byte> := [0x57, 0x45, 0x42, 0x50]
  // The kinds of chunks that matter, as the numbers their four characters make.
  const VP8X: nat := 0x56503858
  const ANIM: nat := 0x414e494d
  const ANMF: nat := 0x414e4d46
  const EXIF_CHUNK: nat := 0x45584946

  // ------------------------------------------------------------------ chunks

  datatype RawChunk = Chunk(kind: nat, payload: seq<byte>, pad: seq<byte>)

  /** A chunk, padded to an even length. */
  type Chunk = c: RawChunk | c.kind < 0x1_0000_0000 && |c.payload| < 0x1_0000_0000 && |c.pad| == |c.payload| % 2
    witness Chunk(0, [], [])

  /** No animation, and an extended header of at least ten bytes without the animation flag. */
  predicate Still(kind: nat, payload: seq<byte>) {
    && kind != ANIM && kind != ANMF
    && (kind == VP8X ==> |payload| >= 10 && payload[0] / 2 % 2 == 0)
  }

  /** The orientation after a chunk: that of an Exif chunk if it has one. */
  function After(kind: nat, payload: seq<byte>, orientation: nat): nat {
    if kind == EXIF_CHUNK then
      var value := TiffOrientation(if EXIF <= payload then payload[6..] else payload);
      if value != 0 then value else orientation
    else orientation
  }

  function Kind(data: seq<byte>, offset: nat): nat
    requires offset + 8 <= |data|
  {
    U32(Big, data[offset..offset + 4])
  }

  /** The size that the chunk header at `offset` announces. */
  function Size(data: seq<byte>, offset: nat): nat
    requires offset + 8 <= |data|
  {
    U32(Little, data[offset + 4..offset + 8])
  }

  /** A whole chunk with its padding starts at `offset`. */
  predicate Fits(data: seq<byte>, offset: nat) {
    offset + 8 <= |data| && offset + 8 + Size(data, offset) + Size(data, offset) % 2 <= |data|
  }

  function Payload(data: seq<byte>, offset: nat): seq<byte>
    requires Fits(data, offset)
  {
    data[offset + 8..offset + 8 + Size(data, offset)]
  }

  function Next(data: seq<byte>, offset: nat): (next: nat)
    requires Fits(data, offset)
    ensures offset < next <= |data|
  {
    offset + 8 + Size(data, offset) + Size(data, offset) % 2
  }

  /** What the loop makes of one chunk: the new orientation, or -1 for a rejection. */
  function Judge(kind: nat, payload: seq<byte>, orientation: nat): int {
    if Still(kind, payload) then After(kind, payload, orientation) else -1
  }

  /** The chunk loop from `offset` on: the final orientation, or -1 for a rejection. */
  function Scan(data: seq<byte>, offset: nat, orientation: nat): int
    requires offset <= |data|
    decreases |data| - offset
  {
    if offset + 8 > |data| then (if offset == |data| then orientation else -1)
    else if !Fits(data, offset) then -1
    else
      var after := Judge(Kind(data, offset), Payload(data, offset), orientation);
      if after < 0 then -1 else Scan(data, Next(data, offset), after)
  }

  predicate HeaderOk(data: seq<byte>) {
    |data| >= 12 && data[..4] == RIFF && data[8..12] == WEBP && U32(Little, data[4..8]) + 8 == |data|
  }

  predicate Accepts(data: seq<byte>) {
    HeaderOk(data) && Scan(data, 12, 1) == 1
  }

  /** The switch on the kind of a chunk. */
  method Inspect(kind: nat, payload: seq<byte>, orientation: nat) returns (after: int)
    ensures after == Judge(kind, payload, orientation)
  {
    if kind == VP8X {
      return if |payload| >= 10 && payload[0] / 2 % 2 == 0 then orientation else -1;
    }
    if kind == ANIM || kind == ANMF {
      return -1;
    }
    after := orientation;
    if kind == EXIF_CHUNK {
      var value := FindOrientation(if EXIF <= payload then payload[6..] else payload);
      if value != 0 {
        after := value;
      }
    }
  }

  /** The loop over the chunks; it ends and stays in bounds on every input. */
  method CheckContainer(data: seq<byte>) returns (accepted: bool)
    ensures accepted <==> Accepts(data)
  {
    if |data| < 12 || data[..4] != RIFF || data[8..12] != WEBP || U32(Little, data[4..8]) + 8 != |data| {
      return false;
    }
    var orientation := 1;
    var offset := 12;
    ghost var final := Scan(data, 12, 1);
    while offset + 8 <= |data|
      invariant 12 <= offset <= |data| && orientation >= 0
      invariant final == Scan(data, offset, orientation)
      decreases |data| - offset
    {
      var kind := Kind(data, offset);
      var size := Size(data, offset);
      var end := offset + 8 + size;
      if end > |data| || end + size % 2 > |data| {
        return false;
      }
      var payload := data[offset + 8..end];
      assert payload == Payload(data, offset);
      var after := Inspect(kind, payload, orientation);
      if after < 0 {
        return false;
      }
      orientation := after;
      offset := Next(data, offset);
    }
    accepted := offset == |data| && orientation == 1;
  }

  // ----------------------------------------------------------------- grammar

  function Put(c: Chunk): seq<byte> {
    Put32(Big, c.kind) + Put32(Little, |c.payload|) + c.payload + c.pad
  }

  function PutAll(chunks: seq<Chunk>): seq<byte> {
    if chunks == [] then [] else Put(chunks[0]) + PutAll(chunks[1..])
  }

  function File(chunks: seq<Chunk>): seq<byte>
    requires 4 + |PutAll(chunks)| < 0x1_0000_0000
  {
    RIFF + Put32(Little, 4 + |PutAll(chunks)|) + WEBP + PutAll(chunks)
  }

  ghost predicate AllStill(chunks: seq<Chunk>) {
    forall i | 0 <= i < |chunks| :: Still(chunks[i].kind, chunks[i].payload)
  }

  /** The last orientation of an Exif chunk, or the one before all of them. */
  function Final(chunks: seq<Chunk>, orientation: nat): nat {
    if chunks == [] then orientation else Final(chunks[1..], After(chunks[0].kind, chunks[0].payload, orientation))
  }

  /** The four characters of a chunk's kind, as it is stored. */
  function Letters(a: char, b: char, c: char, d: char): seq<byte>
    requires a < '\U{100}' && b < '\U{100}' && c < '\U{100}' && d < '\U{100}'
  {
    [a as int, b as int, c as int, d as int]
  }

  /** The names in the file, as the container format spells them. */
  lemma Names(chunks: seq<Chunk>)
    requires 4 + |PutAll(chunks)| < 0x1_0000_0000
    ensures File(chunks)[..4] == Letters('R', 'I', 'F', 'F') && File(chunks)[8..12] == Letters('W', 'E', 'B', 'P')
    ensures Put32(Big, VP8X) == Letters('V', 'P', '8', 'X') && Put32(Big, EXIF_CHUNK) == Letters('E', 'X', 'I', 'F')
    ensures Put32(Big, ANIM) == Letters('A', 'N', 'I', 'M') && Put32(Big, ANMF) == Letters('A', 'N', 'M', 'F')
  {
    var size := Put32(Little, 4 + |PutAll(chunks)|);
    assert (RIFF + size + WEBP + PutAll(chunks))[8..12] == WEBP;
  }

  /** What a chunk is by the letters of its kind: animation chunks, and an extended header that is too short or has the
      animation flag, bit 1 of its first byte, are not still; all others are. */
  lemma StillByName(c: Chunk)
    ensures var name := Put32(Big, c.kind);
      Still(c.kind, c.payload) <==>
        && name != Letters('A', 'N', 'I', 'M') && name != Letters('A', 'N', 'M', 'F')
        && (name == Letters('V', 'P', '8', 'X') ==> |c.payload| >= 10 && c.payload[0] % 4 < 2)
  {
    Put32Read(Big, c.kind);
    assert U32(Big, Letters('A', 'N', 'I', 'M')) == ANIM && U32(Big, Letters('A', 'N', 'M', 'F')) == ANMF;
    assert U32(Big, Letters('V', 'P', '8', 'X')) == VP8X;
    Put32Read(Big, ANIM);
    Put32Read(Big, ANMF);
    Put32Read(Big, VP8X);
  }

  /** The orientation that a chunk gives, 0 for none: that of the TIFF structure in an Exif chunk, with or without the
      six bytes before it. */
  function ChunkOrientation(c: Chunk): nat {
    if Put32(Big, c.kind) != Letters('E', 'X', 'I', 'F') then 0
    else if |c.payload| >= 6 && c.payload[..6] == ['E' as int, 'x' as int, 'i' as int, 'f' as int, 0, 0] then TiffOrientation(c.payload[6..])
    else TiffOrientation(c.payload)
  }

  lemma AfterByName(c: Chunk, orientation: nat)
    ensures After(c.kind, c.payload, orientation) == if ChunkOrientation(c) != 0 then ChunkOrientation(c) else orientation
  {
    Put32Read(Big, c.kind);
    assert U32(Big, Letters('E', 'X', 'I', 'F')) == EXIF_CHUNK;
    Put32Read(Big, EXIF_CHUNK);
  }

  /** The last chunk that gives an orientation decides. */
  lemma {:induction false} FinalIsLast(chunks: seq<Chunk>, orientation: nat, k: nat)
    requires k < |chunks| && ChunkOrientation(chunks[k]) != 0
    requires forall i | k < i < |chunks| :: ChunkOrientation(chunks[i]) == 0
    ensures Final(chunks, orientation) == ChunkOrientation(chunks[k])
  {
    AfterByName(chunks[0], orientation);
    var next := After(chunks[0].kind, chunks[0].payload, orientation);
    if k > 0 {
      FinalIsLast(chunks[1..], next, k - 1);
    } else {
      FinalIsFirst(chunks[1..], next);
    }
  }

  lemma {:induction false} FinalIsFirst(chunks: seq<Chunk>, orientation: nat)
    requires forall i | 0 <= i < |chunks| :: ChunkOrientation(chunks[i]) == 0
    ensures Final(chunks, orientation) == orientation
  {
    if chunks != [] {
      AfterByName(chunks[0], orientation);
      FinalIsFirst(chunks[1..], orientation);
    }
  }

  /** Where the parts of the chunk at `offset` lie. */
  lemma ChunkAt(data: seq<byte>, offset: nat, c: Chunk, rest: seq<byte>)
    requires offset <= |data| && data[offset..] == Put(c) + rest
    ensures Fits(data, offset) && Kind(data, offset) == c.kind && Payload(data, offset) == c.payload
    ensures data[Next(data, offset)..] == rest
  {
    var d, size := Put(c) + rest, |c.payload|;
    var end := offset + 8 + size;
    Put32Read(Little, size);
    Put32Read(Big, c.kind);
    assert d[..4] == Put32(Big, c.kind) && d[4..8] == Put32(Little, size) && d[8..8 + size] == c.payload && d[8 + size + size % 2..] == rest;
    assert data[offset..offset + 4] == d[..4] && data[offset + 4..offset + 8] == d[4..8];
    assert data[offset + 8..end] == d[8..8 + size] && data[end + size % 2..] == d[8 + size + size % 2..];
  }

  /** The loop on a list of chunks. */
  function Verdict(chunks: seq<Chunk>, orientation: nat): int {
    if chunks == [] then orientation
    else
      var after := Judge(chunks[0].kind, chunks[0].payload, orientation);
      if after < 0 then -1 else Verdict(chunks[1..], after)
  }

  lemma {:induction false} VerdictOfStill(chunks: seq<Chunk>, orientation: nat)
    ensures Verdict(chunks, orientation) == if AllStill(chunks) then Final(chunks, orientation) else -1
  {
    if chunks != [] {
      var rest := chunks[1..];
      VerdictOfStill(rest, After(chunks[0].kind, chunks[0].payload, orientation));
      assert forall i | 0 <= i < |rest| :: chunks[i + 1] == rest[i];
      if AllStill(rest) && Still(chunks[0].kind, chunks[0].payload) {
        forall i | 0 <= i < |chunks| ensures Still(chunks[i].kind, chunks[i].payload) {
          if i > 0 { assert chunks[i] == rest[i - 1]; }
        }
      }
    }
  }

  /** The loop reads a concatenation of chunks as those chunks. */
  lemma {:induction false} ScanReads(data: seq<byte>, offset: nat, chunks: seq<Chunk>, orientation: nat)
    requires offset <= |data| && data[offset..] == PutAll(chunks)
    ensures Scan(data, offset, orientation) == Verdict(chunks, orientation)
    decreases |chunks|
  {
    if chunks != [] {
      var c, rest := chunks[0], chunks[1..];
      ChunkAt(data, offset, c, PutAll(rest));
      var after := Judge(c.kind, c.payload, orientation);
      if after >= 0 {
        ScanReads(data, Next(data, offset), rest, after);
      }
    }
  }

  /** The chunk at `offset`. */
  function Front(data: seq<byte>, offset: nat): Chunk
    requires Fits(data, offset)
  {
    Put32Back(Big, data[offset..offset + 4]);
    Put32Back(Little, data[offset + 4..offset + 8]);
    Chunk(Kind(data, offset), Payload(data, offset), data[offset + 8 + Size(data, offset)..Next(data, offset)])
  }

  lemma ChunkSplit(data: seq<byte>, offset: nat)
    requires Fits(data, offset)
    ensures data[offset..] == Put(Front(data, offset)) + data[Next(data, offset)..]
  {
    var end := offset + 8 + Size(data, offset);
    var next := Next(data, offset);
    Put32Back(Big, data[offset..offset + 4]);
    Put32Back(Little, data[offset + 4..offset + 8]);
    assert data[offset..] == data[offset..offset + 4] + data[offset + 4..offset + 8] + data[offset + 8..end] + data[end..next] + data[next..];
  }

  /** Whatever the loop does not reject is such a concatenation. */
  lemma {:induction false} ScanParses(data: seq<byte>, offset: nat, orientation: nat) returns (chunks: seq<Chunk>)
    requires offset <= |data| && Scan(data, offset, orientation) >= 0
    ensures data[offset..] == PutAll(chunks)
    decreases |data| - offset
  {
    if offset + 8 > |data| {
      chunks := [];
    } else {
      ChunkSplit(data, offset);
      var rest := ScanParses(data, Next(data, offset), Judge(Kind(data, offset), Payload(data, offset), orientation));
      chunks := [Front(data, offset)] + rest;
      assert chunks[1..] == rest;
    }
  }

  /** A file of well-formed chunks without animation that leaves the orientation at 1. */
  ghost predicate Acceptable(data: seq<byte>, chunks: seq<Chunk>) {
    4 + |PutAll(chunks)| < 0x1_0000_0000 && data == File(chunks) && AllStill(chunks) && Final(chunks, 1) == 1
  }

  lemma HeaderOfFile(chunks: seq<Chunk>)
    requires 4 + |PutAll(chunks)| < 0x1_0000_0000
    ensures HeaderOk(File(chunks)) && File(chunks)[12..] == PutAll(chunks)
  {
    var data := File(chunks);
    Put32Read(Little, 4 + |PutAll(chunks)|);
    assert data[..4] == RIFF && data[4..8] == Put32(Little, 4 + |PutAll(chunks)|) && data[8..12] == WEBP;
  }

  lemma FileOfHeader(data: seq<byte>, chunks: seq<Chunk>)
    requires HeaderOk(data) && data[12..] == PutAll(chunks)
    ensures 4 + |PutAll(chunks)| < 0x1_0000_0000 && data == File(chunks)
  {
    Put32Back(Little, data[4..8]);
    assert U32(Little, data[4..8]) == 4 + |PutAll(chunks)|;
    assert data == data[..4] + data[4..8] + data[8..12] + data[12..];
  }

  /** The check accepts exactly the consistent RIFF files that are concatenations of well-formed padded
      chunks without animation, whose Exif chunks leave the orientation at 1. */
  lemma AcceptsExactly(data: seq<byte>)
    ensures Accepts(data) <==> exists chunks :: Acceptable(data, chunks)
  {
    if Accepts(data) {
      var chunks := ScanParses(data, 12, 1);
      FileOfHeader(data, chunks);
      ScanReads(data, 12, chunks, 1);
      VerdictOfStill(chunks, 1);
      assert Acceptable(data, chunks);
    }
    forall chunks | Acceptable(data, chunks) ensures Accepts(data) {
      HeaderOfFile(chunks);
      ScanReads(data, 12, chunks, 1);
      VerdictOfStill(chunks, 1);
    }
  }
}
