/** JPEG marker segments as ITU-T T.81 defines them (section B.1.1), and where the walk departs from it. */
module JpegGrammar {
  import opened Tiff
  import opened Jpeg

  const TEM: byte := 0x01

  /** A marker with the fill bytes before it (section B.1.1.2) and the segment it starts. */
  datatype RawMarked = Marked(fill: nat, segment: RawSegment)

  /** TEM, RST0 to RST7, SOI and EOI stand alone; every other marker is followed by a length (sections B.1.1.3
      and B.1.1.4). */
  predicate WellFormed(m: RawMarked) {
    match m.segment
    case Standalone(marker) => marker == 0x01 || 0xd0 <= marker <= 0xd9
    case Sized(marker, payload) => 0xc0 <= marker <= 0xfe && !(0xd0 <= marker <= 0xd9) && |payload| <= 65533
  }

  type Marked = m: RawMarked | WellFormed(m) witness Marked(0, Standalone(0xd8))

  function Fill(n: nat): seq<byte> {
    seq(n, _ => 0xff)
  }

  function Write(m: Marked): seq<byte> {
    Fill(m.fill) + Put(m.segment)
  }

  function WriteAll(ms: seq<Marked>): seq<byte> {
    if ms == [] then [] else Write(ms[0]) + WriteAll(ms[1..])
  }

  function Segments(ms: seq<Marked>): (segments: seq<RawSegment>)
    ensures |segments| == |ms|
  {
    if ms == [] then [] else [ms[0].segment] + Segments(ms[1..])
  }

  predicate IsSos(m: Marked) {
    m.segment.Sized? && m.segment.marker == SOS
  }

  /** The segments of a file up to its first SOS. */
  ghost predicate Frame(ms: seq<Marked>) {
    ms != [] && forall i | 0 <= i < |ms| :: IsSos(ms[i]) <==> i == |ms| - 1
  }

  /** No fill byte, and not TEM. */
  predicate Plain(m: Marked) {
    m.fill == 0 && m.segment != Standalone(TEM)
  }

  /** The first segment with fill bytes or TEM that no oriented segment precedes, or the number of segments
      without one. */
  function FirstOdd(ms: seq<Marked>): (k: nat)
    ensures k <= |ms|
  {
    if ms == [] then 0
    else if !Plain(ms[0]) then 0
    else if OrientationOf(ms[0].segment) != 0 then |ms|
    else 1 + FirstOdd(ms[1..])
  }

  // --------------------------------------------------------- where they agree

  lemma WalkPlain(m: Marked, rest: seq<byte>)
    requires Plain(m)
    ensures Walk(Write(m) + rest) == if OrientationOf(m.segment) != 0 then OrientationOf(m.segment) else if IsSos(m) then 1 else Walk(rest)
  {
    assert Fill(0) + Put(m.segment) == Put(m.segment);
    match m.segment
    case Standalone(marker) =>
      assert Alone(marker) && (Write(m) + rest)[2..] == rest;
    case Sized(marker, payload) => WalkSized(marker, payload, rest);
  }

  lemma TailFrame(ms: seq<Marked>, scan: seq<byte>)
    requires Frame(ms)
    ensures WriteAll(ms) + scan == Write(ms[0]) + (WriteAll(ms[1..]) + scan)
    ensures Segments(ms)[1..] == Segments(ms[1..])
    ensures |ms| > 1 ==> Frame(ms[1..]) && !IsSos(ms[0])
  {
  }

  /** The walk gives the orientation of the file if no fill byte and no TEM come before the first oriented
      segment or with it; in a file without one, if none come at all. */
  lemma {:induction false} WalkRefinesGrammar(ms: seq<Marked>, scan: seq<byte>)
    requires Frame(ms) && FirstOdd(ms) == |ms|
    ensures Walk(WriteAll(ms) + scan) == FirstOrientation(Segments(ms))
  {
    TailFrame(ms, scan);
    WalkPlain(ms[0], WriteAll(ms[1..]) + scan);
    if |ms| > 1 && OrientationOf(ms[0].segment) == 0 {
      WalkRefinesGrammar(ms[1..], scan);
    }
  }

  // ----------------------------------------------------- where they may differ

  /** The least length that the walk reads where the segment's marker is: it takes the second of two 0xff for
      a marker, and TEM for one with a length. */
  function Misread(m: Marked): nat {
    if m.fill != 1 then 0xff00 else if m.segment.marker == TEM then 0x1ff else m.segment.marker * 256
  }

  /** What the walk does with bytes it misreads: it goes on behind the length that seems to stand there. */
  function Skip(d: seq<byte>): nat
    requires |d| >= 4
  {
    var length := U16(Big, d[2], d[3]);
    if length < 2 || 2 + length > |d| then 1 else Walk(d[2 + length..])
  }

  /** Fill bytes and TEM start such a misreading, of a length of at least `Misread`. */
  lemma OddSkips(m: Marked, rest: seq<byte>)
    requires !Plain(m) && (m.segment.Standalone? ==> |rest| > 1 && rest[0] == 0xff)
    ensures var d := Write(m) + rest;
      |d| >= 4 && U16(Big, d[2], d[3]) >= Misread(m) && Walk(d) == Skip(d)
  {
    var d := Write(m) + rest;
    assert d == Fill(m.fill) + Put(m.segment) + rest;
    assert Put(m.segment)[0] == 0xff && Put(m.segment)[1] == m.segment.marker;
    if m.fill == 0 {
      assert d[0] == 0xff && d[1] == TEM && d[2] == rest[0];
    } else if m.fill == 1 {
      assert d[0] == 0xff && d[1] == 0xff && d[2] == m.segment.marker;
      assert m.segment.Standalone? ==> d[3] == rest[0];
    } else {
      assert d[0] == 0xff && d[1] == 0xff && d[2] == 0xff;
    }
  }

  lemma StartsMarker(ms: seq<Marked>, scan: seq<byte>)
    requires ms != []
    ensures |WriteAll(ms) + scan| > 1 && (WriteAll(ms) + scan)[0] == 0xff
  {
    assert Put(ms[0].segment)[0] == 0xff;
    assert Write(ms[0])[0] == 0xff;
  }

  /** Of every file with fill bytes or TEM before its first oriented segment: the walk goes on behind the misread
      length, or gives 1 if the file ends before. */
  lemma {:induction false} OddIsSkipped(ms: seq<Marked>, scan: seq<byte>)
    requires Frame(ms) && FirstOdd(ms) < |ms|
    ensures var d := WriteAll(ms[FirstOdd(ms)..]) + scan;
      |d| >= 4 && U16(Big, d[2], d[3]) >= Misread(ms[FirstOdd(ms)]) && Walk(WriteAll(ms) + scan) == Skip(d)
  {
    TailFrame(ms, scan);
    var rest := WriteAll(ms[1..]) + scan;
    if Plain(ms[0]) {
      WalkPlain(ms[0], rest);
      if |ms| > 1 {
        assert ms[FirstOdd(ms)..] == ms[1..][FirstOdd(ms[1..])..];
        OddIsSkipped(ms[1..], scan);
      }
    } else {
      assert ms[0..] == ms;
      if ms[0].segment.Standalone? { StartsMarker(ms[1..], scan); }
      OddSkips(ms[0], rest);
    }
  }

  /** If the file ends before that length does, an orientation behind the fill bytes or TEM is not found. */
  lemma OrientationHidden(ms: seq<Marked>, scan: seq<byte>)
    requires Frame(ms) && FirstOdd(ms) < |ms|
    requires |WriteAll(ms[FirstOdd(ms)..]) + scan| < 2 + Misread(ms[FirstOdd(ms)])
    ensures Walk(WriteAll(ms) + scan) == 1
  {
    OddIsSkipped(ms, scan);
  }

  /** So in a file that ends before the misread length does, the walk gives the file's orientation if and only
      if no fill byte or TEM precedes the first oriented segment, or the orientation is 1 anyway. */
  lemma AgreesExactly(ms: seq<Marked>, scan: seq<byte>)
    requires Frame(ms)
    requires FirstOdd(ms) < |ms| ==> |WriteAll(ms[FirstOdd(ms)..]) + scan| < 2 + Misread(ms[FirstOdd(ms)])
    ensures Walk(WriteAll(ms) + scan) == FirstOrientation(Segments(ms)) <==>
      FirstOdd(ms) == |ms| || FirstOrientation(Segments(ms)) == 1
  {
    if FirstOdd(ms) == |ms| {
      WalkRefinesGrammar(ms, scan);
    } else {
      OrientationHidden(ms, scan);
    }
  }
}
