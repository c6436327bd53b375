/** The walk over JPEG marker segments that looks for the Exif orientation. */
module Jpeg {
  import opened Tiff

  const SOS: byte := 0xda
  const APP1: byte := 0xe1
  const EXIF: seq<byte> := [0x45, 0x78, 0x69, 0x66, 0, 0]

  /** The markers the walk takes to stand alone: RST0 to RST7, SOI and EOI. */
  predicate Alone(marker: byte) {
    0xd0 <= marker <= 0xd9
  }

  /** The orientation an APP1 segment of Exif data gives, 0 for none. */
  function SegmentOrientation(marker: byte, payload: seq<byte>): nat {
    if marker == APP1 && EXIF <= payload then TiffOrientation(payload[6..]) else 0
  }

  /** The walk on what is left of the file. */
  function Walk(d: seq<byte>): nat
    decreases |d|
  {
    if |d| < 4 || d[0] != 0xff then 1
    else if Alone(d[1]) then Walk(d[2..])
    else
      var length := U16(Big, d[2], d[3]);
      if length < 2 || 2 + length > |d| then 1
      else
        var orientation := SegmentOrientation(d[1], d[4..2 + length]);
        if orientation != 0 then orientation
        else if d[1] == SOS then 1
        else Walk(d[2 + length..])
  }

  /** The first two bytes are skipped unread.  The loop ends and stays in bounds on every input. */
  method JpegExifOrientation(data: seq<byte>) returns (orientation: nat)
    ensures orientation == if |data| < 2 then 1 else Walk(data[2..])
  {
    var offset := 2;
    while offset + 4 <= |data| && data[offset] == 0xff
      invariant 2 <= offset && (|data| >= 2 ==> offset <= |data| && Walk(data[2..]) == Walk(data[offset..]))
      decreases |data| - offset
    {
      ghost var d := data[offset..];
      var marker := data[offset + 1];
      offset := offset + 2;
      if marker == 0xd8 || marker == 0xd9 || (marker >= 0xd0 && marker <= 0xd7) {
        assert d[2..] == data[offset..];
        continue;
      }
      if offset + 2 > |data| {
        break;
      }
      var length := U16(Big, data[offset], data[offset + 1]);
      if length < 2 || offset + length > |data| {
        return 1;
      }
      var segment := data[offset + 2..offset + length];
      assert segment == d[4..2 + length];
      if marker == APP1 && EXIF <= segment {
        var found := FindOrientation(segment[6..]);
        if found != 0 {
          return found;
        }
      }
      if marker == SOS {
        return 1;
      }
      offset := offset + length;
      assert d[2 + length..] == data[offset..];
    }
    orientation := 1;
  }

  // ---------------------------------------------------------------- segments

  datatype RawSegment = Standalone(marker: byte) | Sized(marker: byte, payload: seq<byte>)

  predicate Valid(s: RawSegment) {
    match s
    case Standalone(marker) => Alone(marker)
    case Sized(marker, payload) => !Alone(marker) && |payload| <= 65533
  }

  type Segment = s: RawSegment | Valid(s) witness Standalone(0xd8)

  function Put(s: RawSegment): seq<byte>
    requires s.Sized? ==> |s.payload| <= 65533
  {
    match s
    case Standalone(marker) => [0xff, marker]
    case Sized(marker, payload) => [0xff, marker] + Put16(Big, |payload| + 2) + payload
  }

  function PutAll(segments: seq<Segment>): seq<byte> {
    if segments == [] then [] else Put(segments[0]) + PutAll(segments[1..])
  }

  function OrientationOf(s: RawSegment): nat {
    if s.Sized? then SegmentOrientation(s.marker, s.payload) else 0
  }

  /** The first orientation that is not 0 among the Exif APP1 segments, else 1. */
  function FirstOrientation(segments: seq<RawSegment>): nat {
    if segments == [] then 1
    else if OrientationOf(segments[0]) != 0 then OrientationOf(segments[0])
    else FirstOrientation(segments[1..])
  }

  /** Only segments of marker 0xe1 that start with "Exif" and two zero bytes carry an orientation, that of the TIFF
      structure after these six bytes. */
  lemma ExifSegments(marker: byte, payload: seq<byte>, tiff: seq<byte>)
    ensures SegmentOrientation(0xe1, ['E' as int, 'x' as int, 'i' as int, 'f' as int, 0, 0] + tiff) == TiffOrientation(tiff)
    ensures SegmentOrientation(marker, payload) != 0 ==>
      marker == 0xe1 && |payload| >= 6 && payload[..4] == ['E' as int, 'x' as int, 'i' as int, 'f' as int] && payload[4] == payload[5] == 0
  {
    var p: seq<byte> := ['E' as int, 'x' as int, 'i' as int, 'f' as int, 0, 0] + tiff;
    assert p[6..] == tiff;
  }

  lemma WalkSized(marker: byte, payload: seq<byte>, rest: seq<byte>)
    requires !(0xd0 <= marker <= 0xd9) && |payload| <= 65533
    ensures Walk(Put(Sized(marker, payload)) + rest)
         == if SegmentOrientation(marker, payload) != 0 then SegmentOrientation(marker, payload)
            else if marker == 0xda then 1 else Walk(rest)
  {
    var length := |payload| + 2;
    var d := Put(Sized(marker, payload)) + rest;
    Put16Read(Big, length);
    assert d[2..4] == Put16(Big, length);
    assert d[2] == d[2..4][0] && d[3] == d[2..4][1];
    assert d[4..2 + length] == payload && d[2 + length..] == rest;
  }

  /** On any segments as the walk takes them, followed by SOS and any entropy-coded data, it returns the first
      orientation that is not 0 among the Exif segments, else 1. */
  lemma {:induction false} WalkReadsSegments(segments: seq<Segment>, header: seq<byte>, scan: seq<byte>)
    requires forall i | 0 <= i < |segments| :: segments[i].marker != SOS
    requires |header| <= 65533
    ensures Walk(PutAll(segments) + Put(Sized(SOS, header)) + scan) == FirstOrientation(segments)
  {
    var sos := Put(Sized(SOS, header));
    if segments == [] {
      assert [] + sos + scan == sos + scan;
      WalkSized(SOS, header, scan);
    } else {
      var s := segments[0];
      var rest := PutAll(segments[1..]) + sos + scan;
      assert PutAll(segments) + sos + scan == Put(s) + rest;
      WalkReadsSegments(segments[1..], header, scan);
      match s
      case Standalone(marker) =>
        var d := Put(s) + rest;
        assert d[2..] == rest;
      case Sized(marker, payload) => WalkSized(marker, payload, rest);
    }
  }

  /** The segments the walk sees, up to SOS or to the first byte that starts none. */
  function Parse(d: seq<byte>): seq<Segment>
    decreases |d|
  {
    if |d| < 4 || d[0] != 0xff then []
    else if Alone(d[1]) then [Standalone(d[1])] + Parse(d[2..])
    else
      var length := U16(Big, d[2], d[3]);
      if length < 2 || 2 + length > |d| then []
      else [Sized(d[1], d[4..2 + length])] + (if d[1] == SOS then [] else Parse(d[2 + length..]))
  }

  lemma SizedSplit(d: seq<byte>)
    requires |d| >= 4 && d[0] == 0xff && !Alone(d[1])
    requires var length := U16(Big, d[2], d[3]); 2 <= length && 2 + length <= |d|
    ensures var length := U16(Big, d[2], d[3]);
      d == Put(Sized(d[1], d[4..2 + length])) + d[2 + length..]
  {
    var length := U16(Big, d[2], d[3]);
    assert Put16(Big, length) == [d[2], d[3]];
    assert d == [d[0], d[1]] + [d[2], d[3]] + d[4..2 + length] + d[2 + length..];
  }

  /** On every input whatever, valid or not, the walk reads a prefix of it as segments and returns the
      first orientation among them that is not 0, else 1. */
  lemma {:induction false} WalkReadsAPrefix(d: seq<byte>)
    ensures PutAll(Parse(d)) <= d
    ensures Walk(d) == FirstOrientation(Parse(d))
    decreases |d|
  {
    if |d| >= 4 && d[0] == 0xff {
      if Alone(d[1]) {
        WalkReadsAPrefix(d[2..]);
        assert d == Put(Standalone(d[1])) + d[2..];
        assert Parse(d)[1..] == Parse(d[2..]);
      } else {
        var length := U16(Big, d[2], d[3]);
        if length >= 2 && 2 + length <= |d| {
          SizedSplit(d);
          var rest := if d[1] == SOS then [] else Parse(d[2 + length..]);
          assert Parse(d)[1..] == rest;
          if d[1] != SOS {
            WalkReadsAPrefix(d[2 + length..]);
          }
          assert PutAll(Parse(d)) == Put(Parse(d)[0]) + PutAll(rest);
        }
      }
    }
  }
}
