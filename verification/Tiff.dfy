/** The orientation tag of a TIFF header, as Exif carries it (TIFF 6.0, sections 2 and 8). */
module Tiff {
  type byte = x: int | 0 <= x < 256

  datatype Order = Little | Big

  function U16(order: Order, a: byte, b: byte): nat {
    if order == Big then a * 256 + b else b * 256 + a
  }

  function U32(order: Order, d: seq<byte>): nat
    requires |d| == 4
  {
    if order == Big then U16(Big, d[0], d[1]) * 65536 + U16(Big, d[2], d[3])
    else U16(Little, d[2], d[3]) * 65536 + U16(Little, d[0], d[1])
  }

  const LITTLE_MARK: seq<byte> := [0x49, 0x49]
  const BIG_MARK: seq<byte> := [0x4d, 0x4d]

  // ---------------------------------------------------------------- decoding

  /** Whether an entry of 12 bytes is the orientation: one SHORT under tag 0x0112. */
  predicate IsOrientation(d: seq<byte>, order: Order)
    requires |d| == 12
  {
    U16(order, d[0], d[1]) == 0x0112 && U16(order, d[2], d[3]) == 3 && U32(order, d[4..8]) == 1
  }

  /** The value of the first orientation entry among `count` entries, 0 without one. */
  function Search(d: seq<byte>, count: nat, order: Order): nat
    requires count * 12 <= |d|
    decreases count
  {
    if count == 0 then 0
    else if IsOrientation(d[..12], order) then U16(order, d[8], d[9])
    else Search(d[12..], count - 1, order)
  }

  function Mark(data: seq<byte>): (order: (bool, Order))
    requires |data| >= 2
  {
    if data[..2] == LITTLE_MARK then (true, Little) else if data[..2] == BIG_MARK then (true, Big) else (false, Little)
  }

  function TiffOrientation(data: seq<byte>): nat {
    if |data| < 8 then 0
    else
      var (known, order) := Mark(data);
      if !known || U16(order, data[2], data[3]) != 42 then 0
      else
        var ifd := U32(order, data[4..8]);
        if ifd + 2 > |data| then 0
        else
          var count := U16(order, data[ifd], data[ifd + 1]);
          if count > (|data| - ifd - 2) / 12 then 0 else Search(data[ifd + 2..], count, order)
  }

  lemma SearchStep(d: seq<byte>, count: nat, i: nat, order: Order)
    requires i < count && count * 12 <= |d|
    ensures var at := i * 12;
      Search(d[at..], count - i, order)
      == if IsOrientation(d[at..at + 12], order) then U16(order, d[at + 8], d[at + 9]) else Search(d[at + 12..], count - i - 1, order)
  {
    var at := i * 12;
    assert d[at..][..12] == d[at..at + 12] && d[at..][12..] == d[at + 12..];
  }

  /** The loop over the entries. */
  method SearchEntries(d: seq<byte>, count: nat, order: Order) returns (value: nat)
    requires count * 12 <= |d|
    ensures value == Search(d, count, order)
  {
    assert d[0..] == d;
    for i := 0 to count
      invariant Search(d, count, order) == Search(d[i * 12..], count - i, order)
    {
      SearchStep(d, count, i, order);
      var entry := d[i * 12..i * 12 + 12];
      if IsOrientation(entry, order) {
        return U16(order, entry[8], entry[9]);
      }
    }
    value := 0;
  }

  /** Every access is in bounds for every input. */
  method FindOrientation(data: seq<byte>) returns (orientation: nat)
    ensures orientation == TiffOrientation(data)
  {
    if |data| < 8 {
      return 0;
    }
    var order := Little;
    if data[..2] == BIG_MARK {
      order := Big;
    } else if data[..2] != LITTLE_MARK {
      return 0;
    }
    if U16(order, data[2], data[3]) != 42 {
      return 0;
    }
    var ifd := U32(order, data[4..8]);
    if ifd + 2 > |data| {
      return 0;
    }
    var count := U16(order, data[ifd], data[ifd + 1]);
    if count > (|data| - ifd - 2) / 12 {
      return 0;
    }
    orientation := SearchEntries(data[ifd + 2..], count, order);
  }

  // ---------------------------------------------------------------- encoding

  datatype RawEntry = Entry(tag: nat, kind: nat, count: nat, value: seq<byte>)

  /** An entry of an image file directory. */
  type Entry = e: RawEntry | e.tag < 65536 && e.kind < 65536 && e.count < 0x1_0000_0000 && |e.value| == 4
    witness Entry(0, 0, 0, [0, 0, 0, 0])

  function Put16(order: Order, n: nat): (d: seq<byte>)
    requires n < 65536
    ensures |d| == 2
  {
    if order == Big then [n / 256, n % 256] else [n % 256, n / 256]
  }

  function Put32(order: Order, n: nat): (d: seq<byte>)
    requires n < 0x1_0000_0000
    ensures |d| == 4
  {
    if order == Big then Put16(Big, n / 65536) + Put16(Big, n % 65536) else Put16(Little, n % 65536) + Put16(Little, n / 65536)
  }

  lemma Put16Read(order: Order, n: nat)
    requires n < 65536
    ensures U16(order, Put16(order, n)[0], Put16(order, n)[1]) == n
  {
  }

  lemma Put32Read(order: Order, n: nat)
    requires n < 0x1_0000_0000
    ensures U32(order, Put32(order, n)) == n
  {
    Put16Read(order, n / 65536);
    Put16Read(order, n % 65536);
  }

  function PutEntry(order: Order, e: Entry): (d: seq<byte>)
    ensures |d| == 12
  {
    Put16(order, e.tag) + Put16(order, e.kind) + Put32(order, e.count) + e.value
  }

  function PutEntries(order: Order, entries: seq<Entry>): (d: seq<byte>)
    ensures |d| == |entries| * 12
  {
    if entries == [] then [] else PutEntry(order, entries[0]) + PutEntries(order, entries[1..])
  }

  /** A TIFF structure in either byte order: header, a gap, the directory, and whatever follows. */
  function Encode(order: Order, gap: seq<byte>, entries: seq<Entry>, rest: seq<byte>): seq<byte>
    requires |entries| < 65536 && 8 + |gap| < 0x1_0000_0000
  {
    (if order == Big then BIG_MARK else LITTLE_MARK) + Put16(order, 42) + Put32(order, 8 + |gap|)
    + gap + Put16(order, |entries|) + PutEntries(order, entries) + rest
  }

  /** What the directory says: the value of its first orientation entry. */
  function Orientation(order: Order, entries: seq<Entry>): nat
  {
    if entries == [] then 0
    else
      var e := entries[0];
      if e.tag == 0x0112 && e.kind == 3 && e.count == 1 then U16(order, e.value[0], e.value[1])
      else Orientation(order, entries[1..])
  }

  lemma FirstFour(a: seq<byte>, b: seq<byte>, tail: seq<byte>)
    requires |a| == |b| == 2
    ensures (a + b + tail)[..4] == [a[0], a[1], b[0], b[1]]
  {
  }

  /** Two letters, then 42: a TIFF header is II*\0 or MM\0*. */
  lemma Header(order: Order, gap: seq<byte>, entries: seq<Entry>, rest: seq<byte>)
    requires |entries| < 65536 && 8 + |gap| < 0x1_0000_0000
    ensures Encode(order, gap, entries, rest)[..4]
         == if order == Big then ['M' as int, 'M' as int, 0, 42] else ['I' as int, 'I' as int, 42, 0]
  {
    var mark := if order == Big then BIG_MARK else LITTLE_MARK;
    var tail := Put32(order, 8 + |gap|) + gap + Put16(order, |entries|) + PutEntries(order, entries) + rest;
    assert Encode(order, gap, entries, rest) == mark + Put16(order, 42) + tail;
    FirstFour(mark, Put16(order, 42), tail);
  }

  /** The entry that counts is the first with tag 274, type SHORT (3) and one value. */
  lemma {:induction false} FirstCounts(order: Order, entries: seq<Entry>, k: nat)
    requires k < |entries| && entries[k].tag == 274 && entries[k].kind == 3 && entries[k].count == 1
    requires forall i | 0 <= i < k :: !(entries[i].tag == 274 && entries[i].kind == 3 && entries[i].count == 1)
    ensures var first: nat, second: nat := entries[k].value[0], entries[k].value[1];
      Orientation(order, entries) == if order == Big then first * 256 + second else second * 256 + first
  {
    if k > 0 { FirstCounts(order, entries[1..], k - 1); }
  }

  lemma {:induction false} NoneCounts(order: Order, entries: seq<Entry>)
    requires forall i | 0 <= i < |entries| :: !(entries[i].tag == 274 && entries[i].kind == 3 && entries[i].count == 1)
    ensures Orientation(order, entries) == 0
  {
    if entries != [] { NoneCounts(order, entries[1..]); }
  }

  lemma EntryRead(d: seq<byte>, order: Order, e: Entry)
    requires d == PutEntry(order, e)
    ensures IsOrientation(d, order) <==> e.tag == 0x0112 && e.kind == 3 && e.count == 1
    ensures U16(order, d[8], d[9]) == U16(order, e.value[0], e.value[1])
  {
    Put16Read(order, e.tag);
    Put16Read(order, e.kind);
    Put32Read(order, e.count);
    assert d[0..2] == Put16(order, e.tag) && d[2..4] == Put16(order, e.kind);
    assert d[4..8] == Put32(order, e.count) && d[8..12] == e.value;
    assert d[8] == d[8..12][0] && d[9] == d[8..12][1];
  }

  lemma FrontApart(front: seq<byte>, middle: seq<byte>, rest: seq<byte>)
    requires |front| == 12
    ensures var d := front + middle + rest;
      d[..12] == front && d[12..] == middle + rest && d[8] == front[8] && d[9] == front[9]
  {
  }

  lemma {:induction false} SearchFinds(order: Order, entries: seq<Entry>, rest: seq<byte>)
    ensures Search(PutEntries(order, entries) + rest, |entries|, order) == Orientation(order, entries)
  {
    if entries != [] {
      var d := PutEntries(order, entries) + rest;
      FrontApart(PutEntry(order, entries[0]), PutEntries(order, entries[1..]), rest);
      EntryRead(d[..12], order, entries[0]);
      SearchFinds(order, entries[1..], rest);
    }
  }

  /** Where the parts of a structure lie. */
  lemma Laid(mark: seq<byte>, magic: seq<byte>, offset: seq<byte>, gap: seq<byte>, count: seq<byte>, body: seq<byte>)
    requires |mark| == |magic| == |count| == 2 && |offset| == 4
    ensures var d := mark + magic + offset + gap + count + body;
      var ifd := 8 + |gap|;
      && d[..2] == mark && d[2..4] == magic && d[4..8] == offset
      && d[ifd..ifd + 2] == count && d[ifd + 2..] == body
  {
  }

  /** The bytes hold a TIFF structure with these entries: a header of one of the two byte orders, and the directory where
      the header says, inside the bytes. */
  ghost predicate Holds(data: seq<byte>, order: Order, ifd: nat, entries: seq<Entry>, rest: seq<byte>) {
    && |data| >= 8 && |entries| < 65536 && ifd < 0x1_0000_0000 && ifd + 2 <= |data|
    && data[..2] == (if order == Big then BIG_MARK else LITTLE_MARK) && data[2..4] == Put16(order, 42)
    && data[4..8] == Put32(order, ifd) && data[ifd..ifd + 2] == Put16(order, |entries|)
    && data[ifd + 2..] == PutEntries(order, entries) + rest
  }

  lemma HeldIsRead(data: seq<byte>, order: Order, ifd: nat, entries: seq<Entry>, rest: seq<byte>)
    requires Holds(data, order, ifd, entries, rest)
    ensures TiffOrientation(data) == Orientation(order, entries)
  {
    Put16Read(order, 42);
    Put32Read(order, ifd);
    Put16Read(order, |entries|);
    assert data[2] == data[2..4][0] && data[3] == data[2..4][1];
    assert data[ifd] == data[ifd..ifd + 2][0] && data[ifd + 1] == data[ifd..ifd + 2][1];
    assert |data[ifd + 2..]| == 12 * |entries| + |rest|;
    SearchFinds(order, entries, rest);
  }

  /** tiffOrientation undoes the encoder, in both byte orders, for every gap, directory and tail. */
  lemma DecodesEncoded(order: Order, gap: seq<byte>, entries: seq<Entry>, rest: seq<byte>)
    requires |entries| < 65536 && 8 + |gap| < 0x1_0000_0000
    ensures TiffOrientation(Encode(order, gap, entries, rest)) == Orientation(order, entries)
  {
    var data := Encode(order, gap, entries, rest);
    var ifd := 8 + |gap|;
    var mark := if order == Big then BIG_MARK else LITTLE_MARK;
    var body := PutEntries(order, entries) + rest;
    assert data == mark + Put16(order, 42) + Put32(order, ifd) + gap + Put16(order, |entries|) + body;
    Laid(mark, Put16(order, 42), Put32(order, ifd), gap, Put16(order, |entries|), body);
    HeldIsRead(data, order, ifd, entries, rest);
  }

  // ------------------------------------------------------------- every input

  lemma Put32Back(order: Order, d: seq<byte>)
    requires |d| == 4
    ensures U32(order, d) < 0x1_0000_0000 && Put32(order, U32(order, d)) == d
  {
    var first, second := U16(order, d[0], d[1]), U16(order, d[2], d[3]);
    var low, high := if order == Big then second else first, if order == Big then first else second;
    assert U32(order, d) / 65536 == high && U32(order, d) % 65536 == low;
    assert Put16(order, first) == [d[0], d[1]] && Put16(order, second) == [d[2], d[3]];
  }

  lemma Put16Back(order: Order, a: byte, b: byte)
    ensures Put16(order, U16(order, a, b)) == [a, b]
  {
  }

  /** The entry that twelve bytes hold. */
  function EntryOf(order: Order, d: seq<byte>): Entry
    requires |d| == 12
  {
    Put32Back(order, d[4..8]);
    Entry(U16(order, d[0], d[1]), U16(order, d[2], d[3]), U32(order, d[4..8]), d[8..12])
  }

  lemma EntryBack(order: Order, d: seq<byte>)
    requires |d| == 12
    ensures PutEntry(order, EntryOf(order, d)) == d
  {
    Put16Back(order, d[0], d[1]);
    Put16Back(order, d[2], d[3]);
    Put32Back(order, d[4..8]);
    assert d == [d[0], d[1]] + [d[2], d[3]] + d[4..8] + d[8..12];
  }

  /** Any bytes that are long enough are entries. */
  lemma {:induction false} EntriesBack(order: Order, d: seq<byte>, count: nat) returns (entries: seq<Entry>)
    requires 12 * count <= |d|
    ensures |entries| == count && d == PutEntries(order, entries) + d[12 * count..]
    decreases count
  {
    if count == 0 {
      entries := [];
    } else {
      var tail := EntriesBack(order, d[12..], count - 1);
      entries := [EntryOf(order, d[..12])] + tail;
      EntryBack(order, d[..12]);
      assert entries[1..] == tail;
      assert d == d[..12] + d[12..] && d[12..][12 * (count - 1)..] == d[12 * count..];
    }
  }

  lemma ReadIsHeld(data: seq<byte>) returns (order: Order, ifd: nat, entries: seq<Entry>, rest: seq<byte>)
    requires TiffOrientation(data) != 0
    ensures Holds(data, order, ifd, entries, rest)
  {
    order, ifd := Mark(data).1, U32(Mark(data).1, data[4..8]);
    var count := U16(order, data[ifd], data[ifd + 1]);
    entries := EntriesBack(order, data[ifd + 2..], count);
    rest := data[ifd + 2..][12 * count..];
    Put16Back(order, data[2], data[3]);
    Put16Back(order, data[ifd], data[ifd + 1]);
    Put32Back(order, data[4..8]);
    assert data[2..4] == [data[2], data[3]] && data[ifd..ifd + 2] == [data[ifd], data[ifd + 1]];
  }

  /** Of all inputs: an orientation is found exactly in the bytes that hold a TIFF structure with it, whose directory
      may lie anywhere in them; everything else gives 0. */
  lemma FoundExactly(data: seq<byte>, orientation: nat)
    requires orientation != 0
    ensures TiffOrientation(data) == orientation <==>
      exists order, ifd: nat, entries, rest :: Holds(data, order, ifd, entries, rest) && Orientation(order, entries) == orientation
  {
    if TiffOrientation(data) == orientation {
      var order, ifd, entries, rest := ReadIsHeld(data);
      HeldIsRead(data, order, ifd, entries, rest);
    }
    forall order, ifd: nat, entries, rest | Holds(data, order, ifd, entries, rest) && Orientation(order, entries) == orientation
      ensures TiffOrientation(data) == orientation
    {
      HeldIsRead(data, order, ifd, entries, rest);
    }
  }
}
