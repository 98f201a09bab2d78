/**
 The segment index box (section 8.16.3 of ISO/IEC 14496-12): BoxReader, ParseSegmentIndexBox, and
 a printer of well-formed boxes for the round trip.
 */
module SegmentIndex {

  type Byte = x: nat | x < 256

  // ---------------------------------------------------------------- big-endian fields

  function Pow256(n: nat): (p: nat)
    ensures p > 0
  {
    if n == 0 then 1 else 256 * Pow256(n - 1)
  }

  function BigEndian(bytes: seq<Byte>): nat
  {
    if bytes == [] then 0 else BigEndian(bytes[..|bytes| - 1]) * 256 + bytes[|bytes| - 1]
  }

  function Field(v: nat, n: nat): (bytes: seq<Byte>)
    ensures |bytes| == n
  {
    if n == 0 then [] else Field(v / 256, n - 1) + [v % 256]
  }

  lemma {:induction false} FieldRoundTrip(v: nat, n: nat)
    requires v < Pow256(n)
    ensures BigEndian(Field(v, n)) == v
  {
    if n > 0 {
      FieldRoundTrip(v / 256, n - 1);
      assert Field(v, n)[..n - 1] == Field(v / 256, n - 1);
    }
  }

  /** n bytes of the data from position `at`, as a number; 0 where the data ends early. */
  ghost function At(data: seq<Byte>, at: nat, n: nat): nat
  {
    if at + n <= |data| then BigEndian(data[at..at + n]) else 0
  }

  /** BoxReader; reading past the data is recorded and yields nothing useful. */
  class BoxReader {
    const data: seq<Byte>
    var cursor: nat
    var inside: bool  // every read so far was within the data

    constructor (data: seq<Byte>)
      ensures this.data == data && cursor == 0 && inside
    {
      this.data, cursor, inside := data, 0, true;
    }

    method Read(n: nat) returns (val: nat)
      modifies this
      ensures cursor == old(cursor) + n
      ensures inside == (old(inside) && old(cursor) + n <= |data|)
      ensures val == At(data, old(cursor), n)
    {
      val := 0;
      if cursor + n <= |data| {
        var i := 0;
        while i < n
          invariant 0 <= i <= n && val == BigEndian(data[cursor..cursor + i])
          invariant cursor == old(cursor) && inside == old(inside)
        {
          assert data[cursor..cursor + i + 1][..i] == data[cursor..cursor + i];
          val := val * 256 + data[cursor + i];
          i := i + 1;
        }
      } else {
        inside := false;
      }
      cursor := cursor + n;
    }

    method Skip(n: nat)
      modifies this`cursor
      ensures cursor == old(cursor) + n
    {
      cursor := cursor + n;
    }
  }

  // ---------------------------------------------------------------- the parser

  datatype Parsed =
    | Rejected
    | FirstOffset(offset: nat)
    | Reference(size: nat, ticks: nat, timescale: nat)  // the duration is ticks / timescale seconds

  const SIDX_BOX_TYPE: nat := 0x73696478
  const SIDX_ENTRY_SIZE: nat := 12

  ghost predicate IsSidx(data: seq<Byte>) { |data| >= 4 && At(data, 0, 4) == |data| && At(data, 4, 4) == SIDX_BOX_TYPE }

  ghost function Version(data: seq<Byte>): nat { At(data, 8, 4) / 0x100_0000 }

  /** Where the references start, for versions 0 and 1. */
  ghost function Entries(data: seq<Byte>): nat { if Version(data) == 0 then 32 else 40 }

  /** How far the parser reads. */
  ghost function Reach(data: seq<Byte>, segmentIndex: int, wantOffset: bool): nat
  {
    if |data| < 4 then 0
    else if At(data, 0, 4) != |data| then 4
    else if At(data, 4, 4) != SIDX_BOX_TYPE then 8
    else if Version(data) > 1 then 20
    else if wantOffset || !(0 <= segmentIndex < At(data, Entries(data) - 2, 2)) then Entries(data)
    else Entries(data) + SIDX_ENTRY_SIZE * segmentIndex + 8
  }

  /** What the parser answers when it stays inside the data. */
  ghost function Answer(data: seq<Byte>, segmentIndex: int, wantOffset: bool): Parsed
  {
    if !IsSidx(data) || Version(data) > 1 then Rejected
    else
      var e := Entries(data);
      if wantOffset then
        FirstOffset((if Version(data) == 0 then At(data, 24, 4) else At(data, 28, 8)) % 0x1_0000_0000)
      else if 0 <= segmentIndex < At(data, e - 2, 2) then
        var entry := e + SIDX_ENTRY_SIZE * segmentIndex;
        Reference(At(data, entry, 4) % 0x8000_0000, At(data, entry + 4, 4), At(data, 16, 4))
      else Rejected
  }

  /** ParseSegmentIndexBox; `wantOffset` is a non-null firstOffset argument. */
  method ParseSegmentIndexBox(data: seq<Byte>, segmentIndex: int, wantOffset: bool) returns (r: Parsed, inside: bool)
    ensures inside <==> Reach(data, segmentIndex, wantOffset) <= |data|
    ensures inside ==> r == Answer(data, segmentIndex, wantOffset)
  {
    hide At;
    if |data| < 4 { return Rejected, true; }
    var reader := new BoxReader(data);
    var len := reader.Read(4);
    if len != |data| { return Rejected, reader.inside; }
    var boxType := reader.Read(4);
    if boxType != SIDX_BOX_TYPE { return Rejected, reader.inside; }
    var word := reader.Read(4);
    var version := word / 0x100_0000;
    reader.Skip(4);
    var timescale := reader.Read(4);
    var firstOffset;
    if version == 0 {
      reader.Skip(4);
      firstOffset := reader.Read(4);
    } else if version == 1 {
      reader.Skip(8);
      firstOffset := reader.Read(8);
    } else {
      return Rejected, reader.inside;
    }
    reader.Skip(2);
    var referenceCount := reader.Read(2);
    if wantOffset { return FirstOffset(firstOffset % 0x1_0000_0000), reader.inside; }
    if 0 <= segmentIndex < referenceCount {
      r := ReadReference(reader, segmentIndex, timescale);
      return r, reader.inside;
    }
    return Rejected, reader.inside;
  }

  /** The part of ParseSegmentIndexBox that skips to one reference and reads it. */
  method ReadReference(reader: BoxReader, segmentIndex: nat, timescale: nat) returns (r: Parsed)
    modifies reader
    ensures var entry := old(reader.cursor) + SIDX_ENTRY_SIZE * segmentIndex;
            && reader.inside == (old(reader.inside) && entry + 8 <= |reader.data|)
            && r == Reference(At(reader.data, entry, 4) % 0x8000_0000, At(reader.data, entry + 4, 4), timescale)
  {
    hide At;
    reader.Skip(SIDX_ENTRY_SIZE * segmentIndex);
    var size := reader.Read(4);
    var ticks := reader.Read(4);
    r := Reference(size % 0x8000_0000, ticks, timescale);
  }

  // ---------------------------------------------------------------- printing a well-formed box

  datatype Entry = Entry(isIndex: bool, size: nat, duration: nat, sap: nat)

  datatype Sidx = Sidx(
    version: nat, flags: nat, referenceId: nat, timescale: nat, earliest: nat, firstOffset: nat, entries: seq<Entry>)

  const U32: nat := 0x1_0000_0000
  const U64: nat := 0x1_0000_0000_0000_0000

  ghost predicate WellFormed(b: Sidx)
  {
    && b.version <= 1 && b.flags < 0x100_0000 && b.referenceId < U32 && b.timescale < U32
    && b.earliest < (if b.version == 0 then U32 else U64) && b.firstOffset < (if b.version == 0 then U32 else U64)
    && |b.entries| < 0x1_0000
    && forall i :: 0 <= i < |b.entries| ==>
         b.entries[i].size < 0x8000_0000 && b.entries[i].duration < U32 && b.entries[i].sap < U32
  }

  /** A box is the concatenation of its fields. */
  function Joined(fields: seq<seq<Byte>>): seq<Byte>
  {
    if fields == [] then [] else Joined(fields[..|fields| - 1]) + fields[|fields| - 1]
  }

  /** The box type is "sidx" in ASCII. */
  lemma BoxTypeIsSidx()
    ensures Field(SIDX_BOX_TYPE, 4) == [0x73, 0x69, 0x64, 0x78]
  {
    var v := SIDX_BOX_TYPE;
    assert Field(v / 0x100_0000, 1) == [0x73];
    assert Field(v / 0x1_0000, 2) == [0x73, 0x69];
    assert Field(v / 0x100, 3) == [0x73, 0x69, 0x64];
  }

  function HeaderSize(b: Sidx): nat { if b.version == 0 then 32 else 40 }

  function TimeWidth(b: Sidx): nat { if b.version == 0 then 4 else 8 }

  function Header(b: Sidx): (fields: seq<seq<Byte>>)
    ensures |fields| == 9
  {
    [Field(HeaderSize(b) + SIDX_ENTRY_SIZE * |b.entries|, 4), Field(SIDX_BOX_TYPE, 4),
     Field(b.version * 0x100_0000 + b.flags, 4), Field(b.referenceId, 4), Field(b.timescale, 4),
     Field(b.earliest, TimeWidth(b)), Field(b.firstOffset, TimeWidth(b)), Field(0, 2), Field(|b.entries|, 2)]
  }

  function PrintEntry(e: Entry): (bytes: seq<Byte>)
    ensures |bytes| == SIDX_ENTRY_SIZE
  {
    Field((if e.isIndex then 0x8000_0000 else 0) + e.size, 4) + Field(e.duration, 4) + Field(e.sap, 4)
  }

  function PrintEntries(entries: seq<Entry>): (bytes: seq<Byte>)
    ensures |bytes| == SIDX_ENTRY_SIZE * |entries|
  {
    if entries == [] then [] else PrintEntries(entries[..|entries| - 1]) + PrintEntry(entries[|entries| - 1])
  }

  function Print(b: Sidx): seq<Byte> { Joined(Header(b)) + PrintEntries(b.entries) }

  lemma {:induction false} JoinedSplit(fields: seq<seq<Byte>>, i: nat)
    requires i < |fields|
    ensures |Joined(fields[..i])| + |fields[i]| <= |Joined(fields)|
    ensures Joined(fields)[|Joined(fields[..i])|..|Joined(fields[..i])| + |fields[i]|] == fields[i]
  {
    var n := |fields| - 1;
    if i < n {
      JoinedSplit(fields[..n], i);
      assert fields[..n][..i] == fields[..i];
    }
  }

  /** The position of the i-th header field. */
  function Offset(b: Sidx, i: nat): nat
    requires i <= 9
  {
    if i <= 5 then 4 * i
    else if i == 6 then 20 + TimeWidth(b)
    else 20 + 2 * TimeWidth(b) + (if i == 7 then 0 else if i == 8 then 2 else 4)
  }

  lemma {:induction false} JoinedSize(b: Sidx, i: nat)
    requires i <= 9
    ensures |Joined(Header(b)[..i])| == Offset(b, i)
  {
    if i > 0 {
      JoinedSize(b, i - 1);
      assert Header(b)[..i][..i - 1] == Header(b)[..i - 1];
    }
  }

  lemma HeaderField(b: Sidx, i: nat)
    requires i < 9
    ensures Offset(b, i) + |Header(b)[i]| <= HeaderSize(b) <= |Print(b)|
    ensures Print(b)[Offset(b, i)..Offset(b, i) + |Header(b)[i]|] == Header(b)[i]
  {
    JoinedSize(b, i);
    JoinedSize(b, 9);
    assert Header(b)[..9] == Header(b);
    JoinedSplit(Header(b), i);
  }

  lemma {:induction false} EntryAt(entries: seq<Entry>, i: nat)
    requires i < |entries|
    ensures SIDX_ENTRY_SIZE * i + SIDX_ENTRY_SIZE <= |PrintEntries(entries)|
    ensures PrintEntries(entries)[SIDX_ENTRY_SIZE * i..SIDX_ENTRY_SIZE * i + SIDX_ENTRY_SIZE] == PrintEntry(entries[i])
  {
    var n := |entries| - 1;
    if i < n { EntryAt(entries[..n], i); }
  }

  lemma Powers()
    ensures Pow256(2) == 0x1_0000 && Pow256(4) == U32 && Pow256(8) == U64
  {
    assert Pow256(1) == 256 && Pow256(2) == 0x1_0000 && Pow256(3) == 0x100_0000 && Pow256(4) == U32;
    assert Pow256(5) == 0x100_0000_0000 && Pow256(6) == 0x1_0000_0000_0000 && Pow256(7) == 0x100_0000_0000_0000;
  }

  /** Reading a header field back. */
  lemma HeaderValue(b: Sidx, i: nat, v: nat, n: nat)
    requires i < 9 && Header(b)[i] == Field(v, n) && v < Pow256(n)
    ensures At(Print(b), Offset(b, i), n) == v && Offset(b, i) + n <= HeaderSize(b) <= |Print(b)|
  {
    HeaderField(b, i);
    FieldRoundTrip(v, n);
  }

  lemma EntryValues(b: Sidx, i: nat)
    requires WellFormed(b) && i < |b.entries|
    ensures var at := HeaderSize(b) + SIDX_ENTRY_SIZE * i;
            && at + 8 <= |Print(b)|
            && At(Print(b), at, 4) % 0x8000_0000 == b.entries[i].size
            && At(Print(b), at + 4, 4) == b.entries[i].duration
  {
    hide BigEndian, Joined, PrintEntries, Header;
    var e, at := b.entries[i], SIDX_ENTRY_SIZE * i;
    var word := (if e.isIndex then 0x8000_0000 else 0) + e.size;
    PrintedSize(b);
    EntryAt(b.entries, i);
    Powers();
    FieldRoundTrip(word, 4);
    FieldRoundTrip(e.duration, 4);
    var h, p := HeaderSize(b), PrintEntries(b.entries);
    EntrySlices(Joined(Header(b)), p, at, Field(word, 4), Field(e.duration, 4), Field(e.sap, 4));
  }

  lemma EntrySlices(head: seq<Byte>, body: seq<Byte>, at: nat, a: seq<Byte>, b: seq<Byte>, c: seq<Byte>)
    requires at + 12 <= |body| && |a| == |b| == |c| == 4 && body[at..at + 12] == a + b + c
    ensures (head + body)[|head| + at..|head| + at + 4] == a
    ensures (head + body)[|head| + at + 4..|head| + at + 8] == b
  {
    var s, all := body[at..at + 12], head + body;
    assert s == a + b + c;
    assert all[|head| + at..|head| + at + 4] == s[..4] == a;
    var t := all[|head| + at + 4..|head| + at + 8];
    forall i | 0 <= i < 4 ensures t[i] == b[i] {
      assert t[i] == body[at + 4 + i] == s[4 + i] == (a + b + c)[4 + i];
    }
  }

  lemma PrintedSize(b: Sidx)
    ensures |Print(b)| == HeaderSize(b) + SIDX_ENTRY_SIZE * |b.entries|
  {
    JoinedSize(b, 9);
    assert Header(b)[..9] == Header(b);
  }

  lemma PrintedHeader(b: Sidx)
    requires WellFormed(b)
    ensures IsSidx(Print(b)) && Version(Print(b)) == b.version && Entries(Print(b)) == HeaderSize(b)
    ensures At(Print(b), 16, 4) == b.timescale && At(Print(b), HeaderSize(b) - 2, 2) == |b.entries|
    ensures (if b.version == 0 then At(Print(b), 24, 4) else At(Print(b), 28, 8)) == b.firstOffset
  {
    hide At, Print;
    Powers();
    PrintedSize(b);
    HeaderValue(b, 0, HeaderSize(b) + SIDX_ENTRY_SIZE * |b.entries|, 4);
    HeaderValue(b, 1, SIDX_BOX_TYPE, 4);
    HeaderValue(b, 2, b.version * 0x100_0000 + b.flags, 4);
    HeaderValue(b, 4, b.timescale, 4);
    HeaderValue(b, 6, b.firstOffset, TimeWidth(b));
    HeaderValue(b, 8, |b.entries|, 2);
  }

  /**
   For every well-formed version 0 or 1 box, printing and then parsing returns the i-th referenced
   size and duration for every valid index, rejects every other index, returns first_offset modulo
   2^32 (so exactly, if it fits), and reads nothing outside the box.
   */
  lemma PrintThenParse(b: Sidx, segmentIndex: int, wantOffset: bool)
    requires WellFormed(b)
    ensures Reach(Print(b), segmentIndex, wantOffset) <= |Print(b)|
    ensures Answer(Print(b), segmentIndex, wantOffset) ==
            if wantOffset then FirstOffset(b.firstOffset % U32)
            else if 0 <= segmentIndex < |b.entries|
            then Reference(b.entries[segmentIndex].size, b.entries[segmentIndex].duration, b.timescale)
            else Rejected
  {
    hide At, Print, Version, Entries, IsSidx;
    PrintedHeader(b);
    PrintedSize(b);
    if 0 <= segmentIndex < |b.entries| { EntryValues(b, segmentIndex); }
    SidxParts(Print(b));
  }

  lemma SidxParts(data: seq<Byte>)
    requires IsSidx(data)
    ensures |data| >= 4 && At(data, 0, 4) == |data| && At(data, 4, 4) == SIDX_BOX_TYPE
  {
  }
}
