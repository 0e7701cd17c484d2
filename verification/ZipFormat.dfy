/** Archives as APPNOTE.TXT lays them out, and what the reader of common/godot_steps.py makes of
    them. The records are written field by field; nothing here is defined by the reader. */
module ZipFormat {
  import opened Common
  import opened Slices
  import opened Bytes
  import opened RemoteZip

  /** The fields of one member, common to its two headers or of its central header only. */
  datatype Entry = Entry(madeBy: nat, needed: nat, flags: nat, compression: nat, time: nat, date: nat, crc: nat,
                         size: nat, fullSize: nat, disk: nat, internals: nat, externals: nat, offset: nat,
                         name: seq<byte>, extra: seq<byte>, comment: seq<byte>)

  predicate Fits16(v: nat) { v < 0x1_0000 }
  predicate Fits32(v: nat) { v < 0x1_0000_0000 }

  predicate Fits(e: Entry) {
    && Fits16(e.madeBy) && Fits16(e.needed) && Fits16(e.flags) && Fits16(e.compression) && Fits16(e.time)
    && Fits16(e.date) && Fits32(e.crc) && Fits32(e.size) && Fits32(e.fullSize) && Fits16(e.disk)
    && Fits16(e.internals) && Fits32(e.externals) && Fits32(e.offset)
    && Fits16(|e.name|) && Fits16(|e.extra|) && Fits16(|e.comment|)
  }

  // ---------------------------------------------------------------------------
  // Central header, section 4.3.12
  // ---------------------------------------------------------------------------

  function Versions(e: Entry): (b: seq<byte>)
    requires Fits(e)
    ensures |b| == 12
  {
    [0x50, 0x4B, 0x01, 0x02] + Put16(e.madeBy) + Put16(e.needed) + Put16(e.flags) + Put16(e.compression)
  }

  function Checks(e: Entry): (b: seq<byte>)
    requires Fits(e)
    ensures |b| == 8
  {
    Put16(e.time) + Put16(e.date) + Put32(e.crc)
  }

  function Sizes(e: Entry): (b: seq<byte>)
    requires Fits(e)
    ensures |b| == 8
  {
    Put32(e.size) + Put32(e.fullSize)
  }

  function Lengths(e: Entry): (b: seq<byte>)
    requires Fits(e)
    ensures |b| == 6
  {
    Put16(|e.name|) + Put16(|e.extra|) + Put16(|e.comment|)
  }

  function Places(e: Entry): (b: seq<byte>)
    requires Fits(e)
    ensures |b| == 12
  {
    Put16(e.disk) + Put16(e.internals) + Put32(e.externals) + Put32(e.offset)
  }

  function CentralHeader(e: Entry): (b: seq<byte>)
    requires Fits(e)
    ensures |b| == 46
  {
    Versions(e) + Checks(e) + Sizes(e) + Lengths(e) + Places(e)
  }

  function Central(e: Entry): (b: seq<byte>)
    requires Fits(e)
    ensures |b| == 46 + |e.name| + |e.extra| + |e.comment|
  {
    CentralHeader(e) + e.name + e.extra + e.comment
  }

  lemma Field16(pre: seq<byte>, v: nat, post: seq<byte>)
    requires Fits16(v)
    ensures Le16(pre + Put16(v) + post, |pre|) == v
  {
    var b, i := pre + Put16(v) + post, |pre|;
    assert b[i] == Put16(v)[0] && b[i + 1] == Put16(v)[1];
  }

  lemma Field32(pre: seq<byte>, v: nat, post: seq<byte>)
    requires Fits32(v)
    ensures Le32(pre + Put32(v) + post, |pre|) == v
  {
    var b, i := pre + Put32(v) + post, |pre|;
    assert b[i..i + 4] == Put32(v);
    LeSlice(b, i, i + 4, 0);
    hide Put32;
  }

  lemma VersionsRead(e: Entry)
    requires Fits(e)
    ensures Le16(Versions(e), 8) == e.flags && Le16(Versions(e), 10) == e.compression
    ensures Versions(e)[..4] == [0x50, 0x4B, 0x01, 0x02]
  {
    var pre: seq<byte> := [0x50, 0x4B, 0x01, 0x02] + Put16(e.madeBy) + Put16(e.needed);
    Field16(pre, e.flags, Put16(e.compression));
    Field16(pre + Put16(e.flags), e.compression, []);
    hide Put16, Le16;
    assert Versions(e) == pre + Put16(e.flags) + Put16(e.compression) + [];
  }

  lemma SizesRead(e: Entry)
    requires Fits(e)
    ensures Le32(Sizes(e), 0) == e.size && Le32(Sizes(e), 4) == e.fullSize
  {
    Field32([], e.size, Put32(e.fullSize));
    Field32(Put32(e.size), e.fullSize, []);
    hide Put32, Le32;
    assert Sizes(e) == [] + Put32(e.size) + Put32(e.fullSize) == Put32(e.size) + Put32(e.fullSize) + [];
  }

  lemma LengthsRead(e: Entry)
    requires Fits(e)
    ensures Le16(Lengths(e), 0) == |e.name| && Le16(Lengths(e), 2) == |e.extra| && Le16(Lengths(e), 4) == |e.comment|
  {
    var name, extra, comment := Put16(|e.name|), Put16(|e.extra|), Put16(|e.comment|);
    Field16([], |e.name|, extra + comment);
    Field16(name, |e.extra|, comment);
    Field16(name + extra, |e.comment|, []);
    hide Put16, Le16;
    assert Lengths(e) == [] + name + (extra + comment) == name + extra + comment + [];
  }

  lemma PlacesRead(e: Entry)
    requires Fits(e)
    ensures Le16(Places(e), 0) == e.disk && Le32(Places(e), 8) == e.offset
  {
    var rest := Put16(e.internals) + Put32(e.externals) + Put32(e.offset);
    Field16([], e.disk, rest);
    Field32(Put16(e.disk) + Put16(e.internals) + Put32(e.externals), e.offset, []);
    hide Put16, Put32, Le16, Le32;
    assert Places(e) == [] + Put16(e.disk) + rest;
    assert Places(e) == Put16(e.disk) + Put16(e.internals) + Put32(e.externals) + Put32(e.offset) + [];
  }

  lemma CentralParts(e: Entry)
    requires Fits(e)
    ensures var b := Central(e);
            && b[0..12] == Versions(e) && b[20..28] == Sizes(e) && b[28..34] == Lengths(e) && b[34..46] == Places(e)
            && b[46..46 + |e.name|] == e.name
  {
    hide Versions, Checks, Sizes, Lengths, Places;
    var head := Versions(e) + Checks(e) + Sizes(e) + Lengths(e) + Places(e);
    assert head[0..12] == Versions(e) && head[20..28] == Sizes(e) && head[28..34] == Lengths(e)
        && head[34..46] == Places(e);
    hide CentralHeader;
    assert Central(e) == CentralHeader(e) + (e.name + e.extra + e.comment);
  }

  /** Every field is read back from where the format has it. */
  lemma CentralRead(e: Entry, decode: Decoder)
    requires Fits(e)
    ensures var b := Central(e);
            && IsRecord(b) && b[..4] == [0x50, 0x4B, 0x01, 0x02]
            && HeaderAt(b, 0) == Header(e.flags, e.compression, e.size, e.fullSize, |e.name|, |e.extra|, |e.comment|,
                                        e.disk, e.offset)
            && MemberOf(b) == Member(e.offset, e.size, b)
            && NameOf(b, decode) == decode(e.flags / 0x800 % 2 == 1, e.name)
  {
    var b := Central(e);
    CentralParts(e);
    VersionsRead(e);
    SizesRead(e);
    LengthsRead(e);
    PlacesRead(e);
    hide Central, Versions, Sizes, Lengths, Places, Le16, Le32;
    LeSlice(b, 0, 12, 8);
    LeSlice(b, 0, 12, 10);
    LeSlice(b, 20, 28, 0);
    LeSlice(b, 20, 28, 4);
    LeSlice(b, 28, 34, 0);
    LeSlice(b, 28, 34, 2);
    LeSlice(b, 28, 34, 4);
    LeSlice(b, 34, 46, 0);
    LeSlice(b, 34, 46, 8);
    assert b[..4] == b[0..12][..4];
  }

  /** Neither encrypted nor compressed otherwise than by DEFLATE, and no field says ZIP64. */
  predicate IsOrdinary(e: Entry) {
    && e.flags % 2 == 0 && (e.compression == 0 || e.compression == 8)
    && e.disk == 0 && e.size != 0xFFFF_FFFF && e.fullSize != 0xFFFF_FFFF && e.offset != 0xFFFF_FFFF
  }

  lemma OrdinaryIsSupported(e: Entry, decode: Decoder)
    requires Fits(e)
    ensures IsRecord(Central(e)) && (IsSupported(Central(e)) <==> IsOrdinary(e))
  {
    CentralRead(e, decode);
    hide Central, HeaderAt;
  }

  // ---------------------------------------------------------------------------
  // Directories
  // ---------------------------------------------------------------------------

  ghost predicate AllFit(es: seq<Entry>) {
    forall i :: 0 <= i < |es| ==> Fits(es[i])
  }

  function Name(e: Entry, decode: Decoder): Option<string> { decode(e.flags / 0x800 % 2 == 1, e.name) }

  /** The directory of these members. */
  function DirectoryBytes(es: seq<Entry>): seq<byte>
    requires AllFit(es)
  {
    if es == [] then [] else Central(es[0]) + DirectoryBytes(es[1..])
  }

  ghost function Records(es: seq<Entry>): (records: seq<seq<byte>>)
    requires AllFit(es)
    ensures |records| == |es| && forall i :: 0 <= i < |es| ==> records[i] == Central(es[i])
  {
    seq(|es|, i requires 0 <= i < |es| => Central(es[i]))
  }

  lemma {:induction false} DirectoryIsFlat(es: seq<Entry>)
    requires AllFit(es)
    ensures DirectoryBytes(es) == Flatten(Records(es))
  {
    hide Central;
    if es != [] {
      DirectoryIsFlat(es[1..]);
      assert Records(es)[1..] == Records(es[1..]);
    }
  }

  /** Listed once, and as an ordinary member. */
  ghost predicate IsListedOnce(es: seq<Entry>, decode: Decoder, name: string) {
    exists i :: 0 <= i < |es|
      && Name(es[i], decode) == Some(name) && IsOrdinary(es[i])
      && forall j :: 0 <= j < |es| && Name(es[j], decode) == Some(name) ==> j == i
  }

  lemma WrittenRecords(es: seq<Entry>, decode: Decoder, expected: set<string>)
    requires AllFit(es)
    ensures AllRecords(Records(es))
    ensures forall i :: 0 <= i < |es| ==> NameOf(Records(es)[i], decode) == Name(es[i], decode)
    ensures forall n :: n in expected ==> (ListedOnce(Records(es), decode, n) <==> IsListedOnce(es, decode, n))
    ensures forall i :: 0 <= i < |es| ==>
              MemberOf(Records(es)[i]) == Member(es[i].offset, es[i].size, Central(es[i]))
  {
    forall i | 0 <= i < |es|
      ensures IsRecord(Records(es)[i]) && NameOf(Records(es)[i], decode) == Name(es[i], decode)
      ensures IsSupported(Records(es)[i]) <==> IsOrdinary(es[i])
      ensures MemberOf(Records(es)[i]) == Member(es[i].offset, es[i].size, Central(es[i]))
    {
      CentralRead(es[i], decode);
      OrdinaryIsSupported(es[i], decode);
    }
    var records := Records(es);
    hide Records, Central, IsSupported, IsOrdinary, IsRecord, NameOf, MemberOf, Name;
    forall n | n in expected ensures ListedOnce(records, decode, n) <==> IsListedOnce(es, decode, n) {
      SameListing(es, records, decode, n);
    }
  }

  lemma SameListing(es: seq<Entry>, records: seq<seq<byte>>, decode: Decoder, n: string)
    requires |records| == |es| && AllRecords(records)
    requires forall i :: 0 <= i < |es| ==> NameOf(records[i], decode) == Name(es[i], decode)
    requires forall i :: 0 <= i < |es| ==> (IsSupported(records[i]) <==> IsOrdinary(es[i]))
    ensures ListedOnce(records, decode, n) <==> IsListedOnce(es, decode, n)
  {
    hide IsSupported, IsOrdinary, IsRecord, NameOf, Name;
    assert forall i: nat :: Names(records, i, decode, n) <==> i < |es| && Name(es[i], decode) == Some(n);
    if ListedOnce(records, decode, n) {
      var i: nat :| Names(records, i, decode, n) && IsSupported(records[i])
        && forall j: nat :: Names(records, j, decode, n) ==> j == i;
      assert 0 <= i < |es| && IsOrdinary(es[i]);
      forall j: nat | j < |es| && Name(es[j], decode) == Some(n) ensures j == i {
        assert Names(records, j, decode, n);
      }
    }
    if IsListedOnce(es, decode, n) {
      var i :| 0 <= i < |es| && Name(es[i], decode) == Some(n) && IsOrdinary(es[i])
        && forall j :: 0 <= j < |es| && Name(es[j], decode) == Some(n) ==> j == i;
      assert Names(records, i, decode, n);
    }
  }

  ghost predicate IsReadable(es: seq<Entry>, expected: set<string>, decode: Decoder) {
    && (forall i :: 0 <= i < |es| ==> Name(es[i], decode).Some?)
    && (forall n :: n in expected ==> IsListedOnce(es, decode, n))
  }

  /** Each expected member with its own offset and size, and no other. */
  ghost predicate IsSelectionOf(selected: Selection, es: seq<Entry>, expected: set<string>, decode: Decoder)
    requires AllFit(es)
  {
    && selected.Keys == expected
    && forall i, n :: 0 <= i < |es| && n in expected && Name(es[i], decode) == Some(n) ==>
         selected[n] == Member(es[i].offset, es[i].size, Central(es[i]))
  }

  /** The reader on a directory that is written by the format, with anything behind it: accepted
      if and only if every name decodes and each expected member is listed once, unencrypted,
      stored or deflated, and without ZIP64 fields; then each has its own offset and size. */
  lemma WrittenDirectoryIsRead(es: seq<Entry>, rest: seq<byte>, expected: set<string>, decode: Decoder)
    requires AllFit(es)
    ensures var r := Directory(DirectoryBytes(es) + rest, |es|, expected, decode);
            && (r.Success? <==> IsReadable(es, expected, decode))
            && (r.Success? ==> IsSelectionOf(r.value, es, expected, decode))
  {
    hide Central, Directory, IsRecord, NameOf, Name, ListedOnce, IsListedOnce, DirectoryBytes, MemberOf, Flatten,
         Records;
    WrittenRecords(es, decode, expected);
    DirectoryIsFlat(es);
    var records := Records(es);
    DirectoryOfRecords(records, rest, expected, decode);
    var r := Directory(DirectoryBytes(es) + rest, |es|, expected, decode);
    assert IsReadable(es, expected, decode) <==>
           && (forall i :: 0 <= i < |records| ==> NameOf(records[i], decode).Some?)
           && (forall n :: n in expected ==> ListedOnce(records, decode, n));
    if r.Success? {
      forall i, n | 0 <= i < |es| && n in expected && Name(es[i], decode) == Some(n)
        ensures r.value[n] == Member(es[i].offset, es[i].size, Central(es[i]))
      {
        assert Names(records, i, decode, n);
      }
    }
  }

  /** Why a directory of one expected member is refused. */
  lemma RefusedMember(e: Entry, name: string, decode: Decoder)
    requires Fits(e)
    ensures Directory(Central(e), 1, {name}, decode)
         == if Name(e, decode).None? then Failure(InvalidName)
            else if Name(e, decode).value != name then Failure(MissingMember)
            else if e.flags % 2 == 1 then Failure(Encrypted)
            else if e.compression != 0 && e.compression != 8 then Failure(UnsupportedMethod)
            else if e.disk != 0 || e.size == 0xFFFF_FFFF || e.fullSize == 0xFFFF_FFFF || e.offset == 0xFFFF_FFFF
            then Failure(Zip64)
            else Success(map[name := Member(e.offset, e.size, Central(e))])
  {
    CentralRead(e, decode);
    hide Central, HeaderAt;
    var b := Central(e);
    assert b[0..|b|] == b;
    ScanOfOne(b, 0, |b|, 1, {name}, decode, map[]);
    hide Scan;
    forall more: Selection ensures Scan(b, |b|, 0, {name}, decode, more) == Success(more) {
      ScanOfNone(b, |b|, {name}, decode, more);
    }
  }

  /** What does not begin with a whole record is refused. */
  lemma RefusedBytes(b: seq<byte>, e: Entry, cut: nat, expected: set<string>, decode: Decoder)
    requires Fits(e)
    ensures |b| < 46 || b[..4] != [0x50, 0x4B, 0x01, 0x02] ==>
              Directory(b, 1, expected, decode) == Failure(InvalidDirectory)
    ensures 46 <= cut < |Central(e)| ==> Directory(Central(e)[..cut], 1, expected, decode) == Failure(TruncatedRecord)
  {
    CentralRead(e, decode);
    hide Central;
    if 46 <= |b| {
      assert b[0..4] == b[..4];
    }
    if 46 <= cut < |Central(e)| {
      var c := Central(e)[..cut];
      assert c[0..4] == Central(e)[..4];
      HeaderOfPrefix(Central(e), cut);
      hide HeaderAt;
    }
  }

  lemma HeaderOfPrefix(b: seq<byte>, cut: nat)
    requires 46 <= cut <= |b|
    ensures HeaderAt(b[..cut], 0) == HeaderAt(b, 0)
  {
    assert b[..cut] == b[0..cut];
    LeSlice(b, 0, cut, 8);
    LeSlice(b, 0, cut, 10);
    LeSlice(b, 0, cut, 20);
    LeSlice(b, 0, cut, 24);
    LeSlice(b, 0, cut, 28);
    LeSlice(b, 0, cut, 30);
    LeSlice(b, 0, cut, 32);
    LeSlice(b, 0, cut, 34);
    LeSlice(b, 0, cut, 42);
    hide Le16, Le32;
  }

  // ---------------------------------------------------------------------------
  // Local record, section 4.3.7
  // ---------------------------------------------------------------------------

  function LocalHeader(e: Entry): (b: seq<byte>)
    requires Fits(e)
    ensures |b| == 26
  {
    [0x50, 0x4B, 0x03, 0x04] + Put16(e.needed) + Put16(e.flags) + Put16(e.compression) + Checks(e) + Sizes(e)
  }

  /** The local record: its extra field need not be the central one. */
  function Local(e: Entry, extra: seq<byte>, data: seq<byte>): (b: seq<byte>)
    requires Fits(e) && Fits16(|extra|)
    ensures |b| == 30 + |e.name| + |extra| + |data|
  {
    LocalHeader(e) + Put16(|e.name|) + Put16(|extra|) + e.name + extra + data
  }

  /** Extracting a member at its offset takes exactly its local record: the header, the name,
      the extra field and as many bytes of data as the directory says. */
  lemma LocalRead(before: seq<byte>, e: Entry, extra: seq<byte>, data: seq<byte>, after: seq<byte>, m: Member)
    requires Fits(e) && Fits16(|extra|) && |data| == m.size && |before| == m.offset
    ensures var archive := before + Local(e, extra, data) + after;
            && HasLocalHeader(archive, m.offset) && LocalSize(archive, m) == |Local(e, extra, data)|
            && archive[m.offset..m.offset + LocalSize(archive, m)] == Local(e, extra, data)
  {
    var local, archive := Local(e, extra, data), before + Local(e, extra, data) + after;
    LocalLengths(e, extra, data);
    hide Local, Le16;
    var at := |before|;
    assert archive[at..at + |local|] == local;
    SliceOfSlice(archive, at, at + |local|, 0, 4);
    assert local[..4] == local[0..4];
    LeSlice(archive, at, at + |local|, 26);
    LeSlice(archive, at, at + |local|, 28);
  }

  lemma LocalLengths(e: Entry, extra: seq<byte>, data: seq<byte>)
    requires Fits(e) && Fits16(|extra|)
    ensures var b := Local(e, extra, data);
            Le16(b, 26) == |e.name| && Le16(b, 28) == |extra| && b[..4] == [0x50, 0x4B, 0x03, 0x04]
  {
    var head, rest := LocalHeader(e), e.name + extra + data;
    assert head[..4] == [0x50, 0x4B, 0x03, 0x04];
    hide LocalHeader;
    var name, more := Put16(|e.name|), Put16(|extra|);
    Field16(head, |e.name|, more + rest);
    Field16(head + name, |extra|, rest);
    hide Put16, Le16;
    assert Local(e, extra, data) == head + name + (more + rest) == head + name + more + rest;
  }

  // ---------------------------------------------------------------------------
  // End record, section 4.3.16
  // ---------------------------------------------------------------------------

  datatype End = End(disk: nat, start: nat, here: nat, total: nat, size: nat, offset: nat, comment: seq<byte>)

  predicate EndFits(e: End) {
    && Fits16(e.disk) && Fits16(e.start) && Fits16(e.here) && Fits16(e.total) && Fits32(e.size) && Fits32(e.offset)
    && Fits16(|e.comment|)
  }

  function Counts(e: End): (b: seq<byte>)
    requires EndFits(e)
    ensures |b| == 12
  {
    [0x50, 0x4B, 0x05, 0x06] + Put16(e.disk) + Put16(e.start) + Put16(e.here) + Put16(e.total)
  }

  function EndBytes(e: End): (b: seq<byte>)
    requires EndFits(e)
    ensures |b| == 22 + |e.comment|
  {
    Counts(e) + Put32(e.size) + Put32(e.offset) + Put16(|e.comment|) + e.comment
  }

  lemma CountsRead(e: End)
    requires EndFits(e)
    ensures Le16(Counts(e), 4) == e.disk && Le16(Counts(e), 6) == e.start
    ensures Le16(Counts(e), 8) == e.here && Le16(Counts(e), 10) == e.total
    ensures Counts(e)[..4] == [0x50, 0x4B, 0x05, 0x06]
  {
    var mark: seq<byte> := [0x50, 0x4B, 0x05, 0x06];
    var disk, start, here, total := Put16(e.disk), Put16(e.start), Put16(e.here), Put16(e.total);
    Field16(mark, e.disk, start + here + total);
    Field16(mark + disk, e.start, here + total);
    Field16(mark + disk + start, e.here, total);
    Field16(mark + disk + start + here, e.total, []);
    hide Put16, Le16;
    assert Counts(e) == mark + disk + (start + here + total) == mark + disk + start + (here + total)
                     == mark + disk + start + here + total + [];
  }

  /** What is taken for an end record: the signature, eighteen more bytes, and a comment of the
      length in the last two of them, up to the end. */
  lemma EndInWords(t: seq<byte>, p: nat)
    ensures IsEndRecord(t, p)
       <==> && p + 22 <= |t| && t[p..p + 4] == [0x50, 0x4B, 0x05, 0x06]
            && |t| == p + 22 + t[p + 20] as nat + 0x100 * t[p + 21] as nat
  {
    if p + 22 <= |t| {
      assert t[p..p + 4] == [t[p], t[p + 1], t[p + 2], t[p + 3]];
    }
  }

  /** And for a local record: the signature and twenty-six more bytes. */
  lemma LocalInWords(archive: seq<byte>, offset: nat)
    ensures HasLocalHeader(archive, offset)
       <==> offset + 30 <= |archive| && archive[offset..offset + 4] == [0x50, 0x4B, 0x03, 0x04]
  {}

  lemma EndRead(before: seq<byte>, e: End)
    requires EndFits(e)
    ensures var z, p := before + EndBytes(e), |before|;
            && IsEndRecord(z, p)
            && Le16(z, p + 4) == e.disk && Le16(z, p + 6) == e.start && Le16(z, p + 8) == e.here
            && Le16(z, p + 10) == e.total && Le32(z, p + 12) == e.size && Le32(z, p + 16) == e.offset
  {
    var z, p, b := before + EndBytes(e), |before|, EndBytes(e);
    CountsRead(e);
    EndTail(e);
    hide Counts, EndBytes, Le16, Le32;
    assert z[p..|z|] == b && b[0..12] == Counts(e);
    LeSlice(b, 0, 12, 4);
    LeSlice(b, 0, 12, 6);
    LeSlice(b, 0, 12, 8);
    LeSlice(b, 0, 12, 10);
    LeSlice(z, p, |z|, 4);
    LeSlice(z, p, |z|, 6);
    LeSlice(z, p, |z|, 8);
    LeSlice(z, p, |z|, 10);
    LeSlice(z, p, |z|, 12);
    LeSlice(z, p, |z|, 16);
    LeSlice(z, p, |z|, 20);
    assert b[..4] == Counts(e)[..4];
    assert z[p] == b[..4][0] && z[p + 1] == b[..4][1] && z[p + 2] == b[..4][2] && z[p + 3] == b[..4][3];
  }

  lemma EndTail(e: End)
    requires EndFits(e)
    ensures var b := EndBytes(e);
            && b[0..12] == Counts(e) && Le32(b, 12) == e.size && Le32(b, 16) == e.offset && Le16(b, 20) == |e.comment|
  {
    var counts, size, offset, length := Counts(e), Put32(e.size), Put32(e.offset), Put16(|e.comment|);
    hide Counts;
    Field32(counts, e.size, offset + length + e.comment);
    Field32(counts + size, e.offset, length + e.comment);
    Field16(counts + size + offset, |e.comment|, e.comment);
    hide Put16, Put32, Le16, Le32;
    assert EndBytes(e) == counts + size + (offset + length + e.comment) == counts + size + offset + (length + e.comment)
                       == counts + size + offset + length + e.comment;
  }

  // ---------------------------------------------------------------------------
  // Archives
  // ---------------------------------------------------------------------------

  /** Local records, the directory, anything that the format allows behind it, the end record. */
  function Archive(locals: seq<byte>, es: seq<Entry>, between: seq<byte>, end: End): seq<byte>
    requires AllFit(es) && EndFits(end)
  {
    locals + DirectoryBytes(es) + between + EndBytes(end)
  }

  /** What the reader answers for an archive with this directory and end record. An archive of
      several disks, or one whose counts say ZIP64, is refused, and so is an empty directory; any
      other is read as its directory. */
  ghost predicate IsAnswerFor(r: Result<Selection, RemoteZip.Error>, es: seq<Entry>, end: End, expected: set<string>,
                              decode: Decoder)
    requires AllFit(es)
  {
    if || end.disk != 0 || end.start != 0 || end.here != end.total || end.total == 0xFFFF
       || end.size == 0xFFFF_FFFF || end.offset == 0xFFFF_FFFF
    then r == Failure(MultiDisk)
    else if es == [] then r == Failure(InvalidRange)
    else (r.Success? <==> IsReadable(es, expected, decode))
         && (r.Success? ==> IsSelectionOf(r.value, es, expected, decode))
  }

  /** The reader at the end record of a whole archive. */
  lemma WrittenArchiveIsRead(locals: seq<byte>, es: seq<Entry>, between: seq<byte>, end: End, expected: set<string>,
                             decode: Decoder)
    requires AllFit(es) && EndFits(end)
    requires end.total == |es| && end.size == |DirectoryBytes(es)| && end.offset == |locals|
    ensures var archive, p := Archive(locals, es, between, end), |locals + DirectoryBytes(es) + between|;
            && IsEndRecord(archive, p) && (end.comment == [] ==> GreatestEndRecord(archive, p))
            && IsAnswerFor(DirectoryAt(archive, p, expected, decode), es, end, expected, decode)
  {
    hide EndBytes, Le16, Le32, Directory, IsReadable, IsSelectionOf, DirectoryBytes, IsEndRecord, DirectoryAt,
         IsAnswerFor;
    var directory := DirectoryBytes(es);
    var before := locals + directory + between;
    var archive := Archive(locals, es, between, end);
    EndRead(before, end);
    assert archive == before + EndBytes(end);
    assert archive[|locals|..|locals| + |directory|] == directory;
    AnswerAt(archive, |before|, es, end, expected, decode);
    EndRecordNeedsRoom(archive);
  }

  lemma EndRecordNeedsRoom(archive: seq<byte>)
    ensures forall q: nat :: IsEndRecord(archive, q) ==> q + 22 <= |archive|
  {}

  lemma AnswerAt(archive: seq<byte>, p: nat, es: seq<Entry>, end: End, expected: set<string>, decode: Decoder)
    requires AllFit(es) && p + 22 <= |archive| && end.total == |es| && end.size == |DirectoryBytes(es)|
    requires end.offset + end.size <= |archive|
    requires archive[end.offset..end.offset + end.size] == DirectoryBytes(es)
    requires Le16(archive, p + 4) == end.disk && Le16(archive, p + 6) == end.start
    requires Le16(archive, p + 8) == end.here && Le16(archive, p + 10) == end.total
    requires Le32(archive, p + 12) == end.size && Le32(archive, p + 16) == end.offset
    ensures IsAnswerFor(DirectoryAt(archive, p, expected, decode), es, end, expected, decode)
  {
    hide Le16, Le32, Directory, IsReadable, IsSelectionOf, DirectoryBytes, AllFit;
    WrittenDirectoryIsRead(es, [], expected, decode);
    DirectoryIsSomething(es);
    assert DirectoryBytes(es) + [] == DirectoryBytes(es);
    assert Directory(DirectoryBytes(es), |es|, expected, decode).Success? <==> IsReadable(es, expected, decode);
    assert archive[end.offset..end.offset + end.size] + [] == DirectoryBytes(es);
  }

  lemma DirectoryIsSomething(es: seq<Entry>)
    requires AllFit(es)
    ensures DirectoryBytes(es) == [] <==> es == []
  {}
}
