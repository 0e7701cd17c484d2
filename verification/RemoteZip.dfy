/** common/godot_steps.py: reading one member of a remote ZIP with bounded ranges.

    The server holds `archive`; every range request returns exactly the requested
    slice or fails. Records follow PKWARE APPNOTE.TXT sections 4.3.7 (local header),
    4.3.12 (central header) and 4.3.16 (end of central directory). */
module RemoteZip {
  import opened Common
  import opened Slices
  import opened Bytes

  const TAIL_SIZE := 0x2_0000
  const MAX_SIZE := 0xFFFF_FFFF

  const CENTRAL_SIGNATURE: seq<byte> := [0x50, 0x4B, 0x01, 0x02]
  const LOCAL_SIGNATURE: seq<byte> := [0x50, 0x4B, 0x03, 0x04]

  datatype Error =
    | NoEndRecord | InvalidDirectory | TruncatedRecord | InvalidName
    | Encrypted | UnsupportedMethod | Duplicate | Zip64 | MissingMember
    | BadSize | MultiDisk | InvalidRange | InvalidOffset | InvalidHeader | TruncatedMember

  /** Local offset, compressed size and verbatim central record of a member. */
  datatype Member = Member(offset: nat, size: nat, record: seq<byte>)

  /** The text codec of a name: UTF-8 when the flag is true, CP437 otherwise. */
  type Decoder = (bool, seq<byte>) -> Option<string>

  // ---------------------------------------------------------------------------
  // End record
  // ---------------------------------------------------------------------------

  predicate SignatureAt(t: seq<byte>, p: nat) {
    p + 4 <= |t| && t[p] == 0x50 && t[p + 1] == 0x4B && t[p + 2] == 0x05 && t[p + 3] == 0x06
  }

  /** A signature at `p` whose comment ends exactly where the sequence ends. */
  predicate IsEndRecord(t: seq<byte>, p: nat) {
    SignatureAt(t, p) && p + 22 <= |t| && p + 22 + Le16(t, p + 20) == |t|
  }

  /** `p` is the greatest index that holds an end record. */
  ghost predicate GreatestEndRecord(t: seq<byte>, p: nat) {
    IsEndRecord(t, p) && forall q: nat :: IsEndRecord(t, q) ==> q <= p
  }

  /** `tail.rfind(signature, 0, end)`. */
  method FindSignatureBefore(t: seq<byte>, end: nat) returns (p: int)
    requires end <= |t|
    ensures p == -1 || (0 <= p && p + 4 <= end && SignatureAt(t, p))
    ensures forall q: nat :: p < q && q + 4 <= end ==> !SignatureAt(t, q)
  {
    p := end - 4;
    while 0 <= p
      invariant p + 4 <= end
      invariant forall q: nat :: p < q && q + 4 <= end ==> !SignatureAt(t, q)
    {
      if SignatureAt(t, p) {
        return;
      }
      p := p - 1;
    }
    p := -1;
  }

  /** `_find_zip_end_record`. The cut at `position` could only hide a candidate that
      overlaps a signature, and the signature does not overlap itself. */
  method FindEndRecord(tail: seq<byte>) returns (r: Result<nat, Error>)
    ensures r.Success? ==> GreatestEndRecord(tail, r.value)
    ensures r.Failure? ==> r.error == NoEndRecord && forall q: nat :: !IsEndRecord(tail, q)
  {
    var searchEnd: nat := |tail|;
    while true
      invariant searchEnd <= |tail|
      invariant forall q: nat :: searchEnd < q + 4 ==> !IsEndRecord(tail, q)
      decreases searchEnd
    {
      var position := FindSignatureBefore(tail, searchEnd);
      if position < 0 {
        return Failure(NoEndRecord);
      }
      if position + 22 <= |tail| {
        var commentLength := Le16(tail, position + 20);
        if position + 22 + commentLength == |tail| {
          return Success(position);
        }
      }
      searchEnd := position;
    }
  }

  /** An end record read at `start + q` of the archive is the one read at `q` of its tail. */
  lemma EndRecordInTail(archive: seq<byte>, start: nat, q: nat)
    requires start <= |archive|
    ensures IsEndRecord(archive[start..], q) <==> IsEndRecord(archive, start + q)
  {
    LeSlice(archive, start, |archive|, q + 20);
  }

  function TailStart(size: nat): nat {
    if size <= TAIL_SIZE then 0 else size - TAIL_SIZE
  }

  /** Searching the last 128 KiB answers for the whole archive: a record is 22 bytes
      and its comment at most 65535, so none starts before the tail. */
  lemma TailAnswersForArchive(archive: seq<byte>, p: nat)
    ensures var start := TailStart(|archive|);
            GreatestEndRecord(archive, p) <==>
            start <= p && GreatestEndRecord(archive[start..], p - start)
    ensures var start := TailStart(|archive|);
            (forall q: nat :: !IsEndRecord(archive[start..], q)) ==> !IsEndRecord(archive, p)
  {
    var start := TailStart(|archive|);
    var tail := archive[start..];
    forall q: nat | IsEndRecord(archive, q)
      ensures start <= q && IsEndRecord(tail, q - start)
    {
      EndRecordInTail(archive, start, q - start);
    }
    forall q: nat | IsEndRecord(tail, q)
      ensures IsEndRecord(archive, start + q)
    {
      EndRecordInTail(archive, start, q);
    }
    if GreatestEndRecord(archive, p) {
      assert forall q: nat :: IsEndRecord(tail, q) ==> start + q <= p;
    }
    if start <= p && GreatestEndRecord(tail, p - start) {
      assert IsEndRecord(archive, start + (p - start));
    }
  }

  // ---------------------------------------------------------------------------
  // Central directory
  // ---------------------------------------------------------------------------

  predicate HasCentralHeader(b: seq<byte>) {
    46 <= |b| && b[..4] == CENTRAL_SIGNATURE
  }

  /** The fixed fields of a central header that the reader looks at. */
  datatype Header = Header(flags: nat, compression: nat, size: nat, fullSize: nat, nameLength: nat,
                           extraLength: nat, commentLength: nat, disk: nat, offset: nat)
  {
    function Length(): nat { 46 + nameLength + extraLength + commentLength }

    predicate Encrypted() { flags % 2 == 1 }

    predicate Utf8() { flags / 0x800 % 2 == 1 }

    predicate Readable() { compression == 0 || compression == 8 }

    predicate Zip64() {
      disk != 0 || size == 0xFFFF_FFFF || fullSize == 0xFFFF_FFFF || offset == 0xFFFF_FFFF
    }
  }

  function HeaderAt(b: seq<byte>, at: nat): Header
    requires at + 46 <= |b|
  {
    Header(Le16(b, at + 8), Le16(b, at + 10), Le32(b, at + 20), Le32(b, at + 24), Le16(b, at + 28),
           Le16(b, at + 30), Le16(b, at + 32), Le16(b, at + 34), Le32(b, at + 42))
  }

  function RecordLength(b: seq<byte>): nat
    requires 46 <= |b|
  {
    HeaderAt(b, 0).Length()
  }

  /** One whole central record: fixed header, name, extra field and comment. */
  predicate IsRecord(rec: seq<byte>) {
    HasCentralHeader(rec) && |rec| == RecordLength(rec)
  }

  function NameOf(rec: seq<byte>, decode: Decoder): Option<string>
    requires IsRecord(rec)
  {
    decode(HeaderAt(rec, 0).Utf8(), rec[46..46 + HeaderAt(rec, 0).nameLength])
  }

  function MemberOf(rec: seq<byte>): Member
    requires IsRecord(rec)
  {
    Member(HeaderAt(rec, 0).offset, HeaderAt(rec, 0).size, rec)
  }

  predicate IsSupported(rec: seq<byte>)
    requires IsRecord(rec)
  {
    var h := HeaderAt(rec, 0);
    !h.Encrypted() && h.Readable() && !h.Zip64()
  }

  type Selection = map<string, Member>

  /** What a record with this header and name does to the selection so far. */
  function AdmitHeader(h: Header, name: Option<string>, rec: seq<byte>, expected: set<string>,
                       selected: Selection): Result<Selection, Error>
  {
    if name.None? then Failure(InvalidName)
    else if name.value !in expected then Success(selected)
    else if h.Encrypted() then Failure(Encrypted)
    else if !h.Readable() then Failure(UnsupportedMethod)
    else if name.value in selected then Failure(Duplicate)
    else if h.Zip64() then Failure(Zip64)
    else Success(selected[name.value := Member(h.offset, h.size, rec)])
  }

  function Admit(rec: seq<byte>, expected: set<string>, decode: Decoder, selected: Selection)
    : Result<Selection, Error>
    requires IsRecord(rec)
  {
    AdmitHeader(HeaderAt(rec, 0), NameOf(rec, decode), rec, expected, selected)
  }

  /** The records from byte `at` on, `count` of them. */
  function Scan(b: seq<byte>, at: nat, count: nat, expected: set<string>, decode: Decoder, selected: Selection)
    : Result<Selection, Error>
    requires at <= |b|
    decreases count
  {
    if count == 0 then Success(selected)
    else if |b| < at + 46 || b[at..at + 4] != CENTRAL_SIGNATURE then Failure(InvalidDirectory)
    else
      var h := HeaderAt(b, at);
      var end := at + h.Length();
      if |b| < end then Failure(TruncatedRecord)
      else
        var name := decode(h.Utf8(), b[at + 46..at + 46 + h.nameLength]);
        match AdmitHeader(h, name, b[at..end], expected, selected)
        case Failure(e) => Failure(e)
        case Success(more) => Scan(b, end, count - 1, expected, decode, more)
  }

  /** The directory's meaning: every expected member, or the first reason to refuse. */
  function Directory(b: seq<byte>, count: nat, expected: set<string>, decode: Decoder)
    : Result<Selection, Error>
  {
    match Scan(b, 0, count, expected, decode, map[])
    case Failure(e) => Failure(e)
    case Success(selected) =>
      if expected <= selected.Keys then Success(selected) else Failure(MissingMember)
  }

  /** `_parse_zip_central_directory`, with every read in bounds. */
  method ParseCentralDirectory(b: seq<byte>, totalEntries: nat, expected: set<string>, decode: Decoder)
    returns (r: Result<Selection, Error>)
    ensures r == Directory(b, totalEntries, expected, decode)
  {
    hide Le16, Le32;
    var selected: Selection := map[];
    var position: nat := 0;
    for index := 0 to totalEntries
      invariant position <= |b|
      invariant Scan(b, position, totalEntries - index, expected, decode, selected)
             == Scan(b, 0, totalEntries, expected, decode, map[])
    {
      if |b| < position + 46 || b[position..position + 4] != CENTRAL_SIGNATURE {
        return Failure(InvalidDirectory);
      }
      var h := HeaderAt(b, position);
      var recordEnd := position + h.Length();
      if |b| < recordEnd {
        return Failure(TruncatedRecord);
      }
      var name := decode(h.Utf8(), b[position + 46..position + 46 + h.nameLength]);
      var admitted := AdmitHeader(h, name, b[position..recordEnd], expected, selected);
      if admitted.Failure? {
        return Failure(admitted.error);
      }
      selected := admitted.value;
      position := recordEnd;
    }
    if !(expected <= selected.Keys) {
      return Failure(MissingMember);
    }
    return Success(selected);
  }

  function Flatten(records: seq<seq<byte>>): seq<byte> {
    if records == [] then [] else records[0] + Flatten(records[1..])
  }

  ghost predicate AllRecords(records: seq<seq<byte>>) {
    forall i :: 0 <= i < |records| ==> IsRecord(records[i])
  }

  /** The records admitted one after the other, without any byte positions. */
  function AdmitAll(records: seq<seq<byte>>, expected: set<string>, decode: Decoder, selected: Selection)
    : Result<Selection, Error>
    requires AllRecords(records)
  {
    if records == [] then Success(selected)
    else
      match Admit(records[0], expected, decode, selected)
      case Failure(e) => Failure(e)
      case Success(more) => AdmitAll(records[1..], expected, decode, more)
  }

  /** A record cut out of a longer sequence reads the same there. */
  lemma RecordInPlace(b: seq<byte>, at: nat, end: nat)
    requires at + 46 <= end <= |b|
    ensures HeaderAt(b[at..end], 0) == HeaderAt(b, at)
    ensures HasCentralHeader(b[at..end]) <==> b[at..at + 4] == CENTRAL_SIGNATURE
    ensures var n := HeaderAt(b, at).nameLength;
            at + 46 + n <= end ==> b[at..end][46..46 + n] == b[at + 46..at + 46 + n]
  {
    var rec := b[at..end];
    assert rec[..4] == b[at..at + 4];
    LeSlice(b, at, end, 42);
    var n := HeaderAt(b, at).nameLength;
    if at + 46 + n <= end {
      SliceOfSlice(b, at, end, 46, 46 + n);
    }
  }

  /** Scanning a concatenation of records, whatever precedes and follows it, admits
      those records. */
  lemma {:induction false} ScanOfRecords(b: seq<byte>, at: nat, records: seq<seq<byte>>,
                                         expected: set<string>, decode: Decoder, selected: Selection)
    requires AllRecords(records)
    requires at + |Flatten(records)| <= |b| && b[at..at + |Flatten(records)|] == Flatten(records)
    ensures Scan(b, at, |records|, expected, decode, selected)
         == AdmitAll(records, expected, decode, selected)
    decreases |records|
  {
    hide Scan, IsRecord, Admit;
    if records == [] {
      ScanOfNone(b, at, expected, decode, selected);
    } else {
      var rec, end := records[0], at + |records[0]|;
      assert Flatten(records) == rec + Flatten(records[1..]);
      FlattenInPlace(b, at, rec, Flatten(records[1..]));
      hide Flatten;
      ScanOfOne(b, at, end, |records|, expected, decode, selected);
      var admitted := Admit(rec, expected, decode, selected);
      if admitted.Success? {
        ScanOfRecords(b, end, records[1..], expected, decode, admitted.value);
      }
    }
  }

  lemma ScanOfNone(b: seq<byte>, at: nat, expected: set<string>, decode: Decoder, selected: Selection)
    requires at <= |b|
    ensures Scan(b, at, 0, expected, decode, selected) == Success(selected)
  {}

  lemma FlattenInPlace(b: seq<byte>, at: nat, first: seq<byte>, rest: seq<byte>)
    requires at + |first + rest| <= |b| && b[at..at + |first + rest|] == first + rest
    ensures b[at..at + |first|] == first
    ensures b[at + |first|..at + |first| + |rest|] == rest
  {
    var all := b[at..at + |first + rest|];
    assert b[at..at + |first|] == all[..|first|] == first;
    assert b[at + |first|..at + |first| + |rest|] == all[|first|..] == rest;
  }

  lemma ScanOfOne(b: seq<byte>, at: nat, end: nat, count: nat, expected: set<string>, decode: Decoder,
                  selected: Selection)
    requires at <= end <= |b| && count > 0 && IsRecord(b[at..end])
    ensures Scan(b, at, count, expected, decode, selected)
         == match Admit(b[at..end], expected, decode, selected)
            case Failure(e) => Failure(e)
            case Success(more) => Scan(b, end, count - 1, expected, decode, more)
  {
    hide Le16, Le32, HeaderAt, AdmitHeader;
    var rec := b[at..end];
    RecordInPlace(b, at, end);
    var h := HeaderAt(b, at);
    assert end == at + h.Length() && HeaderAt(rec, 0) == h;
    assert NameOf(rec, decode) == decode(h.Utf8(), b[at + 46..at + 46 + h.nameLength]);
    hide NameOf, IsRecord, RecordLength, HasCentralHeader;
  }

  lemma ScannedRecord(b: seq<byte>, at: nat, count: nat, expected: set<string>, decode: Decoder, selected: Selection)
    requires at <= |b| && count > 0 && Scan(b, at, count, expected, decode, selected).Success?
    ensures at + 46 <= |b|
    ensures var end := at + HeaderAt(b, at).Length();
            end <= |b| && IsRecord(b[at..end])
  {
    hide Le16, Le32, HeaderAt, AdmitHeader;
    var end := at + HeaderAt(b, at).Length();
    assert end <= |b|;
    hide Scan;
    RecordInPlace(b, at, end);
  }

  /** Conversely, whatever a scan accepts is that many whole records in a row. */
  lemma {:induction false} ScanReadsRecords(b: seq<byte>, at: nat, count: nat, expected: set<string>,
                                            decode: Decoder, selected: Selection)
    returns (records: seq<seq<byte>>)
    requires at <= |b| && Scan(b, at, count, expected, decode, selected).Success?
    ensures |records| == count && AllRecords(records)
    ensures at + |Flatten(records)| <= |b| && b[at..at + |Flatten(records)|] == Flatten(records)
    ensures Scan(b, at, count, expected, decode, selected) == AdmitAll(records, expected, decode, selected)
    decreases count
  {
    hide Le16, Le32;
    if count == 0 {
      records := [];
    } else {
      ScannedRecord(b, at, count, expected, decode, selected);
      var end := at + HeaderAt(b, at).Length();
      var rec := b[at..end];
      ScanOfOne(b, at, end, count, expected, decode, selected);
      hide Scan, IsRecord, Admit, HeaderAt;
      var admitted := Admit(rec, expected, decode, selected);
      var more := ScanReadsRecords(b, end, count - 1, expected, decode, admitted.value);
      records := [rec] + more;
      assert records[1..] == more;
    }
  }

  ghost predicate Names(records: seq<seq<byte>>, i: nat, decode: Decoder, name: string)
    requires AllRecords(records)
  {
    i < |records| && NameOf(records[i], decode) == Some(name)
  }

  /** Every name decodes, expected names are new and supported, and none repeats. */
  ghost predicate Admissible(records: seq<seq<byte>>, expected: set<string>, decode: Decoder,
                             selected: Selection)
    requires AllRecords(records)
  {
    && (forall i :: 0 <= i < |records| ==> NameOf(records[i], decode).Some?)
    && (forall i: nat, n :: n in expected && Names(records, i, decode, n) ==>
          IsSupported(records[i]) && n !in selected)
    && (forall i: nat, j: nat, n :: n in expected && Names(records, i, decode, n) && Names(records, j, decode, n)
          ==> i == j)
  }

  /** Names of the later records, by their index in the whole list. */
  lemma NamesShift(records: seq<seq<byte>>, i: nat, decode: Decoder, name: string)
    requires AllRecords(records) && records != []
    ensures Names(records[1..], i, decode, name) <==> Names(records, i + 1, decode, name)
  {
  }

  lemma AdmissibleStep(records: seq<seq<byte>>, expected: set<string>, decode: Decoder, selected: Selection)
    requires AllRecords(records) && records != []
    requires Admit(records[0], expected, decode, selected).Success?
    ensures var more := Admit(records[0], expected, decode, selected).value;
            Admissible(records[1..], expected, decode, more) <==> Admissible(records, expected, decode, selected)
  {
    hide Le16, Le32, HeaderAt, NameOf, RecordLength;
    var more := Admit(records[0], expected, decode, selected).value;
    var rest := records[1..];
    var name := NameOf(records[0], decode).value;
    forall i: nat, n ensures Names(rest, i, decode, n) <==> Names(records, i + 1, decode, n) {
      NamesShift(records, i, decode, n);
    }
    assert Names(records, 0, decode, name);
    if Admissible(rest, expected, decode, more) {
      forall i: nat, n | n in expected && Names(records, i, decode, n)
        ensures IsSupported(records[i]) && n !in selected
      {
        assert i == 0 || Names(rest, i - 1, decode, n);
      }
      forall i: nat, j: nat, n | n in expected && Names(records, i, decode, n) && Names(records, j, decode, n)
        ensures i == j
      {
        assert i == 0 || Names(rest, i - 1, decode, n);
        assert j == 0 || Names(rest, j - 1, decode, n);
      }
      forall i | 0 <= i < |records| ensures NameOf(records[i], decode).Some? {
        assert i == 0 || records[i] == rest[i - 1];
      }
    }
    if Admissible(records, expected, decode, selected) {
      forall i: nat, n | n in expected && Names(rest, i, decode, n)
        ensures IsSupported(rest[i]) && n !in more
      {
        assert Names(records, i + 1, decode, n);
      }
    }
  }

  /** Admitting succeeds exactly on admissible records, and then the selection is
      what was there before plus, under each expected name, the record of that name. */
  lemma {:induction false} AdmitAllExactly(records: seq<seq<byte>>, expected: set<string>,
                                           decode: Decoder, selected: Selection)
    requires AllRecords(records)
    ensures AdmitAll(records, expected, decode, selected).Success?
       <==> Admissible(records, expected, decode, selected)
    ensures var r := AdmitAll(records, expected, decode, selected);
            r.Success? ==>
              && (forall n :: n in selected ==> n in r.value && r.value[n] == selected[n])
              && (forall n :: n in r.value && n !in selected ==>
                    n in expected && exists i: nat :: Names(records, i, decode, n))
              && (forall i: nat, n :: n in expected && Names(records, i, decode, n) ==>
                    n in r.value && r.value[n] == MemberOf(records[i]))
  {
    hide Le16, Le32, HeaderAt, NameOf, RecordLength;
    if records != [] {
      var rest := records[1..];
      var name := NameOf(records[0], decode);
      assert name.Some? ==> Names(records, 0, decode, name.value);
      var admitted := Admit(records[0], expected, decode, selected);
      if admitted.Success? {
        AdmitAllExactly(rest, expected, decode, admitted.value);
        AdmissibleStep(records, expected, decode, selected);
        var r := AdmitAll(records, expected, decode, selected);
        if r.Success? {
          forall i: nat, n | n in expected && Names(records, i, decode, n)
            ensures n in r.value && r.value[n] == MemberOf(records[i])
          {
            if i != 0 {
              NamesShift(records, i - 1, decode, n);
            }
          }
          forall n | n in r.value && n !in selected
            ensures n in expected && exists i: nat :: Names(records, i, decode, n)
          {
            if n in admitted.value {
              assert Names(records, 0, decode, n);
            } else {
              var i: nat :| Names(rest, i, decode, n);
              NamesShift(records, i, decode, n);
            }
          }
        }
      }
    }
  }

  /** Exactly one record carries the name, and the reader can read it. */
  ghost predicate ListedOnce(records: seq<seq<byte>>, decode: Decoder, name: string)
    requires AllRecords(records)
  {
    exists i: nat ::
      && Names(records, i, decode, name) && IsSupported(records[i])
      && forall j: nat :: Names(records, j, decode, name) ==> j == i
  }

  lemma DirectoryIsAdmission(records: seq<seq<byte>>, rest: seq<byte>, expected: set<string>, decode: Decoder)
    requires AllRecords(records)
    ensures var r := Directory(Flatten(records) + rest, |records|, expected, decode);
            var admitted := AdmitAll(records, expected, decode, map[]);
            && (r.Success? <==> admitted.Success? && expected <= admitted.value.Keys)
            && (r.Success? ==> r == admitted)
  {
    var b := Flatten(records) + rest;
    assert b[0..|Flatten(records)|] == Flatten(records);
    ScanOfRecords(b, 0, records, expected, decode, map[]);
    hide Flatten, AdmitAll, Scan;
  }

  /** The parser against the record list: it accepts exactly when every name decodes
      and each expected name is listed once and readable, and then it returns those
      members, each with its own offset, size and verbatim record, and nothing else. */
  lemma DirectoryOfRecords(records: seq<seq<byte>>, rest: seq<byte>, expected: set<string>, decode: Decoder)
    requires AllRecords(records)
    ensures var r := Directory(Flatten(records) + rest, |records|, expected, decode);
            && (r.Success? <==>
                  && (forall i :: 0 <= i < |records| ==> NameOf(records[i], decode).Some?)
                  && (forall n :: n in expected ==> ListedOnce(records, decode, n)))
            && (r.Success? ==>
                  && r.value.Keys == expected
                  && forall i: nat, n :: n in expected && Names(records, i, decode, n) ==>
                       r.value[n] == MemberOf(records[i]))
  {
    hide Le16, Le32, HeaderAt, NameOf, RecordLength;
    var b := Flatten(records) + rest;
    DirectoryIsAdmission(records, rest, expected, decode);
    AdmitAllExactly(records, expected, decode, map[]);
    var admitted := AdmitAll(records, expected, decode, map[]);
    hide Flatten, AdmitAll, Directory, IsRecord, MemberOf;
    if Directory(b, |records|, expected, decode).Success? {
      forall n | n in expected ensures ListedOnce(records, decode, n) {
        var i: nat :| Names(records, i, decode, n);
      }
    }
    if && (forall i :: 0 <= i < |records| ==> NameOf(records[i], decode).Some?)
       && (forall n :: n in expected ==> ListedOnce(records, decode, n)) {
      assert Admissible(records, expected, decode, map[]);
      forall n | n in expected ensures n in admitted.value {
        var i: nat :| Names(records, i, decode, n);
      }
    }
  }

  /** Whatever the parser accepts is a concatenation of whole records, read as above. */
  lemma AcceptedDirectoryIsRecords(b: seq<byte>, count: nat, expected: set<string>, decode: Decoder)
    returns (records: seq<seq<byte>>)
    requires Directory(b, count, expected, decode).Success?
    ensures |records| == count && AllRecords(records) && Flatten(records) <= b
    ensures forall n :: n in expected ==> ListedOnce(records, decode, n)
  {
    records := ScanReadsRecords(b, 0, count, expected, decode, map[]);
    var rest := b[|Flatten(records)|..];
    assert b == b[0..|Flatten(records)|] + rest;
    DirectoryOfRecords(records, rest, expected, decode);
  }

  // ---------------------------------------------------------------------------
  // Ranged reads
  // ---------------------------------------------------------------------------

  /** `_download_https_range`: exactly the requested bytes, or an error. */
  method DownloadRange(archive: seq<byte>, first: nat, last: int) returns (r: Result<seq<byte>, Error>)
    ensures r == if first <= last < |archive| then Success(archive[first..last + 1])
                 else Failure(InvalidRange)
  {
    if last < first || |archive| <= last {
      return Failure(InvalidRange);
    }
    return Success(archive[first..last + 1]);
  }

  /** The directory that an end record at `p` points to, read from the whole archive. */
  function DirectoryAt(archive: seq<byte>, p: nat, expected: set<string>, decode: Decoder)
    : Result<Selection, Error>
    requires p + 22 <= |archive|
  {
    var total, size, offset := Le16(archive, p + 10), Le32(archive, p + 12), Le32(archive, p + 16);
    if || Le16(archive, p + 4) != 0 || Le16(archive, p + 6) != 0 || Le16(archive, p + 8) != total
       || total == 0xFFFF || size == 0xFFFF_FFFF || offset == 0xFFFF_FFFF then Failure(MultiDisk)
    else if size <= 0 || |archive| < offset + size then Failure(InvalidRange)
    else Directory(archive[offset..offset + size], total, expected, decode)
  }

  /** The second half of `_read_remote_zip_directory`: whether the directory lies inside
      the tail or has to be fetched, it is the same slice of the archive. */
  method ReadDirectoryAt(archive: seq<byte>, tailStart: nat, end: nat, expected: set<string>, decode: Decoder)
    returns (r: Result<Selection, Error>)
    requires tailStart + end + 22 <= |archive|
    ensures r == DirectoryAt(archive, tailStart + end, expected, decode)
  {
    hide Le16, Le32, Directory;
    var tail := archive[tailStart..];
    TailFields(archive, tailStart, end, tailStart + end);
    var total, size, offset := Le16(tail, end + 10), Le32(tail, end + 12), Le32(tail, end + 16);
    if || Le16(tail, end + 4) != 0 || Le16(tail, end + 6) != 0 || Le16(tail, end + 8) != total
       || total == 0xFFFF || size == 0xFFFF_FFFF || offset == 0xFFFF_FFFF {
      return Failure(MultiDisk);
    }
    if size <= 0 || |archive| < offset + size {
      return Failure(InvalidRange);
    }
    var central: seq<byte>;
    var relative := offset - tailStart;
    if 0 <= relative && relative + size <= |tail| {
      central := tail[relative..relative + size];
      SliceOfSlice(archive, tailStart, |archive|, relative, relative + size);
    } else {
      var download := DownloadRange(archive, offset, offset + size - 1);
      central := download.value;
    }
    assert central == archive[offset..offset + size];
    r := ParseCentralDirectory(central, total, expected, decode);
  }

  /** `_read_remote_zip_directory`: two bounded ranges answer as the whole archive would. */
  method ReadRemoteDirectory(archive: seq<byte>, expected: set<string>, decode: Decoder)
    returns (r: Result<Selection, Error>)
    ensures !(0 < |archive| <= MAX_SIZE) ==> r == Failure(BadSize)
    ensures 0 < |archive| <= MAX_SIZE ==>
              && (forall p: nat :: GreatestEndRecord(archive, p) ==> r == DirectoryAt(archive, p, expected, decode))
              && ((forall p: nat :: !IsEndRecord(archive, p)) ==> r == Failure(NoEndRecord))
              && (r == Failure(NoEndRecord) || exists p: nat :: GreatestEndRecord(archive, p))
  {
    hide DirectoryAt;
    if |archive| == 0 || MAX_SIZE < |archive| {
      return Failure(BadSize);
    }
    var tailStart := if |archive| < TAIL_SIZE then 0 else |archive| - TAIL_SIZE;
    var download := DownloadRange(archive, tailStart, |archive| - 1);
    var tail := download.value;
    assert tailStart == TailStart(|archive|) && tail == archive[tailStart..];
    var end := FindEndRecord(tail);
    if end.Failure? {
      forall p: nat ensures !IsEndRecord(archive, p) {
        TailAnswersForArchive(archive, p);
      }
      return Failure(NoEndRecord);
    }
    TailAnswersForArchive(archive, tailStart + end.value);
    r := ReadDirectoryAt(archive, tailStart, end.value, expected, decode);
  }

  lemma TailFields(archive: seq<byte>, start: nat, end: nat, p: nat)
    requires p == start + end && p + 22 <= |archive|
    ensures Le16(archive[start..], end + 4) == Le16(archive, p + 4)
    ensures Le16(archive[start..], end + 6) == Le16(archive, p + 6)
    ensures Le16(archive[start..], end + 8) == Le16(archive, p + 8)
    ensures Le16(archive[start..], end + 10) == Le16(archive, p + 10)
    ensures Le32(archive[start..], end + 12) == Le32(archive, p + 12)
    ensures Le32(archive[start..], end + 16) == Le32(archive, p + 16)
  {
  }

  // ---------------------------------------------------------------------------
  // One-member archive
  // ---------------------------------------------------------------------------

  predicate HasLocalHeader(archive: seq<byte>, offset: nat) {
    offset + 30 <= |archive| && archive[offset..offset + 4] == LOCAL_SIGNATURE
  }

  /** Header, name, extra field and data of a member, from the local header. */
  function LocalSize(archive: seq<byte>, m: Member): nat
    requires HasLocalHeader(archive, m.offset)
  {
    30 + Le16(archive, m.offset + 26) + Le16(archive, m.offset + 28) + m.size
  }

  /** The member's central record with its local offset set to zero. */
  function Relocated(rec: seq<byte>): seq<byte>
    requires 46 <= |rec|
  {
    rec[..42] + [0, 0, 0, 0] + rec[46..]
  }

  /** Signature, two disk numbers, one entry on this disk and one in all. */
  const END_PREFIX: seq<byte> := [0x50, 0x4B, 0x05, 0x06, 0, 0, 0, 0, 1, 0, 1, 0]

  /** `struct.pack("<IHHHHIIH", 0x06054B50, 0, 0, 1, 1, directorySize, directoryOffset, 0)`. */
  function EndRecord(directorySize: nat, directoryOffset: nat): (b: seq<byte>)
    requires directorySize <= 0xFFFF_FFFF && directoryOffset <= 0xFFFF_FFFF
    ensures |b| == 22
  {
    END_PREFIX + Put32(directorySize) + Put32(directoryOffset) + [0, 0]
  }

  predicate Extractable(archive: seq<byte>, m: Member) {
    && |archive| <= MAX_SIZE && IsRecord(m.record) && m == MemberOf(m.record)
    && HasLocalHeader(archive, m.offset) && m.offset + LocalSize(archive, m) <= |archive|
  }

  function MiniZip(archive: seq<byte>, m: Member): seq<byte>
    requires Extractable(archive, m)
  {
    var n := LocalSize(archive, m);
    archive[m.offset..m.offset + n] + Relocated(m.record) + EndRecord(|m.record|, n)
  }

  lemma RecordBound(rec: seq<byte>)
    requires IsRecord(rec)
    ensures 46 <= |rec| <= 46 + 3 * 0xFFFF
  {
  }

  /** The rewriting half of `_extract_remote_zip_member`: the downloaded range is cut to
      the local record, the central record is patched in its buffer, both are written out
      and the end record is appended. */
  method RewriteRange(range: seq<byte>, localSize: nat, record: seq<byte>) returns (file: seq<byte>)
    requires localSize <= |range| && localSize <= MAX_SIZE && 46 <= |record| <= MAX_SIZE
    ensures file == range[..localSize] + Relocated(record) + EndRecord(|record|, localSize)
  {
    file := range[..localSize];
    var rewritten := new byte[|record|](i requires 0 <= i < |record| => record[i]);
    rewritten[42], rewritten[43], rewritten[44], rewritten[45] := 0, 0, 0, 0;
    assert rewritten[..] == Relocated(record);
    file := file + rewritten[..];
    file := file + EndRecord(rewritten.Length, localSize);
  }

  /** The reading half: exactly when each refusal happens. The member is called truncated
      if and only if its local record overruns the archive. */
  method ExtractMember(archive: seq<byte>, m: Member) returns (r: Result<seq<byte>, Error>)
    requires |archive| <= MAX_SIZE && IsRecord(m.record) && m == MemberOf(m.record)
    ensures r == Failure(InvalidOffset) <==> |archive| <= m.offset
    ensures r == Failure(InvalidHeader) <==> m.offset < |archive| && !HasLocalHeader(archive, m.offset)
    ensures r == Failure(TruncatedMember) <==>
              HasLocalHeader(archive, m.offset) && |archive| < m.offset + LocalSize(archive, m)
    ensures r.Success? <==> Extractable(archive, m)
    ensures r.Success? ==> r.value == MiniZip(archive, m)
  {
    RecordBound(m.record);
    hide Le16, Le32, Relocated, EndRecord, HeaderAt, HasCentralHeader;
    var maximum := 30 + 2 * 0xFFFF + m.size;
    var rangeEnd := if |archive| - 1 < m.offset + maximum - 1 then |archive| - 1 else m.offset + maximum - 1;
    if |archive| <= m.offset || rangeEnd < m.offset {
      return Failure(InvalidOffset);
    }
    var download := DownloadRange(archive, m.offset, rangeEnd);
    var range := download.value;
    var localHeader := range[..if |range| < 30 then |range| else 30];
    if |localHeader| == 30 {
      HeaderInRange(archive, m.offset, rangeEnd + 1);
    }
    if |localHeader| != 30 || localHeader[..4] != LOCAL_SIGNATURE {
      return Failure(InvalidHeader);
    }
    var localRecordSize := 30 + Le16(localHeader, 26) + Le16(localHeader, 28) + m.size;
    assert localRecordSize == LocalSize(archive, m);
    hide LocalSize, HasLocalHeader, RecordLength;
    if rangeEnd - m.offset + 1 < localRecordSize {
      return Failure(TruncatedMember);
    }
    SliceOfSlice(archive, m.offset, rangeEnd + 1, 0, localRecordSize);
    assert range[..localRecordSize] == range[0..localRecordSize];
    var file := RewriteRange(range, localRecordSize, m.record);
    return Success(file);
  }

  /** The first 30 bytes of the range are the archive's at the member's offset. */
  lemma HeaderInRange(archive: seq<byte>, offset: nat, end: nat)
    requires offset + 30 <= end <= |archive|
    ensures var localHeader := archive[offset..end][..30];
            && (localHeader[..4] == LOCAL_SIGNATURE <==> HasLocalHeader(archive, offset))
            && Le16(localHeader, 26) == Le16(archive, offset + 26)
            && Le16(localHeader, 28) == Le16(archive, offset + 28)
  {
    var localHeader := archive[offset..end][..30];
    SliceOfSlice(archive, offset, end, 0, 30);
    assert localHeader == archive[offset..end][0..30] == archive[offset..offset + 30];
    SliceOfSlice(archive, offset, offset + 30, 0, 4);
    assert localHeader[..4] == localHeader[0..4];
  }

  /** Relocating touches nothing but the local offset. */
  lemma RelocatedRecord(rec: seq<byte>, decode: Decoder)
    requires IsRecord(rec)
    ensures var moved := Relocated(rec);
            && IsRecord(moved) && |moved| == |rec|
            && HeaderAt(moved, 0) == HeaderAt(rec, 0).(offset := 0)
            && NameOf(moved, decode) == NameOf(rec, decode)
            && Relocated(moved) == moved
  {
    var moved := Relocated(rec);
    assert moved[..4] == rec[..4];
    var n := HeaderAt(rec, 0).nameLength;
    assert moved[46..46 + n] == rec[46..46 + n];
  }

  /** What the finder and the directory reader see at the end record that was appended. */
  lemma EndRecordRead(body: seq<byte>, size: nat, offset: nat)
    requires size <= 0xFFFF_FFFF && offset <= 0xFFFF_FFFF
    ensures var z, p := body + EndRecord(size, offset), |body|;
            && GreatestEndRecord(z, p)
            && Le16(z, p + 4) == 0 && Le16(z, p + 6) == 0 && Le16(z, p + 8) == 1 && Le16(z, p + 10) == 1
            && Le32(z, p + 12) == size && Le32(z, p + 16) == offset
  {
    EndRecordBytes(size, offset);
    EndRecordSizes(size, offset);
    FieldsBehind(body, EndRecord(size, offset));
    hide EndRecord, Le16, Le32;
  }

  /** An end record without a comment, behind anything: the finder sees it, and its fields. */
  lemma FieldsBehind(body: seq<byte>, e: seq<byte>)
    requires |e| == 22 && SignatureAt(e, 0) && Le16(e, 20) == 0
    ensures var z, p := body + e, |body|;
            && GreatestEndRecord(z, p)
            && Le16(z, p + 4) == Le16(e, 4) && Le16(z, p + 6) == Le16(e, 6)
            && Le16(z, p + 8) == Le16(e, 8) && Le16(z, p + 10) == Le16(e, 10)
            && Le32(z, p + 12) == Le32(e, 12) && Le32(z, p + 16) == Le32(e, 16)
  {
    var z, p := body + e, |body|;
    assert z[p..|z|] == e;
    LeSlice(z, p, |z|, 4);
    LeSlice(z, p, |z|, 6);
    LeSlice(z, p, |z|, 8);
    LeSlice(z, p, |z|, 10);
    LeSlice(z, p, |z|, 12);
    LeSlice(z, p, |z|, 16);
    LeSlice(z, p, |z|, 20);
    hide Le16, Le32;
    assert z[p] == e[0] && z[p + 1] == e[1] && z[p + 2] == e[2] && z[p + 3] == e[3];
  }

  lemma EndRecordBytes(size: nat, offset: nat)
    requires size <= 0xFFFF_FFFF && offset <= 0xFFFF_FFFF
    ensures var e := EndRecord(size, offset);
            && |e| == 22 && SignatureAt(e, 0) && Le16(e, 20) == 0
            && Le16(e, 4) == 0 && Le16(e, 6) == 0 && Le16(e, 8) == 1 && Le16(e, 10) == 1
  {
    hide Put32;
  }

  lemma EndRecordSizes(size: nat, offset: nat)
    requires size <= 0xFFFF_FFFF && offset <= 0xFFFF_FFFF
    ensures var e := EndRecord(size, offset);
            |e| == 22 && Le32(e, 12) == size && Le32(e, 16) == offset
  {
    var e := EndRecord(size, offset);
    assert e[12..16] == Put32(size) && e[16..20] == Put32(offset);
    LeSlice(e, 12, 16, 0);
    LeSlice(e, 16, 20, 0);
    hide Put32, Le16, Le32;
  }

  /** A single supported record is a directory of one. */
  lemma DirectoryOfOne(rec: seq<byte>, name: string, decode: Decoder)
    requires IsRecord(rec) && IsSupported(rec) && NameOf(rec, decode) == Some(name)
    ensures Directory(rec, 1, {name}, decode) == Success(map[name := MemberOf(rec)])
  {
    var records := [rec];
    assert Flatten(records) == rec by {
      assert records[1..] == [];
    }
    assert rec[0..|Flatten(records)|] == rec;
    ScanOfRecords(rec, 0, records, {name}, decode, map[]);
    assert AdmitAll(records[1..], {name}, decode, map[name := MemberOf(rec)])
        == Success(map[name := MemberOf(rec)]);
  }

  lemma MiniZipParts(archive: seq<byte>, m: Member)
    requires Extractable(archive, m)
    ensures var z, n := MiniZip(archive, m), LocalSize(archive, m);
            && z[..n] == archive[m.offset..m.offset + n]
            && z[n..n + |m.record|] == Relocated(m.record)
            && HasLocalHeader(z, 0)
            && Le16(z, 26) == Le16(archive, m.offset + 26) && Le16(z, 28) == Le16(archive, m.offset + 28)
  {
    var z, n := MiniZip(archive, m), LocalSize(archive, m);
    var local := archive[m.offset..m.offset + n];
    assert z == local + (Relocated(m.record) + EndRecord(|m.record|, n));
    assert z[..n] == local;
    assert z[0..4] == local[0..4];
    SliceOfSlice(archive, m.offset, m.offset + n, 0, 4);
    LeSlice(archive, m.offset, m.offset + n, 26);
    LeSlice(archive, m.offset, m.offset + n, 28);
    LeSlice(z, 0, n, 26);
    LeSlice(z, 0, n, 28);
    assert z[0..n] == local;
  }

  /** An end record whose fields point at one supported record yields that member. */
  lemma DirectoryAtOne(z: seq<byte>, p: nat, offset: nat, rec: seq<byte>, name: string, decode: Decoder)
    requires p + 22 <= |z| && offset + |rec| <= |z| && z[offset..offset + |rec|] == rec
    requires Le16(z, p + 4) == 0 && Le16(z, p + 6) == 0 && Le16(z, p + 8) == 1 && Le16(z, p + 10) == 1
    requires Le32(z, p + 12) == |rec| && Le32(z, p + 16) == offset && |rec| < 0xFFFF_FFFF
    requires IsRecord(rec) && IsSupported(rec) && NameOf(rec, decode) == Some(name)
    ensures DirectoryAt(z, p, {name}, decode)
         == if offset == 0xFFFF_FFFF then Failure(MultiDisk) else Success(map[name := MemberOf(rec)])
  {
    hide Directory, Le16, Le32, HeaderAt, IsRecord, IsSupported, NameOf, MemberOf, HasCentralHeader;
    DirectoryOfOne(rec, name, decode);
    RecordBound(rec);
  }

  lemma MiniZipReread(archive: seq<byte>, m: Member, name: string, decode: Decoder)
    requires Extractable(archive, m)
    requires IsSupported(m.record) && NameOf(m.record, decode) == Some(name)
    ensures var z, n := MiniZip(archive, m), LocalSize(archive, m);
            && GreatestEndRecord(z, n + |m.record|)
            && DirectoryAt(z, n + |m.record|, {name}, decode)
            == if n == 0xFFFF_FFFF then Failure(MultiDisk)
               else Success(map[name := Member(0, m.size, Relocated(m.record))])
  {
    hide Le16, Le32, EndRecord, Relocated, HeaderAt, DirectoryAt, GreatestEndRecord, HasLocalHeader,
      HasCentralHeader, NameOf;
    var z, n, moved := MiniZip(archive, m), LocalSize(archive, m), Relocated(m.record);
    RecordBound(m.record);
    RelocatedRecord(m.record, decode);
    MiniZipParts(archive, m);
    EndRecordRead(archive[m.offset..m.offset + n] + moved, |m.record|, n);
    DirectoryAtOne(z, n + |m.record|, n, moved, name, decode);
  }

  /** The round trip: in the rebuilt bytes the code's own finder and parser see exactly
      the one member, at offset zero, with its size; its local record, data included, is
      the archive's; and rebuilding from the rebuilt bytes changes nothing. The one
      exception is a local record of 2^32-1 bytes, a length the reader takes for ZIP64. */
  lemma MiniZipRoundTrip(archive: seq<byte>, m: Member, name: string, decode: Decoder)
    requires Extractable(archive, m)
    requires IsSupported(m.record) && NameOf(m.record, decode) == Some(name)
    ensures var z, n := MiniZip(archive, m), LocalSize(archive, m);
            var moved := Member(0, m.size, Relocated(m.record));
            && GreatestEndRecord(z, n + |m.record|)
            && (DirectoryAt(z, n + |m.record|, {name}, decode) == Success(map[name := moved])
                <==> n < 0xFFFF_FFFF)
            && z[..n] == archive[m.offset..m.offset + n]
            && HasLocalHeader(z, 0) && LocalSize(z, moved) == n
            && (|z| <= MAX_SIZE ==> Extractable(z, moved) && MiniZip(z, moved) == z)
  {
    hide Le16, Le32, DirectoryAt, HeaderAt, EndRecord, GreatestEndRecord, Relocated, HasCentralHeader, NameOf;
    MiniZipReread(archive, m, name, decode);
    RelocatedRecord(m.record, decode);
    MiniZipParts(archive, m);
    assert MiniZip(archive, m)[0..LocalSize(archive, m)] == MiniZip(archive, m)[..LocalSize(archive, m)];
  }

  /** A record for stored data of that size, with an empty name, at offset zero. */
  function PlainRecord(size: nat): seq<byte>
    requires size <= 0xFFFF_FFFF
  {
    CENTRAL_SIGNATURE + Zeros(16) + Put32(size) + Zeros(22)
  }

  function Zeros(n: nat): seq<byte> {
    seq(n, i => 0)
  }

  lemma PlainRecordRead(size: nat)
    requires size < 0xFFFF_FFFF
    ensures var rec := PlainRecord(size);
            && IsRecord(rec) && IsSupported(rec) && MemberOf(rec) == Member(0, size, rec)
            && HeaderAt(rec, 0).nameLength == 0
  {
    var rec := PlainRecord(size);
    assert rec[..4] == CENTRAL_SIGNATURE && rec[20..24] == Put32(size);
    LeSlice(rec, 20, 24, 0);
    hide Put32;
    assert forall i :: 4 <= i < 46 && !(20 <= i < 24) ==> rec[i] == 0;
  }

  /** The reader returns the member from the archive, and refuses what is rebuilt from it. */
  ghost predicate IsReadButNotReread(archive: seq<byte>, p: nat, m: Member, name: string, decode: Decoder) {
    && p + 22 <= |archive| && GreatestEndRecord(archive, p)
    && DirectoryAt(archive, p, {name}, decode) == Success(map[name := m])
    && Extractable(archive, m) && LocalSize(archive, m) == 0xFFFF_FFFF
    && DirectoryAt(MiniZip(archive, m), LocalSize(archive, m) + |m.record|, {name}, decode) == Failure(MultiDisk)
  }

  /** The exception is met: an archive of 2^32-1 bytes whose directory lists a supported member
      that claims all of it, directory and end record included. The reader returns the member,
      and then refuses the archive that is rebuilt from it. */
  lemma LongestMemberIsExtractable(name: string)
    returns (archive: seq<byte>, m: Member, decode: Decoder)
    ensures |archive| == MAX_SIZE && IsReadButNotReread(archive, |archive| - 22, m, name, decode)
  {
    var size: nat, offset: nat := MAX_SIZE - 30, MAX_SIZE - 68;
    decode := (utf8, bytes) => Some(name);
    var rec := PlainRecord(size);
    PlainRecordRead(size);
    m := MemberOf(rec);
    var local := LongLocal(offset);
    hide IsRecord, PlainRecord, Zeros, IsSupported, HeaderAt, EndRecord, DirectoryAt, GreatestEndRecord,
         Le16, Le32, MiniZip, Extractable, HasLocalHeader, IsReadButNotReread;
    archive := local + rec + EndRecord(46, offset);
    WholeArchive(local, m, name, decode);
  }

  lemma LongLocal(n: nat) returns (local: seq<byte>)
    requires 30 <= n
    ensures |local| == n && local[..4] == LOCAL_SIGNATURE && local[26..30] == Zeros(4)
  {
    local := LOCAL_SIGNATURE + Zeros(n - 4);
  }

  /** The member spans everything: its local record, its directory and the end record. */
  lemma WholeArchive(local: seq<byte>, m: Member, name: string, decode: Decoder)
    requires IsRecord(m.record) && m == MemberOf(m.record) && m.offset == 0 && IsSupported(m.record)
    requires NameOf(m.record, decode) == Some(name)
    requires 30 <= |local| && |local| + |m.record| + 22 == 30 + m.size == MAX_SIZE
    requires local[..4] == LOCAL_SIGNATURE && local[26..30] == Zeros(4)
    ensures var z, p := local + m.record + EndRecord(|m.record|, |local|), |local| + |m.record|;
            IsReadButNotReread(z, p, m, name, decode) && LocalSize(z, m) == MAX_SIZE
  {
    var z, p := local + m.record + EndRecord(|m.record|, |local|), |local| + |m.record|;
    RecordBound(m.record);
    LocalThenDirectory(local, m.record);
    hide EndRecord, GreatestEndRecord, DirectoryAt, Le16, Le32, HeaderAt, MiniZip, IsRecord, NameOf, IsSupported;
    DirectoryAtOne(z, p, |local|, m.record, name, decode);
    MiniZipReread(z, m, name, decode);
  }

  lemma LocalThenDirectory(local: seq<byte>, rec: seq<byte>)
    requires 30 <= |local| <= 0xFFFF_FFFF && |rec| <= 0xFFFF_FFFF
    requires local[..4] == LOCAL_SIGNATURE && local[26..30] == Zeros(4)
    ensures var z, p := local + rec + EndRecord(|rec|, |local|), |local| + |rec|;
            && HasLocalHeader(z, 0) && Le16(z, 26) == 0 && Le16(z, 28) == 0
            && z[|local|..p] == rec && GreatestEndRecord(z, p)
            && Le16(z, p + 4) == 0 && Le16(z, p + 6) == 0 && Le16(z, p + 8) == 1 && Le16(z, p + 10) == 1
            && Le32(z, p + 12) == |rec| && Le32(z, p + 16) == |local|
  {
    var end := EndRecord(|rec|, |local|);
    LongestHeader(local, rec + end);
    EndRecordRead(local + rec, |rec|, |local|);
    hide Zeros, EndRecord, GreatestEndRecord, Le16, Le32;
    assert local + rec + end == local + (rec + end);
  }

  /** A local header of zeros has neither name nor extra field. */
  lemma LongestHeader(local: seq<byte>, rest: seq<byte>)
    requires |local| >= 30 && local[..4] == LOCAL_SIGNATURE && local[26..30] == Zeros(4)
    ensures HasLocalHeader(local + rest, 0) && Le16(local + rest, 26) == 0 && Le16(local + rest, 28) == 0
  {
    var all := local + rest;
    assert all[0..4] == local[..4];
    assert forall i :: 26 <= i < 30 ==> all[i] == local[26..30][i - 26];
  }

  /** A member whose local record ends before the end record always makes the round trip. */
  lemma MemberBeforeEndRoundTrips(archive: seq<byte>, p: nat, m: Member, name: string, decode: Decoder)
    requires Extractable(archive, m) && IsEndRecord(archive, p) && m.offset + LocalSize(archive, m) <= p
    requires IsSupported(m.record) && NameOf(m.record, decode) == Some(name)
    ensures var z, n := MiniZip(archive, m), LocalSize(archive, m);
            var moved := Member(0, m.size, Relocated(m.record));
            DirectoryAt(z, n + |m.record|, {name}, decode) == Success(map[name := moved])
  {
    hide DirectoryAt, Relocated, NameOf, IsSupported;
    MiniZipReread(archive, m, name, decode);
  }
}
