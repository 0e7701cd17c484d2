/** common/build_host_steps.py: the one accepted spelling of an ssh-ed25519 public key. The
    encodings are those of section 4 of RFC 4648, section 5 of RFC 4251 and section 4 of
    RFC 8709. */
module Ed25519Key {
  import opened Common
  import opened Texts
  import opened Bytes

  // ---------------------------------------------------------------------------
  // Base 64
  // ---------------------------------------------------------------------------

  type sextet = x: int | 0 <= x < 64

  function CharOf(v: sextet): char {
    if v < 26 then (v + 'A' as int) as char
    else if v < 52 then (v - 26 + 'a' as int) as char
    else if v < 62 then (v - 52 + '0' as int) as char
    else if v == 62 then '+'
    else '/'
  }

  function ValueOf(c: char): Option<sextet> {
    if 'A' <= c <= 'Z' then Some(c as int - 'A' as int)
    else if 'a' <= c <= 'z' then Some(c as int - 'a' as int + 26)
    else if '0' <= c <= '9' then Some(c as int - '0' as int + 52)
    else if c == '+' then Some(62)
    else if c == '/' then Some(63)
    else None
  }

  /** `base64.b64encode` */
  function Encode(b: seq<byte>): string {
    if b == [] then ""
    else if |b| == 1 then [CharOf(b[0] / 4), CharOf(b[0] % 4 * 16), '=', '=']
    else if |b| == 2 then
      [CharOf(b[0] / 4), CharOf(b[0] % 4 * 16 + b[1] / 16), CharOf(b[1] % 16 * 4), '=']
    else
      [CharOf(b[0] / 4), CharOf(b[0] % 4 * 16 + b[1] / 16), CharOf(b[1] % 16 * 4 + b[2] / 64), CharOf(b[2] % 64)]
      + Encode(b[3..])
  }

  /** One to three bytes of a group of four characters; padding ends the text. */
  function DecodeGroup(s: string, last: bool): Option<seq<byte>>
    requires |s| == 4
  {
    var v0, v1, v2, v3 := ValueOf(s[0]), ValueOf(s[1]), ValueOf(s[2]), ValueOf(s[3]);
    if v0.None? || v1.None? then None
    else if last && s[2] == '=' && s[3] == '=' then Some([v0.value * 4 + v1.value / 16])
    else if v2.None? then None
    else if last && s[3] == '=' then Some([v0.value * 4 + v1.value / 16, v1.value % 16 * 16 + v2.value / 4])
    else if v3.None? then None
    else Some([v0.value * 4 + v1.value / 16, v1.value % 16 * 16 + v2.value / 4, v2.value % 4 * 64 + v3.value])
  }

  /** `base64.b64decode(s, validate=True)`, on whole groups. */
  function Decode(s: string): Option<seq<byte>> {
    if s == "" then Some([])
    else if |s| < 4 then None
    else
      var group, rest := DecodeGroup(s[..4], |s| == 4), Decode(s[4..]);
      if group.Some? && rest.Some? then Some(group.value + rest.value) else None
  }

  lemma SextetReadsBack(v: sextet)
    ensures ValueOf(CharOf(v)) == Some(v)
    ensures CharOf(v) != '=' && CharOf(v) != ' ' && CharOf(v) != '\n' && CharOf(v) != '\r'
  {}

  lemma GroupOfFour(p: sextet, q: sextet, r: sextet, t: sextet, last: bool)
    ensures DecodeGroup([CharOf(p), CharOf(q), CharOf(r), CharOf(t)], last)
            == Some([p * 4 + q / 16, q % 16 * 16 + r / 4, r % 4 * 64 + t])
    ensures DecodeGroup([CharOf(p), CharOf(q), CharOf(r), '='], true) == Some([p * 4 + q / 16, q % 16 * 16 + r / 4])
    ensures DecodeGroup([CharOf(p), CharOf(q), '=', '='], true) == Some([p * 4 + q / 16])
  {
    SextetReadsBack(p);
    SextetReadsBack(q);
    SextetReadsBack(r);
    SextetReadsBack(t);
    hide ValueOf, CharOf;
  }

  /** The sextets of three bytes make up the bytes again. */
  lemma Recombined(x: byte, y: byte, z: byte)
    ensures x / 4 * 4 + (x % 4 * 16 + y / 16) / 16 == x
    ensures (x % 4 * 16 + y / 16) % 16 * 16 + (y % 16 * 4 + z / 64) / 4 == y
    ensures (y % 16 * 4 + z / 64) % 4 * 64 + z % 64 == z
  {
    assert (x % 4 * 16 + y / 16) / 16 == x % 4;
    assert (y % 16 * 4 + z / 64) / 4 == y % 16;
  }

  lemma ThreeBytes(x: byte, y: byte, z: byte, last: bool)
    ensures DecodeGroup([CharOf(x / 4), CharOf(x % 4 * 16 + y / 16), CharOf(y % 16 * 4 + z / 64), CharOf(z % 64)], last)
            == Some([x, y, z])
  {
    GroupOfFour(x / 4, x % 4 * 16 + y / 16, y % 16 * 4 + z / 64, z % 64, last);
    Recombined(x, y, z);
    hide DecodeGroup, CharOf;
  }

  lemma TwoBytes(x: byte, y: byte)
    ensures DecodeGroup([CharOf(x / 4), CharOf(x % 4 * 16 + y / 16), CharOf(y % 16 * 4), '='], true) == Some([x, y])
  {
    GroupOfFour(x / 4, x % 4 * 16 + y / 16, y % 16 * 4, 0, true);
    Recombined(x, y, 0);
    hide DecodeGroup, CharOf;
  }

  lemma OneByte(x: byte)
    ensures DecodeGroup([CharOf(x / 4), CharOf(x % 4 * 16), '=', '='], true) == Some([x])
  {
    GroupOfFour(x / 4, x % 4 * 16, 0, 0, true);
    Recombined(x, 0, 0);
    hide DecodeGroup, CharOf;
  }

  /** Decoding undoes encoding. */
  lemma {:induction false} EncodedReadsBack(b: seq<byte>)
    ensures Decode(Encode(b)) == Some(b)
  {
    hide DecodeGroup, CharOf;
    var s := Encode(b);
    if |b| == 1 {
      OneByte(b[0]);
      assert s[..4] == s && s[4..] == "";
      assert b == [b[0]] + [];
    } else if |b| == 2 {
      TwoBytes(b[0], b[1]);
      assert s[..4] == s && s[4..] == "";
      assert b == [b[0], b[1]] + [];
    } else if |b| > 2 {
      ThreeBytes(b[0], b[1], b[2], |b| == 3);
      EncodedReadsBack(b[3..]);
      assert s[4..] == Encode(b[3..]);
      assert s[..4] == [CharOf(b[0] / 4), CharOf(b[0] % 4 * 16 + b[1] / 16),
                        CharOf(b[1] % 16 * 4 + b[2] / 64), CharOf(b[2] % 64)];
      assert b == [b[0], b[1], b[2]] + b[3..];
    }
  }

  /** The bits that padding leaves over make decoding alone ambiguous. */
  lemma DecodingIsAmbiguous()
    ensures Decode("QQ==") == Decode("QR==") == Some([65])
  {
    assert "QQ=="[..4] == "QQ==" && "QR=="[..4] == "QR==" && "QQ=="[4..] == "" == "QR=="[4..];
    assert [65] + [] == [65 as byte];
  }

  // ---------------------------------------------------------------------------
  // Fields and strings
  // ---------------------------------------------------------------------------

  lemma TwoFields(a: string, b: string)
    requires ' ' !in a && ' ' !in b
    ensures Split(a + " " + b, ' ') == [a, b]
  {
    SplitFirst(a, ' ', b);
    SplitFirst(b, ' ', "");
  }

  /** The text that splits into these fields. */
  function Joined(fields: seq<string>): string
    requires fields != []
  {
    if |fields| == 1 then fields[0] else fields[0] + " " + Joined(fields[1..])
  }

  lemma {:induction false} SplitIsExact(s: string)
    ensures s == Joined(Split(s, ' '))
  {
    if s != "" {
      SplitIsExact(s[1..]);
      EmptyFirst(Split(s[1..], ' '));
      LongerFirst(s[0], Split(s[1..], ' '));
      hide Joined;
      assert s == [s[0]] + s[1..];
    }
  }

  lemma EmptyFirst(fields: seq<string>)
    requires fields != []
    ensures Joined([""] + fields) == " " + Joined(fields)
  {
    assert ([""] + fields)[1..] == fields;
    assert "" + " " == " ";
  }

  lemma LongerFirst(c: char, fields: seq<string>)
    requires fields != []
    ensures Joined([[c] + fields[0]] + fields[1..]) == [c] + Joined(fields)
  {
    var longer, rest := [[c] + fields[0]] + fields[1..], fields[1..];
    assert longer[1..] == rest;
    if |fields| > 1 {
      var joined := Joined(rest);
      assert Joined(longer) == [c] + fields[0] + " " + joined;
      hide Joined;
      Regroup([c], fields[0], joined);
    }
  }

  lemma Regroup(head: string, first: string, rest: string)
    ensures head + first + " " + rest == head + (first + " " + rest)
  {}

  /** `int.from_bytes(raw[i:i + 4], "big")` */
  function Be32(raw: seq<byte>, i: nat): nat
    requires i + 4 <= |raw|
  {
    raw[i] as int * 0x100_0000 + raw[i + 1] as int * 0x1_0000 + raw[i + 2] as int * 0x100 + raw[i + 3] as int
  }

  /** `take_string`: the string and the offset behind it. */
  function TakeString(raw: seq<byte>, offset: nat): Option<(seq<byte>, nat)> {
    if offset + 4 > |raw| then None
    else
      var end := offset + 4 + Be32(raw, offset);
      if end > |raw| then None else Some((raw[offset + 4..end], end))
  }

  // ---------------------------------------------------------------------------
  // The key line
  // ---------------------------------------------------------------------------

  const KEY_TYPE := "ssh-ed25519"

  /** `b"ssh-ed25519"` */
  const KEY_TYPE_BYTES: seq<byte> := [115, 115, 104, 45, 101, 100, 50, 53, 53, 49, 57]

  /** The wire encoding of a key: type and key, each behind its length. */
  function Wire(key: seq<byte>): seq<byte> {
    [0, 0, 0, 11] + KEY_TYPE_BYTES + [0, 0, 0, 32] + key
  }

  /** The line that a key is printed as. */
  function Line(key: seq<byte>): string {
    KEY_TYPE + " " + Encode(Wire(key))
  }

  datatype Error = NotOneLine | NotAPlainKey | InvalidBlob | NotCanonical

  /** The key of a blob, if it is one. */
  function KeyOf(blob: seq<byte>): Option<seq<byte>> {
    var first := TakeString(blob, 0);
    if first.None? then None
    else
      var second := TakeString(blob, first.value.1);
      if second.Some? && first.value.0 == KEY_TYPE_BYTES && |second.value.0| == 32 && second.value.1 == |blob|
      then Some(second.value.0) else None
  }

  /** `_public_ed25519_key`: accepts the line of a key and nothing else. */
  method PublicKey(value: string) returns (r: Result<(string, seq<byte>), Error>)
    ensures r.Success? <==> exists key: seq<byte> :: |key| == 32 && value == Line(key)
    ensures r.Success? ==> r.value.0 == value && value == KEY_TYPE + " " + Encode(r.value.1)
    ensures r.Success? ==> exists key: seq<byte> :: |key| == 32 && value == Line(key) && r.value.1 == Wire(key)
  {
    forall key: seq<byte> | |key| == 32 && value == Line(key)
      ensures '\n' !in value && '\r' !in value && Split(value, ' ') == [KEY_TYPE, Encode(Wire(key))]
      ensures Encode(Wire(key)) != "" && Decode(Encode(Wire(key))) == Some(Wire(key)) && KeyOf(Wire(key)).Some?
    {
      LineParses(key);
    }
    hide Split, Decode, Encode, Wire, KeyOf, Line;
    if '\n' in value || '\r' in value {
      return Failure(NotOneLine);
    }
    var fields := Split(value, ' ');
    if |fields| != 2 || fields[0] != KEY_TYPE || fields[1] == "" {
      return Failure(NotAPlainKey);
    }
    var blob := Decode(fields[1]);
    if blob.None? {
      return Failure(InvalidBlob);
    }
    if Encode(blob.value) != fields[1] {
      return Failure(NotCanonical);
    }
    if KeyOf(blob.value).None? {
      return Failure(InvalidBlob);
    }
    SplitIsExact(value);
    assert fields[1..] == [fields[1]];
    AcceptedIsALine(value, blob.value);
    return Success((value, blob.value));
  }

  lemma AcceptedIsALine(value: string, blob: seq<byte>)
    requires value == KEY_TYPE + " " + Encode(blob) && KeyOf(blob).Some?
    ensures exists key: seq<byte> :: |key| == 32 && value == Line(key) && blob == Wire(key)
  {
    KeyOfIsExact(blob);
    hide KeyOf;
    assert value == Line(KeyOf(blob).value);
  }

  /** A blob is the wire encoding of the key that is read from it. */
  lemma KeyOfIsExact(blob: seq<byte>)
    requires KeyOf(blob).Some?
    ensures |KeyOf(blob).value| == 32 && blob == Wire(KeyOf(blob).value)
  {
    LengthIsEleven(blob);
    assert Be32(blob, 15) == 32;
    assert blob == blob[..4] + blob[4..15] + blob[15..19] + blob[19..];
  }

  lemma LengthIsEleven(blob: seq<byte>)
    requires TakeString(blob, 0).Some? && TakeString(blob, 0).value.0 == KEY_TYPE_BYTES
    ensures TakeString(blob, 0).value.1 == 15 <= |blob|
    ensures blob[..4] == [0, 0, 0, 11] && blob[4..15] == KEY_TYPE_BYTES
  {}

  lemma WireReadsBack(key: seq<byte>)
    requires |key| == 32
    ensures KeyOf(Wire(key)) == Some(key)
  {
    var blob := Wire(key);
    assert blob[0] == 0 && blob[1] == 0 && blob[2] == 0 && blob[3] == 11;
    assert blob[4..15] == KEY_TYPE_BYTES;
    assert blob[15] == 0 && blob[16] == 0 && blob[17] == 0 && blob[18] == 32;
    assert blob[19..51] == key;
  }

  lemma {:induction false} EncodedIsPlain(b: seq<byte>)
    ensures forall c :: c in Encode(b) ==> c != ' ' && c != '\n' && c != '\r'
  {
    hide CharOf, ValueOf;
    forall v: sextet ensures CharOf(v) != ' ' && CharOf(v) != '\n' && CharOf(v) != '\r' {
      SextetReadsBack(v);
    }
    if |b| > 2 {
      EncodedIsPlain(b[3..]);
    }
  }

  lemma LineParses(key: seq<byte>)
    requires |key| == 32
    ensures '\n' !in Line(key) && '\r' !in Line(key) && Split(Line(key), ' ') == [KEY_TYPE, Encode(Wire(key))]
    ensures Encode(Wire(key)) != "" && Decode(Encode(Wire(key))) == Some(Wire(key)) && KeyOf(Wire(key)).Some?
  {
    EncodedReadsBack(Wire(key));
    EncodedIsPlain(Wire(key));
    WireReadsBack(key);
    assert |Wire(key)| > 2;
    assert Encode(Wire(key)) != "";
    KeyTypeIsPlain();
    hide Decode, KeyOf, Wire, CharOf, Encode, KEY_TYPE;
    TwoFields(KEY_TYPE, Encode(Wire(key)));
    hide Split;
  }

  lemma KeyTypeIsPlain()
    ensures forall c :: c in KEY_TYPE ==> c != ' ' && c != '\n' && c != '\r'
  {}

  /** Printing and parsing are inverse, so lines, blobs and keys determine each other. */
  lemma LinesAndBlobsAreOneToOne(a: seq<byte>, b: seq<byte>)
    requires |a| == 32 && |b| == 32
    ensures Line(a) == Line(b) <==> a == b
    ensures Wire(a) == Wire(b) <==> a == b
  {
    WireReadsBack(a);
    WireReadsBack(b);
    hide Wire, KeyOf;
    EncodedReadsBack(Wire(a));
    EncodedReadsBack(Wire(b));
    hide Encode, Decode;
    if Line(a) == Line(b) {
      assert Line(a)[|KEY_TYPE| + 1..] == Encode(Wire(a)) && Line(b)[|KEY_TYPE| + 1..] == Encode(Wire(b));
    }
  }

  // ---------------------------------------------------------------------------
  // What lines look like
  // ---------------------------------------------------------------------------

  /** The alphabet of RFC 4648: three runs and two more characters; nothing else has a value. */
  lemma AlphabetInWords(v: sextet, c: char)
    ensures CharOf(0) == 'A' && CharOf(25) == 'Z' && CharOf(26) == 'a' && CharOf(51) == 'z'
    ensures CharOf(52) == '0' && CharOf(61) == '9' && CharOf(62) == '+' && CharOf(63) == '/'
    ensures v < 61 && v != 25 && v != 51 ==> CharOf(v + 1) as int == CharOf(v) as int + 1
    ensures ValueOf(c) == Some(v) <==> c == CharOf(v)
  {}

  function Number(x: int, y: int, z: int): int { 0x1_0000 * x + 0x100 * y + z }

  lemma Sextets(x: byte, y: byte, z: byte)
    ensures Number(x, y, z)
            == ((x / 4 * 64 + (x % 4 * 16 + y / 16)) * 64 + (y % 16 * 4 + z / 64)) * 64 + z % 64
  {
    assert x == x / 4 * 4 + x % 4 && y == y / 16 * 16 + y % 16 && z == z / 64 * 64 + z % 64;
  }

  /** Three bytes are the number that their four sextets make up, most significant first; the
      groups of a longer sequence follow one another. */
  lemma GroupInWords(b: seq<byte>) returns (p: sextet, q: sextet, r: sextet, t: sextet)
    requires |b| >= 3
    ensures Number(b[0], b[1], b[2]) == ((p * 64 + q) * 64 + r) * 64 + t
    ensures Encode(b) == [CharOf(p), CharOf(q), CharOf(r), CharOf(t)] + Encode(b[3..])
  {
    hide CharOf;
    Sextets(b[0], b[1], b[2]);
    p, q, r, t := b[0] / 4, b[0] % 4 * 16 + b[1] / 16, b[1] % 16 * 4 + b[2] / 64, b[2] % 64;
  }

  lemma KnownGroup(x: byte, y: byte, z: byte, rest: seq<byte>, p: sextet, q: sextet, r: sextet, t: sextet)
    requires Number(x, y, z) == ((p * 64 + q) * 64 + r) * 64 + t
    ensures Encode([x, y, z] + rest) == [CharOf(p), CharOf(q), CharOf(r), CharOf(t)] + Encode(rest)
  {
    var b := [x, y, z] + rest;
    assert b[3..] == rest && b[0] == x && b[1] == y && b[2] == z;
    var p', q', r', t' := GroupInWords(b);
    hide Encode, CharOf;
    assert p == p' && q == q' && r == r' && t == t';
  }

  lemma GroupAAAA(rest: seq<byte>)
    ensures Encode([0, 0, 0] + rest) == "AAAA" + Encode(rest)
  {
    var b: seq<byte> := [0, 0, 0] + rest;
    assert b[3..] == rest && b[0] == 0 && b[1] == 0 && b[2] == 0 && |b| > 2;
    AlphabetInWords(0, 'A');
    hide CharOf;
    assert Encode(b) == [CharOf(0), CharOf(0), CharOf(0), CharOf(0)] + Encode(b[3..]);
  }

  lemma GroupC3Nz(rest: seq<byte>)
    ensures Encode([11, 115, 115] + rest) == "C3Nz" + Encode(rest)
  {
    KnownGroup(11, 115, 115, rest, 2, 55, 13, 51);
    hide Encode;
  }

  lemma GroupAC1l(rest: seq<byte>)
    ensures Encode([104, 45, 101] + rest) == "aC1l" + Encode(rest)
  {
    KnownGroup(104, 45, 101, rest, 26, 2, 53, 37);
    hide Encode;
  }

  lemma GroupZDI1(rest: seq<byte>)
    ensures Encode([100, 50, 53] + rest) == "ZDI1" + Encode(rest)
  {
    KnownGroup(100, 50, 53, rest, 25, 3, 8, 53);
    hide Encode;
  }

  lemma GroupNTE5(rest: seq<byte>)
    ensures Encode([53, 49, 57] + rest) == "NTE5" + Encode(rest)
  {
    KnownGroup(53, 49, 57, rest, 13, 19, 4, 57);
    hide Encode;
  }

  /** The bytes in front of the last one of the second length. */
  lemma WireInGroups(key: seq<byte>)
    ensures Wire(key) == [0, 0, 0] + ([11, 115, 115] + ([104, 45, 101] + ([100, 50, 53] + ([53, 49, 57]
                         + ([0, 0, 0] + ([32] + key))))))
  {}

  /** Every accepted line is eighty characters long and begins like this. */
  lemma LinesBeginAlike(key: seq<byte>) returns (rest: string)
    requires |key| == 32
    ensures Line(key) == "ssh-ed25519 " + ("AAAA" + ("C3Nz" + ("aC1l" + ("ZDI1" + ("NTE5" + ("AAAA" + rest))))))
    ensures |rest| == 44
  {
    rest := WireBeginsAlike(key);
    hide Encode, Wire;
    assert "ssh-ed25519" + " " == "ssh-ed25519 ";
  }

  lemma WireBeginsAlike(key: seq<byte>) returns (rest: string)
    requires |key| == 32
    ensures Encode(Wire(key)) == "AAAA" + ("C3Nz" + ("aC1l" + ("ZDI1" + ("NTE5" + ("AAAA" + rest))))) && |rest| == 44
  {
    WireInGroups(key);
    hide Encode, Wire;
    var tail := [32] + key;
    EncodedLength(tail);
    LaterGroups(tail);
    FirstGroups([100, 50, 53] + ([53, 49, 57] + ([0, 0, 0] + tail)));
    rest := Encode(tail);
  }

  lemma FirstGroups(rest: seq<byte>)
    ensures Encode([0, 0, 0] + ([11, 115, 115] + ([104, 45, 101] + rest)))
         == "AAAA" + ("C3Nz" + ("aC1l" + Encode(rest)))
  {
    hide Encode;
    GroupAC1l(rest);
    GroupC3Nz([104, 45, 101] + rest);
    GroupAAAA([11, 115, 115] + ([104, 45, 101] + rest));
  }

  lemma LaterGroups(rest: seq<byte>)
    ensures Encode([100, 50, 53] + ([53, 49, 57] + ([0, 0, 0] + rest))) == "ZDI1" + ("NTE5" + ("AAAA" + Encode(rest)))
  {
    hide Encode;
    GroupAAAA(rest);
    GroupNTE5([0, 0, 0] + rest);
    GroupZDI1([53, 49, 57] + ([0, 0, 0] + rest));
  }

  lemma {:induction false} EncodedLength(b: seq<byte>)
    ensures |Encode(b)| == (|b| + 2) / 3 * 4
  {
    hide CharOf;
    if |b| > 2 {
      EncodedLength(b[3..]);
    }
  }
}
