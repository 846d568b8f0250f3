/**
 * Offline player identifiers (src/js/uuid.js): the MD5 digest of
 * "OfflinePlayer:" + name, unpacked big-endian into sixteen bytes, stamped
 * as a name-based version-3 identifier of the variant of RFC 4122
 * (section 4.1.3 for the version, section 4.1.1 for the variant) and written
 * as lower-case hex in the 8-4-4-4-12 layout.
 *
 * MD5 itself (with the UTF-8 encoding crypto-js applies first) is not
 * modelled: every member that hashes takes the hash function as a parameter.
 */
module Uuid {
  import opened Types
  import opened JsText

  /** An MD5 digest as crypto-js hands it out: four 32-bit words. */
  type Digest = s: seq<bv32> | |s| == 4 witness [0, 0, 0, 0]

  /** The namespace prefix of offline player names. */
  const Namespace: string := "OfflinePlayer:"

  /** The message of the TypeError thrown for a name that is not a string. */
  const NotAStringMessage: string := "'name' should be a string!"

  // ---------------------------------------------------------------------------
  // Bytes

  /** Byte `i` of the digest: byte `i % 4` of word `i / 4`, most significant first. */
  function DigestByte(d: Digest, i: nat): bv8
    requires i < 16
  {
    ((d[i / 4] >> (24 - (i % 4) * 8)) & 0xff) as bv8
  }

  /** The sixteen digest bytes, before the version and variant fixups. */
  function DigestBytes(d: Digest): (bytes: seq<bv8>)
    ensures |bytes| == 16
  {
    seq(16, i requires 0 <= i < 16 => DigestByte(d, i))
  }

  /** Four bytes as one big-endian 32-bit word. */
  function Word(b0: bv8, b1: bv8, b2: bv8, b3: bv8): bv32
  {
    (b0 as bv32 << 24) | (b1 as bv32 << 16) | (b2 as bv32 << 8) | b3 as bv32
  }

  /** Putting four consecutive bytes back together, most significant first, gives the word they came from. */
  lemma WordFromBytes(d: Digest, j: nat)
    requires j < 4
    ensures Word(DigestByte(d, 4 * j), DigestByte(d, 4 * j + 1), DigestByte(d, 4 * j + 2), DigestByte(d, 4 * j + 3)) == d[j]
  {
    var w := d[j];
    assert (4 * j) / 4 == j && (4 * j + 1) / 4 == j && (4 * j + 2) / 4 == j && (4 * j + 3) / 4 == j;
    assert (4 * j) % 4 == 0 && (4 * j + 1) % 4 == 1 && (4 * j + 2) % 4 == 2 && (4 * j + 3) % 4 == 3;
    assert ((((w >> 24) & 0xff) as bv8) as bv32 << 24) | ((((w >> 16) & 0xff) as bv8) as bv32 << 16)
         | ((((w >> 8) & 0xff) as bv8) as bv32 << 8) | (((w >> 0) & 0xff) as bv8) as bv32 == w;
  }

  /** Unpacking loses nothing: different digests give different byte sequences. */
  lemma DigestBytesInjective(d1: Digest, d2: Digest)
    requires DigestBytes(d1) == DigestBytes(d2)
    ensures d1 == d2
  {
    forall j | 0 <= j < 4 ensures d1[j] == d2[j] {
      SameWord(d1, d2, j);
    }
  }

  lemma SameWord(d1: Digest, d2: Digest, j: nat)
    requires j < 4 && DigestBytes(d1) == DigestBytes(d2)
    ensures d1[j] == d2[j]
  {
    var b1, b2 := DigestBytes(d1), DigestBytes(d2);
    assert b1[4 * j] == DigestByte(d1, 4 * j) && b2[4 * j] == DigestByte(d2, 4 * j);
    assert b1[4 * j + 1] == DigestByte(d1, 4 * j + 1) && b2[4 * j + 1] == DigestByte(d2, 4 * j + 1);
    assert b1[4 * j + 2] == DigestByte(d1, 4 * j + 2) && b2[4 * j + 2] == DigestByte(d2, 4 * j + 2);
    assert b1[4 * j + 3] == DigestByte(d1, 4 * j + 3) && b2[4 * j + 3] == DigestByte(d2, 4 * j + 3);
    WordFromBytes(d1, j);
    WordFromBytes(d2, j);
  }

  /** Byte 6 after the fixup: high nibble 3 (version 3), low nibble kept. */
  function SetVersion(b: bv8): (r: bv8)
    ensures r >> 4 == 3 && r & 0x0f == b & 0x0f
  {
    (b & 0x0f) | 0x30
  }

  /** Byte 8 after the fixup: top two bits 10 (the RFC 4122 variant), low six bits kept. */
  function SetVariant(b: bv8): (r: bv8)
    ensures r >> 6 == 2 && r & 0x3f == b & 0x3f
  {
    (b & 0x3f) | 0x80
  }

  /** The identifier's bytes: the digest bytes with bytes 6 and 8 fixed up. */
  function UuidBytes(d: Digest): (bytes: seq<bv8>)
    ensures |bytes| == 16
  {
    DigestBytes(d)[6 := SetVersion(DigestByte(d, 6))][8 := SetVariant(DigestByte(d, 8))]
  }

  /**
   * Only bytes 6 and 8 differ from the digest: byte 6 carries version 3 in its
   * high nibble and keeps its low nibble, byte 8 carries the variant bits 10 and
   * keeps its low six bits.
   */
  lemma UuidBytesFixups(d: Digest)
    ensures forall i :: 0 <= i < 16 && i != 6 && i != 8 ==> UuidBytes(d)[i] == DigestByte(d, i)
    ensures UuidBytes(d)[6] >> 4 == 3 && UuidBytes(d)[6] & 0x0f == DigestByte(d, 6) & 0x0f
    ensures UuidBytes(d)[8] >> 6 == 2 && UuidBytes(d)[8] & 0x3f == DigestByte(d, 8) & 0x3f
  {
    FixupsKeep(DigestBytes(d), DigestByte(d, 6), DigestByte(d, 8));
  }

  lemma FixupsKeep(raw: seq<bv8>, v: bv8, w: bv8)
    requires |raw| == 16
    ensures var b := raw[6 := SetVersion(v)][8 := SetVariant(w)];
      && (forall i :: 0 <= i < 16 && i != 6 && i != 8 ==> b[i] == raw[i])
      && b[6] >> 4 == 3 && b[6] & 0x0f == v & 0x0f
      && b[8] >> 6 == 2 && b[8] & 0x3f == w & 0x3f
  {
  }

  // ---------------------------------------------------------------------------
  // Text layout

  lemma ByteAsNat(b: bv8)
    ensures b as nat < 256 && (b as nat) as bv8 == b
  {
  }

  /**
   * The byte whose value is `n`, built by counting up one at a time: each step
   * is a small fact about `bv8`, where a direct `n as bv8` is costly to reason about.
   */
  function ByteOf(n: nat): (b: bv8)
    requires n < 256
    ensures b as nat == n
  {
    if n == 0 then 0 else ByteOf(n - 1) + 1
  }

  lemma PaddedHex(n: nat)
    requires n < 256
    ensures PadStart(NumberToString(n, 16), 2, '0') == [DigitChar(n / 16), DigitChar(n % 16)]
  {
    if n >= 16 {
      assert NumberToString(n / 16, 16) == [DigitChar(n / 16)];
      assert NumberToString(n, 16) == [DigitChar(n / 16)] + [DigitChar(n % 16)];
    } else {
      assert NumberToString(n, 16) == [DigitChar(n)];
      assert DigitChar(0) == '0';
    }
  }

  /** `b.toString(16).padStart(2, '0')`: two lower-case hex digits, high nibble first. */
  function HexByte(b: bv8): (s: string)
    ensures s == [DigitChar(b as nat / 16), DigitChar(b as nat % 16)]
  {
    ByteAsNat(b);
    PaddedHex(b as nat);
    PadStart(NumberToString(b as nat, 16), 2, '0')
  }

  /** The five groups of two-digit strings, joined with hyphens. */
  function Groups(hex: seq<string>): string
    requires |hex| == 16
  {
    Join([Join(hex[0..4], ""), Join(hex[4..6], ""), Join(hex[6..8], ""), Join(hex[8..10], ""), Join(hex[10..16], "")], "-")
  }

  /** Where the first hex digit of byte `i` stands in the 8-4-4-4-12 layout. */
  function HexPos(i: nat): (p: nat)
    requires i < 16
  {
    2 * i + (if i < 4 then 0 else if i < 6 then 1 else if i < 8 then 2 else if i < 10 then 3 else 4)
  }

  predicate IsHyphenPos(p: int)
  {
    p == 8 || p == 13 || p == 18 || p == 23
  }

  /** The byte whose digits stand at position `p` of the layout. */
  function ByteAt(p: nat): (i: nat)
    requires p < 36 && !IsHyphenPos(p)
    ensures i < 16 && (p == HexPos(i) || p == HexPos(i) + 1)
  {
    var g := if p < 8 then 0 else if p < 13 then 1 else if p < 18 then 2 else if p < 23 then 3 else 4;
    (p - g) / 2
  }

  /** The canonical text form: 36 characters, hyphens at 8, 13, 18 and 23, lower-case hex digits elsewhere. */
  predicate IsCanonical(s: string)
  {
    |s| == 36 && forall p :: 0 <= p < 36 ==> if IsHyphenPos(p) then s[p] == '-' else IsLowerHexDigit(s[p])
  }

  lemma {:induction false} JoinOfPairs(hs: seq<string>)
    requires forall j :: 0 <= j < |hs| ==> |hs[j]| == 2
    ensures |Join(hs, "")| == 2 * |hs|
    ensures forall j :: 0 <= j < |hs| ==> Join(hs, "")[2 * j] == hs[j][0] && Join(hs, "")[2 * j + 1] == hs[j][1]
  {
    if |hs| > 1 {
      JoinOfPairs(hs[1..]);
      assert Join(hs, "") == hs[0] + Join(hs[1..], "");
    }
  }

  lemma GroupsLayout(hex: seq<string>)
    requires |hex| == 16 && forall i :: 0 <= i < 16 ==> |hex[i]| == 2
    ensures |Groups(hex)| == 36
    ensures forall p :: 0 <= p < 36 && IsHyphenPos(p) ==> Groups(hex)[p] == '-'
    ensures forall i :: 0 <= i < 16 ==> Groups(hex)[HexPos(i)] == hex[i][0] && Groups(hex)[HexPos(i) + 1] == hex[i][1]
  {
    var g0, g1, g2, g3, g4 := hex[0..4], hex[4..6], hex[6..8], hex[8..10], hex[10..16];
    JoinOfPairs(g0);
    JoinOfPairs(g1);
    JoinOfPairs(g2);
    JoinOfPairs(g3);
    JoinOfPairs(g4);
    var j0, j1, j2, j3, j4 := Join(g0, ""), Join(g1, ""), Join(g2, ""), Join(g3, ""), Join(g4, "");
    var parts := [j0, j1, j2, j3, j4];
    assert parts[1..] == [j1, j2, j3, j4] && parts[1..][1..] == [j2, j3, j4];
    assert parts[1..][1..][1..] == [j3, j4] && parts[1..][1..][1..][1..] == [j4];
    assert Join([j3, j4], "-") == j3 + "-" + j4;
    assert Join([j2, j3, j4], "-") == j2 + "-" + (j3 + "-" + j4);
    assert Join([j1, j2, j3, j4], "-") == j1 + "-" + (j2 + "-" + (j3 + "-" + j4));
    assert Groups(hex) == j0 + "-" + (j1 + "-" + (j2 + "-" + (j3 + "-" + j4)));
    forall i | 0 <= i < 16
      ensures Groups(hex)[HexPos(i)] == hex[i][0] && Groups(hex)[HexPos(i) + 1] == hex[i][1]
    {
      if i < 4 {
        assert hex[i] == g0[i];
      } else if i < 6 {
        assert hex[i] == g1[i - 4];
      } else if i < 8 {
        assert hex[i] == g2[i - 6];
      } else if i < 10 {
        assert hex[i] == g3[i - 8];
      } else {
        assert hex[i] == g4[i - 10];
      }
    }
  }

  lemma GroupsCanonical(hex: seq<string>)
    requires |hex| == 16
    requires forall i :: 0 <= i < 16 ==> |hex[i]| == 2 && IsLowerHexDigit(hex[i][0]) && IsLowerHexDigit(hex[i][1])
    ensures IsCanonical(Groups(hex))
  {
    GroupsLayout(hex);
    forall p | 0 <= p < 36 && !IsHyphenPos(p) ensures IsLowerHexDigit(Groups(hex)[p]) {
      var i := ByteAt(p);
    }
  }

  /** `formatUUID`: each byte as two lower-case hex digits, in byte order, grouped 8-4-4-4-12. */
  function FormatUUID(bytes: seq<bv8>): (s: string)
    requires |bytes| == 16
    ensures |s| == 36
  {
    var hex := seq(16, i requires 0 <= i < 16 => HexByte(bytes[i]));
    GroupsLayout(hex);
    Groups(hex)
  }

  /**
   * The text form is canonical, and byte `i` stands at `HexPos(i)` as two hex
   * digits, high nibble first.
   */
  lemma FormatUUIDLayout(bytes: seq<bv8>)
    requires |bytes| == 16
    ensures IsCanonical(FormatUUID(bytes))
    ensures forall i :: 0 <= i < 16 ==>
      FormatUUID(bytes)[HexPos(i)] == DigitChar(bytes[i] as nat / 16) && FormatUUID(bytes)[HexPos(i) + 1] == DigitChar(bytes[i] as nat % 16)
  {
    var hex := seq(16, i requires 0 <= i < 16 => HexByte(bytes[i]));
    GroupsLayout(hex);
    GroupsCanonical(hex);
  }

  /** Reads the 32 hex digits of a canonical identifier back into sixteen bytes. */
  function ParseUUID(s: string): Option<seq<bv8>>
  {
    if IsCanonical(s) then
      Some(seq(16, i requires 0 <= i < 16 => ReadByte(s[HexPos(i)], s[HexPos(i) + 1])))
    else None
  }

  /** The byte written by two hex digits, high nibble first. */
  function ReadByte(hi: char, lo: char): (b: bv8)
    requires IsLowerHexDigit(hi) && IsLowerHexDigit(lo)
    ensures b as nat == DigitValue(hi) * 16 + DigitValue(lo)
  {
    ByteOf(DigitValue(hi) * 16 + DigitValue(lo))
  }

  lemma ReadByteOfDigits(n: nat)
    requires n < 256
    ensures ReadByte(DigitChar(n / 16), DigitChar(n % 16)) as nat == n
  {
    DigitValueOfDigitChar(n / 16);
    DigitValueOfDigitChar(n % 16);
  }

  lemma ByteAsNatInjective(x: bv8, y: bv8)
    requires x as nat == y as nat
    ensures x == y
  {
  }

  lemma ReadByteOfHex(b: bv8)
    ensures ReadByte(DigitChar(b as nat / 16), DigitChar(b as nat % 16)) == b
  {
    ByteAsNat(b);
    ReadByteOfDigits(b as nat);
    ByteAsNatInjective(ReadByte(DigitChar(b as nat / 16), DigitChar(b as nat % 16)), b);
  }

  lemma HexOfReadByte(hi: char, lo: char)
    requires IsLowerHexDigit(hi) && IsLowerHexDigit(lo)
    ensures DigitChar(ReadByte(hi, lo) as nat / 16) == hi && DigitChar(ReadByte(hi, lo) as nat % 16) == lo
  {
    var n := ReadByte(hi, lo) as nat;
    assert n / 16 == DigitValue(hi) && n % 16 == DigitValue(lo);
  }

  /** Round trip: the text form reads back as the bytes it was made from. */
  lemma ParseOfFormat(bytes: seq<bv8>)
    requires |bytes| == 16
    ensures ParseUUID(FormatUUID(bytes)) == Some(bytes)
  {
    var s := FormatUUID(bytes);
    FormatUUIDLayout(bytes);
    var parsed := ParseUUID(s).value;
    assert IsCanonical(s);
    assert |parsed| == 16;
    forall i | 0 <= i < 16 ensures parsed[i] == bytes[i] {
      ReadByteOfHex(bytes[i]);
    }
    assert parsed == bytes;
  }

  /** And the other way: a canonical identifier is the text form of the bytes it reads as. */
  lemma FormatOfParse(s: string)
    requires ParseUUID(s).Some?
    ensures FormatUUID(ParseUUID(s).value) == s
  {
    var bytes := ParseUUID(s).value;
    var f := FormatUUID(bytes);
    FormatUUIDLayout(bytes);
    forall p | 0 <= p < 36 ensures f[p] == s[p] {
      if !IsHyphenPos(p) {
        var i := ByteAt(p);
        HexOfReadByte(s[HexPos(i)], s[HexPos(i) + 1]);
      }
    }
  }

  /** Different bytes never share a text form. */
  lemma FormatUUIDInjective(b1: seq<bv8>, b2: seq<bv8>)
    requires |b1| == 16 && |b2| == 16
    requires FormatUUID(b1) == FormatUUID(b2)
    ensures b1 == b2
  {
    ParseOfFormat(b1);
    ParseOfFormat(b2);
  }

  // ---------------------------------------------------------------------------
  // Derivation

  /** The offline identifier of a name, as a value: the specification `CreateUUID` is proved against. */
  function OfflineUUID(md5: string -> Digest, name: string): (id: string)
    ensures |id| == 36
  {
    FormatUUID(UuidBytes(md5(Namespace + name)))
  }

  /** The offline deriver as a function of the name alone, for a fixed hash function. */
  function OfflineUUIDOf(md5: string -> Digest): (uuidOf: string -> string)
    ensures forall name :: uuidOf(name) == OfflineUUID(md5, name)
  {
    name => OfflineUUID(md5, name)
  }

  /**
   * What an offline identifier looks like: canonical text that reads back as the
   * fixed-up digest bytes of "OfflinePlayer:" + name, with the version digit '3'
   * at position 14 and a variant digit 8, 9, a or b at position 19.
   */
  lemma OfflineUUIDShape(md5: string -> Digest, name: string)
    ensures IsCanonical(OfflineUUID(md5, name))
    ensures ParseUUID(OfflineUUID(md5, name)) == Some(UuidBytes(md5(Namespace + name)))
    ensures OfflineUUID(md5, name)[14] == '3'
    ensures OfflineUUID(md5, name)[19] in "89ab"
  {
    var bytes := UuidBytes(md5(Namespace + name));
    UuidBytesFixups(md5(Namespace + name));
    FormatUUIDLayout(bytes);
    ParseOfFormat(bytes);
    VersionDigits(bytes);
  }

  lemma VersionNibble(b: bv8)
    requires b >> 4 == 3
    ensures b as nat / 16 == 3
  {
  }

  lemma VariantNibble(b: bv8)
    requires b >> 6 == 2
    ensures 8 <= b as nat / 16 < 12
  {
  }

  lemma VariantDigit(v: nat)
    requires 8 <= v < 12
    ensures DigitChar(v) in "89ab"
  {
    assert DigitChar(v) == "89ab"[v - 8];
  }

  /** Version and variant as they show in the text: digit 14 is '3', digit 19 one of 8, 9, a, b. */
  lemma VersionDigits(bytes: seq<bv8>)
    requires |bytes| == 16 && bytes[6] >> 4 == 3 && bytes[8] >> 6 == 2
    ensures FormatUUID(bytes)[14] == '3'
    ensures FormatUUID(bytes)[19] in "89ab"
  {
    var s := FormatUUID(bytes);
    FormatUUIDLayout(bytes);
    assert HexPos(6) == 14 && HexPos(8) == 19;
    assert s[14] == DigitChar(bytes[6] as nat / 16);
    assert s[19] == DigitChar(bytes[8] as nat / 16);
    VersionNibble(bytes[6]);
    VariantNibble(bytes[8]);
    VariantDigit(bytes[8] as nat / 16);
    assert DigitChar(3) == '3';
  }

  /**
   * `createUUID`: rejects a value that is not a string; otherwise hashes
   * "OfflinePlayer:" + name, unpacks the four digest words into sixteen bytes,
   * overwrites bytes 6 and 8 in place, and formats the bytes.
   */
  method CreateUUID(md5: string -> Digest, name: JsValue) returns (r: Result<string, string>)
    ensures name.NonString? ==> r == Failure(NotAStringMessage)
    ensures name.JsString? ==> r == Success(OfflineUUID(md5, name.s))
  {
    if name.NonString? {
      return Failure(NotAStringMessage);
    }
    var input := Namespace + name.s;
    var hash := md5(input);
    var byteArray := new bv8[16];
    for i := 0 to 16
      invariant forall k :: 0 <= k < i ==> byteArray[k] == DigestByte(hash, k)
    {
      byteArray[i] := ((hash[i / 4] >> (24 - (i % 4) * 8)) & 0xff) as bv8;
    }
    byteArray[6] := (byteArray[6] & 0x0f) | 0x30;
    byteArray[8] := (byteArray[8] & 0x3f) | 0x80;
    assert byteArray[..] == UuidBytes(hash);
    r := Success(FormatUUID(byteArray[..]));
  }
}
