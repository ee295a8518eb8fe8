/** Bitmessage addresses and their text form. */
module Addresses {
  import opened Bytes
  import opened Proto
  import Base58

  const RIPE_SIZE: nat := 20
  const MAX_LENGTH: nat := 39
  const BINARY_SIZE: nat := 1 + 1 + RIPE_SIZE + 4

  /** "BM-" */
  const PREFIX: seq<byte> := [66, 77, 45]

  datatype Address = Address(version: byte, stream: byte, ripe: seq<byte>)

  predicate Proper(a: Address)
  {
    |a.ripe| == RIPE_SIZE
  }

  function Checksum(sha: seq<byte> -> seq<byte>, version: byte, stream: byte, ripe: seq<byte>): (r: seq<byte>)
    requires IsSha512(sha)
    ensures |r| == 4
  {
    sha(sha([version] + [stream] + ripe))[..4]
  }

  /** Leading zeros are left out: all of them from version 4 on, two of them before. */
  function Trimmed(ripe: seq<byte>, most: nat): (r: seq<byte>)
    ensures |r| <= |ripe| && ripe == Zeros(|ripe| - |r|) + r
  {
    if most > 0 && ripe != [] && ripe[0] == 0 then
      var r := Trimmed(ripe[1..], most - 1);
      assert Zeros(|ripe| - |r|) == [0] + Zeros(|ripe| - 1 - |r|);
      r
    else ripe
  }

  function MaxTrim(version: byte): nat
  {
    if version >= 4 then RIPE_SIZE else 2
  }

  function Binary(sha: seq<byte> -> seq<byte>, a: Address): seq<byte>
    requires IsSha512(sha)
  {
    var ripe := Trimmed(a.ripe, MaxTrim(a.version));
    [a.version] + [a.stream] + ripe + Checksum(sha, a.version, a.stream, ripe)
  }

  function Encode(sha: seq<byte> -> seq<byte>, a: Address): seq<byte>
    requires IsSha512(sha)
  {
    PREFIX + Base58.Encode(Binary(sha, a))
  }

  function WithoutPrefix(text: seq<byte>): seq<byte>
  {
    if PREFIX <= text then text[3..] else text
  }

  /** Reads the octets of an address. */
  function FromBinary(sha: seq<byte> -> seq<byte>, bin: seq<byte>): (r: Option<Address>)
    requires IsSha512(sha)
    ensures r.Some? ==> |bin| >= 6 && r.value.version == bin[0] && (|bin| <= BINARY_SIZE ==> Proper(r.value))
  {
    if |bin| < 6 then None
    else
      var ripe := bin[2..|bin| - 4];
      if bin[|bin| - 4..] != Checksum(sha, bin[0], bin[1], ripe) then None
      else
        var pad := if |ripe| <= RIPE_SIZE then RIPE_SIZE - |ripe| else 0;
        Some(Address(bin[0], bin[1], Zeros(pad) + ripe))
  }

  function Decode(sha: seq<byte> -> seq<byte>, text: seq<byte>): Option<Address>
    requires IsSha512(sha)
  {
    match Base58.Decode(WithoutPrefix(text), BINARY_SIZE)
    case None => None
    case Some(bin) => FromBinary(sha, bin)
  }

  /** The loop that drops the leading zeros of a ripe. */
  method TrimRipe(ripe: seq<byte>, maxTrim: nat) returns (r: seq<byte>)
    ensures r == Trimmed(ripe, maxTrim)
  {
    var i: nat := 0;
    assert ripe[0..] == ripe;
    while i < maxTrim && i < |ripe| && ripe[i] == 0
      invariant i <= maxTrim && i <= |ripe|
      invariant Trimmed(ripe, maxTrim) == Trimmed(ripe[i..], maxTrim - i)
    {
      assert ripe[i..][1..] == ripe[i + 1..];
      i := i + 1;
    }
    r := ripe[i..];
  }

  /** ntb_address_encode */
  method EncodeAddress(sha: seq<byte> -> seq<byte>, a: Address) returns (text: seq<byte>)
    requires IsSha512(sha) && Proper(a)
    ensures text == Encode(sha, a) && |text| <= MAX_LENGTH
  {
    var ripe := TrimRipe(a.ripe, if a.version >= 4 then RIPE_SIZE else 2);
    var bin := [a.version] + [a.stream] + ripe + Checksum(sha, a.version, a.stream, ripe);
    var digits := Base58.EncodeInPlace(bin);
    Base58.AddressDigits(bin);
    text := PREFIX + digits;
  }

  /** ntb_address_decode */
  method DecodeAddress(sha: seq<byte> -> seq<byte>, text: seq<byte>) returns (r: Option<Address>)
    requires IsSha512(sha)
    ensures r == Decode(sha, text) && (r.Some? ==> Proper(r.value))
  {
    var bin := Base58.DecodeDigits(WithoutPrefix(text), BINARY_SIZE);
    if bin.None? {
      return None;
    }
    Base58.DecodeSize(WithoutPrefix(text), BINARY_SIZE);
    return FromBinary(sha, bin.value);
  }

  lemma BinaryParts(sha: seq<byte> -> seq<byte>, a: Address)
    requires IsSha512(sha) && Proper(a)
    ensures FromBinary(sha, Binary(sha, a)) == Some(a)
    ensures 6 <= |Binary(sha, a)| <= BINARY_SIZE && Binary(sha, a)[0] == a.version
  {
    var ripe := Trimmed(a.ripe, MaxTrim(a.version));
    var bin := Binary(sha, a);
    assert bin[2..|bin| - 4] == ripe;
    assert bin[|bin| - 4..] == Checksum(sha, a.version, a.stream, ripe);
  }

  /** The octets read never start with a zero, so no address of version 0 is read. */
  lemma VersionRead(sha: seq<byte> -> seq<byte>, text: seq<byte>)
    requires IsSha512(sha)
    ensures Decode(sha, text).Some? ==> Decode(sha, text).value.version >= 1
  {
    var bin := Base58.Decode(WithoutPrefix(text), BINARY_SIZE);
    if bin.Some? && |bin.value| > 1 {
      Base58.DecodeLeads(WithoutPrefix(text), BINARY_SIZE);
    }
  }

  /** The text form gives back an address exactly when its version is not 0, whatever
      the hash function and however many zeros were trimmed. */
  lemma RoundTrip(sha: seq<byte> -> seq<byte>, a: Address)
    requires IsSha512(sha) && Proper(a)
    ensures Decode(sha, Encode(sha, a)) == Some(a) <==> a.version >= 1
  {
    assert WithoutPrefix(Encode(sha, a)) == Base58.Encode(Binary(sha, a));
    BinaryParts(sha, a);
    if a.version >= 1 {
      Base58.ExactRoundTrip(Binary(sha, a), BINARY_SIZE);
    } else {
      VersionRead(sha, Encode(sha, a));
    }
  }

  /** The octets in which an address is written, of which the ripe has lost `ripe`'s zeros. */
  ghost predicate Spells(sha: seq<byte> -> seq<byte>, bin: seq<byte>, a: Address, ripe: seq<byte>)
    requires IsSha512(sha)
  {
    && |ripe| <= RIPE_SIZE && a.ripe == Zeros(RIPE_SIZE - |ripe|) + ripe
    && bin == [a.version, a.stream] + ripe + sha(sha([a.version, a.stream] + ripe))[..4]
  }

  lemma ChecksumOf(sha: seq<byte> -> seq<byte>, version: byte, stream: byte, ripe: seq<byte>)
    requires IsSha512(sha)
    ensures Checksum(sha, version, stream, ripe) == sha(sha([version, stream] + ripe))[..4]
  {
    assert [version] + [stream] == [version, stream];
  }

  /** A text is read as an address if and only if it spells one with its right checksum,
      with any number of the ripe's zeros left out. */
  lemma DecodesExactly(sha: seq<byte> -> seq<byte>, text: seq<byte>, a: Address)
    requires IsSha512(sha)
    ensures Decode(sha, text) == Some(a) <==>
      var bin := Base58.Decode(WithoutPrefix(text), BINARY_SIZE);
      bin.Some? && exists ripe :: Spells(sha, bin.value, a, ripe)
  {
    var r := Base58.Decode(WithoutPrefix(text), BINARY_SIZE);
    Base58.DecodeSize(WithoutPrefix(text), BINARY_SIZE);
    if r.Some? {
      var bin := r.value;
      if Decode(sha, text) == Some(a) {
        var ripe := bin[2..|bin| - 4];
        ChecksumOf(sha, a.version, a.stream, ripe);
        assert bin == [bin[0], bin[1]] + ripe + bin[|bin| - 4..];
        assert Spells(sha, bin, a, ripe);
      }
      if ripe :| Spells(sha, bin, a, ripe) {
        ChecksumOf(sha, a.version, a.stream, ripe);
        assert bin[2..|bin| - 4] == ripe && bin[|bin| - 4..] == sha(sha([a.version, a.stream] + ripe))[..4];
      }
    }
  }
}
