/** The text form of a record digest (crates/fabric-core/src/record_digest.rs). Text is its UTF-8 bytes. */
module RecordDigest {
  import opened Results

  type Digest = bytes: seq<bv8> | |bytes| == 32 witness seq(32, _ => 0)

  /** `0-9a-f`. */
  predicate IsHex(c: bv8) { 0x30 <= c <= 0x39 || 0x61 <= c <= 0x66 }

  predicate IsDigestText(text: seq<bv8>) {
    |text| == 64 && forall i :: 0 <= i < 64 ==> IsHex(text[i])
  }

  /** `nibble`. */
  function Nibble(c: bv8): (r: Option<bv8>)
    ensures r.Some? <==> IsHex(c)
    ensures r.Some? ==> r.value < 16 && HexDigit(r.value) == c
  {
    if 0x30 <= c <= 0x39 then Some(c - 0x30)
    else if 0x61 <= c <= 0x66 then Some(c - 0x61 + 10)
    else None
  }

  function HexDigit(n: bv8): (c: bv8)
    requires n < 16
    ensures IsHex(c)
  {
    if n < 10 then 0x30 + n else 0x61 + (n - 10)
  }

  /** One byte as `{:02x}` writes it. */
  function ShowByte(b: bv8): (text: seq<bv8>)
    ensures |text| == 2 && IsHex(text[0]) && IsHex(text[1])
  {
    Halves(b);
    [HexDigit(b >> 4), HexDigit(b & 15)]
  }

  lemma Halves(b: bv8)
    ensures b >> 4 < 16 && b & 15 < 16 && ((b >> 4) << 4) | (b & 15) == b
  {
  }

  lemma Joined(high: bv8, low: bv8)
    requires high < 16 && low < 16
    ensures ((high << 4) | low) >> 4 == high && ((high << 4) | low) & 15 == low
  {
  }

  /** What one byte is written as, no other byte is, and every pair of hexadecimal characters is some byte. */
  lemma {:induction false} PairsAreBytes(b: bv8, text: seq<bv8>)
    requires |text| == 2
    ensures ShowByte(b) == text <==>
      IsHex(text[0]) && IsHex(text[1]) && b == (Nibble(text[0]).value << 4) | Nibble(text[1]).value
  {
    Halves(b);
    if IsHex(text[0]) && IsHex(text[1]) {
      Joined(Nibble(text[0]).value, Nibble(text[1]).value);
      HexDigitOnce(b >> 4, Nibble(text[0]).value);
      HexDigitOnce(b & 15, Nibble(text[1]).value);
    }
  }

  lemma HexDigitOnce(m: bv8, n: bv8)
    requires m < 16 && n < 16
    ensures HexDigit(m) == HexDigit(n) ==> m == n
  {
  }

  /** The sixteen digits in their order, each standing for its place: the ten numerals and then `a` to `f`. */
  lemma HexDigitsInOrder(m: bv8, n: bv8)
    requires m < n < 16
    ensures HexDigit(m) < HexDigit(n) && Nibble(HexDigit(m)) == Some(m) && Nibble(HexDigit(n)) == Some(n)
  {
  }

  /** `Display`. */
  function Show(bytes: seq<bv8>): (text: seq<bv8>)
    ensures |text| == 2 * |bytes|
  {
    if bytes == [] then [] else ShowByte(bytes[0]) + Show(bytes[1..])
  }

  lemma {:induction false} ShowAt(bytes: seq<bv8>, i: nat)
    requires i < |bytes|
    ensures Show(bytes)[2 * i..2 * i + 2] == ShowByte(bytes[i])
  {
    if i == 0 {
    } else {
      ShowAt(bytes[1..], i - 1);
      assert Show(bytes)[2 * i..2 * i + 2] == Show(bytes[1..])[2 * i - 2..2 * i];
    }
  }

  lemma {:induction false} ShowLast(bytes: seq<bv8>, b: bv8)
    ensures Show(bytes + [b]) == Show(bytes) + ShowByte(b)
  {
    if bytes == [] {
      assert [b][1..] == [];
    } else {
      assert (bytes + [b])[1..] == bytes[1..] + [b];
      ShowLast(bytes[1..], b);
    }
  }

  /** What is shown is always 64 lower-case hexadecimal characters. */
  lemma {:induction false} ShownIsDigestText(digest: Digest)
    ensures IsDigestText(Show(digest))
  {
    forall i | 0 <= i < 64 ensures IsHex(Show(digest)[i]) {
      ShowAt(digest, i / 2);
      assert Show(digest)[i] == Show(digest)[2 * (i / 2)..2 * (i / 2) + 2][i % 2];
    }
  }

  /** Different digests are shown differently. */
  lemma {:induction false} ShownOnce(a: Digest, b: Digest)
    requires Show(a) == Show(b)
    ensures a == b
  {
    forall i | 0 <= i < 32 ensures a[i] == b[i] {
      ShowAt(a, i);
      ShowAt(b, i);
      PairsAreBytes(a[i], ShowByte(a[i]));
      PairsAreBytes(b[i], ShowByte(b[i]));
    }
  }

  lemma {:induction false} ShowsOnly(digest: Digest, text: seq<bv8>)
    requires Show(digest) == text
    ensures IsDigestText(text)
    ensures forall other: Digest :: digest == other <==> Show(other) == text
  {
    ShownIsDigestText(digest);
    forall other: Digest | Show(other) == text ensures digest == other {
      ShownOnce(digest, other);
    }
  }

  lemma {:induction false} ShowsNone(text: seq<bv8>)
    requires !IsDigestText(text)
    ensures forall digest: Digest :: Show(digest) != text
  {
    forall digest: Digest ensures Show(digest) != text {
      ShownIsDigestText(digest);
    }
  }

  lemma {:induction false} ShowNext(bytes: seq<bv8>, b: bv8, text: seq<bv8>)
    requires 2 * |bytes| + 2 <= |text| && Show(bytes) == text[..2 * |bytes|]
    requires IsHex(text[2 * |bytes|]) && IsHex(text[2 * |bytes| + 1])
    requires b == (Nibble(text[2 * |bytes|]).value << 4) | Nibble(text[2 * |bytes| + 1]).value
    ensures Show(bytes + [b]) == text[..2 * |bytes| + 2]
  {
    PairsAreBytes(b, text[2 * |bytes|..2 * |bytes| + 2]);
    ShowLast(bytes, b);
  }

  /** `RecordDigest::parse`: it undoes `Display` and nothing else, and refuses only text that is no digest. */
  method Parse(value: seq<bv8>) returns (r: Option<Digest>)
    ensures r.Some? <==> IsDigestText(value)
    ensures forall digest: Digest :: r == Some(digest) <==> Show(digest) == value
  {
    if !IsDigestText(value) {
      ShowsNone(value);
    }
    if |value| != 64 {
      return None;
    }
    var bytes := new bv8[32](_ => 0);
    for i := 0 to 32
      invariant Show(bytes[..i]) == value[..2 * i]
    {
      var high, low := Nibble(value[2 * i]), Nibble(value[2 * i + 1]);
      if high.None? || low.None? {
        return None;
      }
      ghost var before := bytes[..i];
      bytes[i] := (high.value << 4) | low.value;
      ShowNext(before, bytes[i], value);
      assert bytes[..i + 1] == before + [bytes[i]];
    }
    assert bytes[..32] == bytes[..] && value[..64] == value;
    ShowsOnly(bytes[..], value);
    r := Some(bytes[..]);
  }
}
