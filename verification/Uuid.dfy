/** Session ids and the message identity that a Claude submission carries. */
module Uuid {
  import opened Bytes

  type Digest = d: Bytes | |d| == 32 witness seq(32, _ => 0)

  const HEX: string := "0123456789abcdef"

  predicate IsHex(c: char) {
    '0' <= c <= '9' || 'a' <= c <= 'f' || 'A' <= c <= 'F'
  }

  /** The 8-4-4-4-12 hexadecimal shape of a session id. */
  predicate UuidLike(s: string) {
    && |s| == 36
    && forall i :: 0 <= i < 36 ==> if i in {8, 13, 18, 23} then s[i] == '-' else IsHex(s[i])
  }

  function HexByte(b: Byte): string {
    [HEX[b / 16], HEX[b % 16]]
  }

  function HexBytes(bs: Bytes): (s: string)
    ensures |s| == 2 * |bs|
    ensures forall i :: 0 <= i < |s| ==> s[i] == HEX[if i % 2 == 0 then bs[i / 2] / 16 else bs[i / 2] % 16]
  {
    if bs == [] then [] else HexByte(bs[0]) + HexBytes(bs[1..])
  }

  /** A version 8 UUID over the first sixteen digest bytes, with the version and the variant
      bits forced. */
  function MessageUUID(h: Digest): string {
    var v := Stamped(h);
    HexBytes(v[..4]) + "-" + HexBytes(v[4..6]) + "-" + HexBytes(v[6..8]) + "-" + HexBytes(v[8..10]) + "-" + HexBytes(v[10..16])
  }

  lemma HexDigit(n: Byte)
    requires n < 16
    ensures IsHex(HEX[n])
  {
  }

  lemma HexBytesAreHex(bs: Bytes)
    ensures forall i :: 0 <= i < 2 * |bs| ==> IsHex(HexBytes(bs)[i])
  {
    forall i | 0 <= i < 2 * |bs| ensures IsHex(HexBytes(bs)[i]) {
      HexDigit(if i % 2 == 0 then bs[i / 2] / 16 else bs[i / 2] % 16);
    }
  }

  lemma HexBytesFirst(bs: Bytes)
    requires bs != []
    ensures HexBytes(bs)[0] == HEX[bs[0] / 16]
  {
  }

  function Stamped(h: Digest): Digest {
    h[6 := h[6] % 16 + 128][8 := h[8] % 64 + 128]
  }

  /** Whatever the hash, the message identity passes the session id check of the receipt scan. */
  lemma MessageUUIDIsUuidLike(h: Digest)
    ensures UuidLike(MessageUUID(h))
  {
    var v := Stamped(h);
    HexBytesAreHex(v[..4]);
    HexBytesAreHex(v[4..6]);
    HexBytesAreHex(v[6..8]);
    HexBytesAreHex(v[8..10]);
    HexBytesAreHex(v[10..16]);
  }

  /** It is marked version 8 and has the RFC 9562 variant (section 4.1). */
  lemma MessageUUIDIsVersion8(h: Digest)
    ensures |MessageUUID(h)| == 36 && MessageUUID(h)[14] == '8' && MessageUUID(h)[19] in "89ab"
  {
    var v := Stamped(h);
    HexBytesFirst(v[6..8]);
    HexBytesFirst(v[8..10]);
    assert MessageUUID(h)[14] == HexBytes(v[6..8])[0];
    assert MessageUUID(h)[19] == HexBytes(v[8..10])[0];
    assert v[6..8][0] / 16 == 8 && 8 <= v[8..10][0] / 16 <= 11;
    assert HEX[8] == "89ab"[0] && HEX[9] == "89ab"[1] && HEX[10] == "89ab"[2] && HEX[11] == "89ab"[3];
  }

  // ---- the digest in the identity ----

  /** The value of a lower-case hexadecimal digit. */
  function HexValue(c: char): int {
    if '0' <= c <= '9' then c as int - '0' as int else c as int - 'a' as int + 10
  }

  /** Where the two digits of byte `i` stand in the 8-4-4-4-12 shape. */
  function DigitsAt(i: nat): nat {
    2 * i + (if i < 4 then 0 else if i < 6 then 1 else if i < 8 then 2 else if i < 10 then 3 else 4)
  }

  /** The bits of the digest that the identity carries: all of the first sixteen bytes but those
      of the version and the variant. */
  function Carried(h: Digest, i: nat): int
    requires i < 16
  {
    if i == 6 then h[i] as int % 16 else if i == 8 then h[i] as int % 64 else h[i] as int
  }

  lemma HexDigitValue(n: Byte)
    requires n < 16
    ensures HexValue(HEX[n]) == n as int
  {
  }

  lemma HexPair(bs: Bytes, k: nat)
    requires k < |bs|
    ensures 16 * HexValue(HexBytes(bs)[2 * k]) + HexValue(HexBytes(bs)[2 * k + 1]) == bs[k] as int
  {
    hide HexValue;
    HexDigitValue(bs[k] / 16);
    HexDigitValue(bs[k] % 16);
    EvenAndOdd(k);
  }

  lemma EvenAndOdd(k: nat)
    ensures (2 * k) % 2 == 0 && (2 * k) / 2 == k && (2 * k + 1) % 2 == 1 && (2 * k + 1) / 2 == k
  {
  }

  lemma GroupsPlaced(h: Digest)
    ensures var u, v := MessageUUID(h), Stamped(h);
            && |u| == 36 && u[..8] == HexBytes(v[..4]) && u[9..13] == HexBytes(v[4..6])
            && u[14..18] == HexBytes(v[6..8]) && u[19..23] == HexBytes(v[8..10]) && u[24..] == HexBytes(v[10..16])
  {
    hide HexBytes, Stamped;
  }

  lemma PairAt(u: string, at: nat, bs: Bytes, k: nat)
    requires k < |bs| && at + 2 * |bs| <= |u| && u[at..at + 2 * |bs|] == HexBytes(bs)
    ensures 16 * HexValue(u[at + 2 * k]) + HexValue(u[at + 2 * k + 1]) == bs[k] as int
  {
    hide HexBytes, HexValue;
    HexPair(bs, k);
    var g := u[at..at + 2 * |bs|];
    assert u[at + 2 * k] == g[2 * k] && u[at + 2 * k + 1] == g[2 * k + 1];
  }

  lemma DigitsOfStamped(h: Digest, i: nat)
    requires i < 16
    ensures |MessageUUID(h)| == 36 && DigitsAt(i) + 1 < 36
    ensures 16 * HexValue(MessageUUID(h)[DigitsAt(i)]) + HexValue(MessageUUID(h)[DigitsAt(i) + 1]) == Stamped(h)[i] as int
  {
    hide HexBytes, HexValue, Stamped, MessageUUID;
    GroupsPlaced(h);
    var u, v := MessageUUID(h), Stamped(h);
    if i < 4 {
      PairAt(u, 0, v[..4], i);
      assert DigitsAt(i) == 0 + 2 * i && v[..4][i] == v[i];
    } else if i < 6 {
      PairAt(u, 9, v[4..6], i - 4);
      assert DigitsAt(i) == 9 + 2 * (i - 4) && v[4..6][i - 4] == v[i];
    } else if i < 8 {
      PairAt(u, 14, v[6..8], i - 6);
      assert DigitsAt(i) == 14 + 2 * (i - 6) && v[6..8][i - 6] == v[i];
    } else if i < 10 {
      PairAt(u, 19, v[8..10], i - 8);
      assert DigitsAt(i) == 19 + 2 * (i - 8) && v[8..10][i - 8] == v[i];
    } else {
      PairAt(u, 24, v[10..16], i - 10);
      assert DigitsAt(i) == 24 + 2 * (i - 10) && v[10..16][i - 10] == v[i];
    }
  }

  /** Every one of the first sixteen digest bytes can be read from the identity, except for the
      bits that mark it: byte 6 has 8 in front, byte 8 a digit from 8 to b. */
  lemma IdentityCarriesDigest(h: Digest, i: nat)
    requires i < 16
    ensures |MessageUUID(h)| == 36 && DigitsAt(i) + 1 < 36
    ensures 16 * HexValue(MessageUUID(h)[DigitsAt(i)]) + HexValue(MessageUUID(h)[DigitsAt(i) + 1]) ==
            Carried(h, i) + if i == 6 || i == 8 then 128 else 0
  {
    DigitsOfStamped(h, i);
  }

  predicate SameCarried(a: Digest, b: Digest) {
    forall i :: 0 <= i < 16 ==> Carried(a, i) == Carried(b, i)
  }

  /** Two identities are the same exactly when the digests agree in what is carried. */
  lemma SameIdentityExactly(a: Digest, b: Digest)
    ensures MessageUUID(a) == MessageUUID(b) <==> SameCarried(a, b)
  {
    hide MessageUUID, HexValue;
    if MessageUUID(a) == MessageUUID(b) {
      forall i | 0 <= i < 16 ensures Carried(a, i) == Carried(b, i) {
        IdentityCarriesDigest(a, i);
        IdentityCarriesDigest(b, i);
      }
    }
    if SameCarried(a, b) {
      SameStamped(a, b);
    }
  }

  lemma SameStamped(a: Digest, b: Digest)
    requires SameCarried(a, b)
    ensures MessageUUID(a) == MessageUUID(b)
  {
    hide HexBytes;
    var v, w := Stamped(a), Stamped(b);
    forall i | 0 <= i < 16 ensures v[i] == w[i] {
      assert Carried(a, i) == Carried(b, i);
    }
    assert v[..4] == w[..4] && v[4..6] == w[4..6] && v[6..8] == w[6..8] && v[8..10] == w[8..10] && v[10..16] == w[10..16];
  }
}
