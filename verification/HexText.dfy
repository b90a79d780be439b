/** The hash text an import accepts is the text the store writes: the lower-case hex of 32 bytes. */
module HexText {
  import opened Snapshots
  import opened Import

  function Digit(n: nat): (c: char)
    requires n < 16
  {
    if n < 10 then ('0' as int + n) as char else ('a' as int + n - 10) as char
  }

  function Nibble(c: char): (n: nat)
    ensures n < 16
  {
    if '0' <= c <= '9' then c as int - '0' as int
    else if 'a' <= c <= 'f' then c as int - 'a' as int + 10
    else 0
  }

  /** `hex::encode`. */
  function Encode(bytes: Bytes): (h: Hash)
    ensures |h| == 2 * |bytes|
  {
    seq(2 * |bytes|, i requires 0 <= i < 2 * |bytes| =>
      if i % 2 == 0 then Digit(bytes[i / 2] as int / 16) else Digit(bytes[i / 2] as int % 16))
  }

  function Decode(h: Hash): (bytes: Bytes)
    ensures |bytes| == |h| / 2
  {
    seq(|h| / 2, k requires 0 <= k < |h| / 2 => (16 * Nibble(h[2 * k]) + Nibble(h[2 * k + 1])) as byte)
  }

  lemma DigitOfNibble(c: char)
    requires '0' <= c <= '9' || 'a' <= c <= 'f'
    ensures Digit(Nibble(c)) == c
  {
  }

  lemma DigitIsHex(n: nat)
    requires n < 16
    ensures '0' <= Digit(n) <= '9' || 'a' <= Digit(n) <= 'f'
    ensures Nibble(Digit(n)) == n
  {
  }

  /** Every encoding of 32 bytes is accepted, and decodes to them, so no two byte strings share a text. */
  lemma EncodedIsAccepted(bytes: Bytes)
    requires |bytes| == 32
    ensures LowerHex(Encode(bytes)) && Decode(Encode(bytes)) == bytes
  {
    var h := Encode(bytes);
    forall i | 0 <= i < |h| ensures '0' <= h[i] <= '9' || 'a' <= h[i] <= 'f' {
      DigitIsHex(if i % 2 == 0 then bytes[i / 2] as int / 16 else bytes[i / 2] as int % 16);
    }
    forall k | 0 <= k < 32 ensures Decode(h)[k] == bytes[k] {
      DigitIsHex(bytes[k] as int / 16);
      DigitIsHex(bytes[k] as int % 16);
      assert h[2 * k] == Digit(bytes[k] as int / 16) && h[2 * k + 1] == Digit(bytes[k] as int % 16);
    }
  }

  lemma EncodeAt(bytes: Bytes, k: nat)
    requires k < |bytes|
    ensures Encode(bytes)[2 * k] == Digit(bytes[k] as int / 16)
    ensures Encode(bytes)[2 * k + 1] == Digit(bytes[k] as int % 16)
  {
    assert (2 * k) / 2 == k && (2 * k) % 2 == 0;
    assert (2 * k + 1) / 2 == k && (2 * k + 1) % 2 == 1;
  }

  lemma ByteParts(high: nat, low: nat)
    requires high < 16 && low < 16
    ensures (16 * high + low) / 16 == high && (16 * high + low) % 16 == low
  {
  }

  lemma DecodeAt(h: Hash, k: nat)
    requires k < |h| / 2
    ensures Decode(h)[k] as int == 16 * Nibble(h[2 * k]) + Nibble(h[2 * k + 1])
  {
  }

  /** The two digits of a byte come back. */
  lemma DigitsComeBack(h: Hash, k: nat)
    requires LowerHex(h) && k < 32
    ensures Encode(Decode(h))[2 * k] == h[2 * k] && Encode(Decode(h))[2 * k + 1] == h[2 * k + 1]
  {
    hide Encode, Decode, Nibble, Digit;
    DecodeAt(h, k);
    ByteParts(Nibble(h[2 * k]), Nibble(h[2 * k + 1]));
    EncodeAt(Decode(h), k);
    DigitOfNibble(h[2 * k]);
    DigitOfNibble(h[2 * k + 1]);
  }

  lemma LowerHexLength(h: Hash)
    requires LowerHex(h)
    ensures |h| == 64
  {
  }

  /** Pass 1 accepts a hash text exactly when it is what the store itself would write for some 32 bytes. */
  lemma LowerHexIsEncoding(h: Hash)
    ensures LowerHex(h) <==> exists bytes: Bytes :: |bytes| == 32 && Encode(bytes) == h
  {
    hide Encode, Decode, LowerHex;
    if LowerHex(h) {
      assert |h| == 64 by {
        LowerHexLength(h);
      }
      var bytes := Decode(h);
      forall i | 0 <= i < 64 ensures Encode(bytes)[i] == h[i] {
        DigitsComeBack(h, i / 2);
        assert i == 2 * (i / 2) || i == 2 * (i / 2) + 1;
      }
      assert Encode(bytes) == h;
    }
    if bytes: Bytes :| |bytes| == 32 && Encode(bytes) == h {
      EncodedIsAccepted(bytes);
    }
  }
}
