/**
 NFTokenIDs of XLS-20 (src/xrpl/nftoken.js): 64 hexadecimal digits holding flags, transfer fee, issuer,
 scrambled taxon and serial.
 */
module NftTokenId {
  import opened Wrappers

  const UINT32 := 0x1_0000_0000

  /** The issuer is the account's twenty bytes; its base58 form is a bijection of them. */
  datatype TokenId = TokenId(flags: int, transferFee: int, issuer: seq<int>, taxon: int, serial: int)

  predicate IsHex(c: char) { '0' <= c <= '9' || 'a' <= c <= 'f' || 'A' <= c <= 'F' }

  predicate AllHex(s: string) { forall i :: 0 <= i < |s| ==> IsHex(s[i]) }

  function Digit(c: char): (d: int)
    requires IsHex(c)
    ensures 0 <= d < 16
  {
    if c <= '9' then c as int - '0' as int
    else if c <= 'F' then c as int - 'A' as int + 10
    else c as int - 'a' as int + 10
  }

  function Parse(s: string): (n: int)
    requires AllHex(s)
    ensures n >= 0
  {
    if s == "" then 0 else Parse(s[..|s| - 1]) * 16 + Digit(s[|s| - 1])
  }

  function Bytes(s: string): seq<int>
    requires AllHex(s)
  {
    if |s| < 2 then [] else [Parse(s[..2])] + Bytes(s[2..])
  }

  function Xor(a: int, b: int): (x: int)
    requires a >= 0 && b >= 0
    ensures x >= 0
    decreases a + b
  {
    if a == 0 && b == 0 then 0
    else 2 * Xor(a / 2, b / 2) + if a % 2 == b % 2 then 0 else 1
  }

  /** What the taxon is scrambled with. */
  function Mask(serial: int): (m: int)
    ensures 0 <= m < UINT32
  {
    (384160001 * serial + 2459) % UINT32
  }

  /** The id's parts, still in hexadecimal. */
  datatype Fields = Fields(flags: string, transferFee: string, issuer: string, taxon: string, serial: string)

  function Split(id: string): Fields
    requires |id| == 64
  {
    Fields(id[0..4], id[4..8], id[8..48], id[48..56], id[56..64])
  }

  predicate AllFieldsHex(f: Fields) {
    AllHex(f.flags) && AllHex(f.transferFee) && AllHex(f.issuer) && AllHex(f.taxon) && AllHex(f.serial)
  }

  function Unpack(f: Fields): TokenId
    requires AllFieldsHex(f)
  {
    var serial := Parse(f.serial);
    TokenId(Parse(f.flags), Parse(f.transferFee), Bytes(f.issuer), Xor(Parse(f.taxon), Mask(serial)) % UINT32, serial)
  }

  function Decode(id: string): Option<TokenId> {
    if |id| != 64 || !AllHex(id) then None else Some(Unpack(Split(id)))
  }

  // ---- The inverse packing ----

  predicate WellFormed(t: TokenId) {
    0 <= t.flags < 0x1_0000 && 0 <= t.transferFee < 0x1_0000
    && |t.issuer| == 20 && (forall i :: 0 <= i < 20 ==> 0 <= t.issuer[i] < 256)
    && 0 <= t.taxon < UINT32 && 0 <= t.serial < UINT32
  }

  function HexDigit(d: int): (c: char)
    requires 0 <= d < 16
    ensures IsHex(c) && Digit(c) == d
  {
    "0123456789ABCDEF"[d]
  }

  function Hex(n: int, width: int): (s: string)
    requires n >= 0 && width >= 0
    ensures |s| == width && AllHex(s)
    decreases width
  {
    if width == 0 then "" else Hex(n / 16, width - 1) + [HexDigit(n % 16)]
  }

  function HexBytes(bytes: seq<int>): (s: string)
    requires forall i :: 0 <= i < |bytes| ==> 0 <= bytes[i] < 256
    ensures |s| == 2 * |bytes| && AllHex(s)
  {
    if bytes == [] then "" else Hex(bytes[0], 2) + HexBytes(bytes[1..])
  }

  function Pack(t: TokenId): (f: Fields)
    requires WellFormed(t)
  {
    Fields(
      Hex(t.flags, 4), Hex(t.transferFee, 4), HexBytes(t.issuer),
      Hex(Xor(t.taxon, Mask(t.serial)), 8), Hex(t.serial, 8))
  }

  function Join(f: Fields): string {
    f.flags + f.transferFee + f.issuer + f.taxon + f.serial
  }

  function Encode(t: TokenId): string
    requires WellFormed(t)
  {
    Join(Pack(t))
  }

  function Upper(c: char): char {
    if 'a' <= c <= 'f' then (c as int - 'a' as int + 'A' as int) as char else c
  }

  function UpperCase(s: string): string {
    seq(|s|, i requires 0 <= i < |s| => Upper(s[i]))
  }

  // ---- Scrambling ----

  function Pow2(n: int): (p: int)
    ensures p > 0
    decreases n
  {
    if n <= 0 then 1 else 2 * Pow2(n - 1)
  }

  lemma {:induction false} XorBelow(a: int, b: int, n: int)
    requires 0 <= a < Pow2(n) && 0 <= b < Pow2(n) && n >= 0
    ensures 0 <= Xor(a, b) < Pow2(n)
    decreases n
  {
    if n > 0 {
      XorBelow(a / 2, b / 2, n - 1);
    }
  }

  lemma {:induction false} XorTwice(a: int, b: int, n: int)
    requires 0 <= a < Pow2(n) && 0 <= b < Pow2(n) && n >= 0
    ensures Xor(a, b) >= 0 && Xor(Xor(a, b), b) == a
    decreases n
  {
    XorBelow(a, b, n);
    if n > 0 && (a != 0 || b != 0) {
      XorTwice(a / 2, b / 2, n - 1);
      var x := Xor(a, b);
      assert x / 2 == Xor(a / 2, b / 2);
      assert x % 2 == if a % 2 == b % 2 then 0 else 1;
      XorUnfolds(x, b);
    }
  }

  lemma XorUnfolds(a: int, b: int)
    requires a >= 0 && b >= 0
    ensures Xor(a, b) == 2 * Xor(a / 2, b / 2) + if a % 2 == b % 2 then 0 else 1
  {
  }

  lemma Pow32()
    ensures Pow2(32) == UINT32
  {
    assert Pow2(8) == 0x100;
    assert Pow2(16) == 0x1_0000;
    assert Pow2(24) == 0x100_0000;
  }

  /** Scrambling stays within 32 bits and undoes itself, for every serial. */
  lemma ScrambleTwice(taxon: int, serial: int)
    requires 0 <= taxon < UINT32
    ensures 0 <= Xor(taxon, Mask(serial)) < UINT32
    ensures Xor(Xor(taxon, Mask(serial)), Mask(serial)) == taxon
  {
    Pow32();
    XorBelow(taxon, Mask(serial), 32);
    XorTwice(taxon, Mask(serial), 32);
  }

  // ---- Digits ----

  function Pow16(n: int): (p: int)
    ensures p > 0
    decreases n
  {
    if n <= 0 then 1 else 16 * Pow16(n - 1)
  }

  lemma {:induction false} ParseHex(n: int, width: int)
    requires 0 <= n < Pow16(width) && width >= 0
    ensures Parse(Hex(n, width)) == n
    decreases width
  {
    if width > 0 {
      ParseHex(n / 16, width - 1);
      assert Hex(n, width)[..width - 1] == Hex(n / 16, width - 1);
    }
  }

  lemma {:induction false} HexParse(s: string)
    requires AllHex(s)
    ensures 0 <= Parse(s) < Pow16(|s|) && Hex(Parse(s), |s|) == UpperCase(s)
  {
    if s != "" {
      var init, last := s[..|s| - 1], s[|s| - 1];
      HexParse(init);
      DigitUpper(last);
      assert Parse(s) / 16 == Parse(init) && Parse(s) % 16 == Digit(last);
      assert UpperCase(s) == UpperCase(init) + [Upper(last)];
    }
  }

  lemma DigitUpper(c: char)
    requires IsHex(c)
    ensures HexDigit(Digit(c)) == Upper(c)
  {
  }

  lemma {:induction false} BytesHex(bytes: seq<int>)
    requires forall i :: 0 <= i < |bytes| ==> 0 <= bytes[i] < 256
    ensures Bytes(HexBytes(bytes)) == bytes
  {
    hide Hex, Parse, IsHex, Digit;
    if bytes != [] {
      BytesHex(bytes[1..]);
      assert Pow16(2) == 256;
      ParseHex(bytes[0], 2);
      assert HexBytes(bytes)[..2] == Hex(bytes[0], 2) && HexBytes(bytes)[2..] == HexBytes(bytes[1..]);
    }
  }

  lemma {:induction false} HexBytesOf(s: string)
    requires AllHex(s) && |s| % 2 == 0
    ensures |Bytes(s)| == |s| / 2 && (forall i :: 0 <= i < |Bytes(s)| ==> 0 <= Bytes(s)[i] < 256)
    ensures HexBytes(Bytes(s)) == UpperCase(s)
  {
    hide Hex, Parse, IsHex, Digit, Upper;
    if s != "" {
      HexBytesOf(s[2..]);
      HexParse(s[..2]);
      assert Pow16(2) == 256;
      assert Bytes(s)[1..] == Bytes(s[2..]);
      assert UpperCase(s) == UpperCase(s[..2]) + UpperCase(s[2..]);
    }
  }

  lemma Pow16Values()
    ensures Pow16(4) == 0x1_0000 && Pow16(8) == UINT32
  {
  }

  // ---- The bijection ----

  predicate Sized(f: Fields) {
    |f.flags| == 4 && |f.transferFee| == 4 && |f.issuer| == 40 && |f.taxon| == 8 && |f.serial| == 8
  }

  lemma SplitJoin(f: Fields)
    requires Sized(f) && AllFieldsHex(f)
    ensures |Join(f)| == 64 && AllHex(Join(f)) && Split(Join(f)) == f
  {
    hide IsHex;
    var id := Join(f);
    assert id[0..4] == f.flags;
    assert id[4..8] == f.transferFee;
    assert id[8..48] == f.issuer;
    assert id[48..56] == f.taxon;
    assert id[56..64] == f.serial;
  }

  lemma UnpackPack(t: TokenId)
    requires WellFormed(t)
    ensures Sized(Pack(t)) && AllFieldsHex(Pack(t)) && Unpack(Pack(t)) == t
  {
    hide Xor, Mask, AllHex, Hex, Parse, HexBytes, Bytes, Pow16;
    var scrambled := Xor(t.taxon, Mask(t.serial));
    ScrambleTwice(t.taxon, t.serial);
    Pow16Values();
    ParseHex(t.flags, 4);
    ParseHex(t.transferFee, 4);
    BytesHex(t.issuer);
    ParseHex(scrambled, 8);
    ParseHex(t.serial, 8);
  }

  /** Decoding undoes the packing. */
  lemma DecodeEncode(t: TokenId)
    requires WellFormed(t)
    ensures Decode(Encode(t)) == Some(t)
  {
    hide AllHex, AllFieldsHex, Sized, Split, Join, Pack, Unpack, WellFormed;
    UnpackPack(t);
    SplitJoin(Pack(t));
  }

  function UpperFields(f: Fields): Fields {
    Fields(UpperCase(f.flags), UpperCase(f.transferFee), UpperCase(f.issuer), UpperCase(f.taxon), UpperCase(f.serial))
  }

  lemma SplitHex(id: string)
    requires |id| == 64 && AllHex(id)
    ensures Sized(Split(id)) && AllFieldsHex(Split(id))
  {
  }

  lemma JoinUpper(id: string)
    requires |id| == 64
    ensures Join(UpperFields(Split(id))) == UpperCase(id)
  {
    hide Upper;
  }

  lemma PackUnpack(f: Fields)
    requires Sized(f) && AllFieldsHex(f)
    ensures WellFormed(Unpack(f)) && Pack(Unpack(f)) == UpperFields(f)
  {
    hide Xor, Mask, AllHex, Hex, Parse, HexBytes, Bytes, Pow16, UpperCase;
    Pow16Values();
    HexParse(f.flags);
    HexParse(f.transferFee);
    HexBytesOf(f.issuer);
    HexParse(f.taxon);
    HexParse(f.serial);
    ScrambleTwice(Parse(f.taxon), Parse(f.serial));
  }

  /**
   Exactly the strings of 64 hexadecimal digits decode, to fields in range that pack into the same id in
   upper case.
   */
  lemma EncodeDecode(id: string)
    ensures Decode(id).Some? <==> |id| == 64 && AllHex(id)
    ensures Decode(id).Some? ==> WellFormed(Decode(id).value) && Encode(Decode(id).value) == UpperCase(id)
  {
    hide AllHex, AllFieldsHex, Sized, Split, Join, Pack, Unpack, WellFormed, UpperFields, UpperCase;
    if |id| == 64 && AllHex(id) {
      SplitHex(id);
      PackUnpack(Split(id));
      JoinUpper(id);
    }
  }

  /** Bit `k` of a number. */
  function Bit(x: int, k: int): int
    requires x >= 0 && k >= 0
  {
    if k == 0 then x % 2 else Bit(x / 2, k - 1)
  }

  /** Exclusive or, bit by bit. */
  lemma {:induction false} XorBit(a: int, b: int, k: int)
    requires a >= 0 && b >= 0 && k >= 0
    ensures Bit(Xor(a, b), k) == (Bit(a, k) + Bit(b, k)) % 2
    decreases k
  {
    XorUnfolds(a, b);
    if k > 0 {
      assert Xor(a, b) / 2 == Xor(a / 2, b / 2);
      XorBit(a / 2, b / 2, k - 1);
    }
  }

  /** Where the fields are, and the taxon by the formula of XLS-20. */
  lemma FieldsIn(id: string, k: int)
    requires Decode(id).Some? && k >= 0
    ensures AllHex(id[0..4]) && AllHex(id[4..8]) && AllHex(id[48..56]) && AllHex(id[56..64])
    ensures var t := Decode(id).value;
            t.flags == Parse(id[0..4]) && t.transferFee == Parse(id[4..8]) && t.serial == Parse(id[56..64])
            && t.taxon >= 0
            && Bit(t.taxon, k)
               == (Bit(Parse(id[48..56]), k) + Bit((384160001 * t.serial + 2459) % 0x1_0000_0000, k)) % 2
  {
    hide Xor, Parse, Bit, AllHex, Bytes;
    SplitHex(id);
    var scrambled, serial := Parse(id[48..56]), Parse(id[56..64]);
    EightDigits(id[48..56]);
    ScrambleTwice(scrambled, serial);
    XorBit(scrambled, Mask(serial), k);
  }

  lemma EightDigits(s: string)
    requires AllHex(s) && |s| == 8
    ensures 0 <= Parse(s) < UINT32
  {
    hide Parse;
    HexParse(s);
    Pow16Values();
  }

  /** Each byte of the issuer is two digits. */
  lemma {:induction false} ByteAt(s: string, k: int)
    requires AllHex(s) && 0 <= k && 2 * k + 2 <= |s|
    ensures k < |Bytes(s)| && Bytes(s)[k] == Parse(s[2 * k..2 * k + 2])
    decreases k
  {
    if k > 0 {
      ByteAt(s[2..], k - 1);
      assert s[2..][2 * (k - 1)..2 * (k - 1) + 2] == s[2 * k..2 * k + 2];
    }
  }

  /** The example of XLS-20: scrambled taxon BC8B858E with serial 00000D65 is taxon 146999694 of serial 3429. */
  lemma ExampleId(id: string)
    requires |id| == 64 && AllHex(id) && id[48..56] == "BC8B858E" && id[56..64] == "00000D65"
    ensures Decode(id).Some? && Decode(id).value.taxon == 146_999_694 && Decode(id).value.serial == 3429
  {
    hide Xor, Parse, Hex, AllHex, Bytes, Pow16, Mask;
    SplitHex(id);
    ExampleTaxon();
    ExampleSerial();
    Pow16Values();
    ParseHex(0xBC8B_858E, 8);
    ParseHex(3429, 8);
    ExampleScramble();
  }

  lemma XorBitMore(a: int, b: int, c: int, d: int)
    requires a >= 0 && b >= 0 && 0 <= c < 2 && 0 <= d < 2
    ensures Xor(2 * a + c, 2 * b + d) == 2 * Xor(a, b) + if c == d then 0 else 1
  {
    XorUnfolds(2 * a + c, 2 * b + d);
  }

  lemma XorTwoBits(a: int, b: int, c: int, d: int)
    requires a >= 0 && b >= 0 && 0 <= c < 4 && 0 <= d < 4
    ensures Xor(4 * a + c, 4 * b + d) == 4 * Xor(a, b) + Xor(c, d)
  {
    hide Xor;
    XorBitMore(2 * a + c / 2, 2 * b + d / 2, c % 2, d % 2);
    XorBitMore(a, b, c / 2, d / 2);
    XorBitMore(c / 2, d / 2, c % 2, d % 2);
    XorBitMore(0, 0, c / 2, d / 2);
    XorZero();
  }

  /** Exclusive or, digit by digit. */
  lemma XorDigit(a: int, b: int, c: int, d: int)
    requires a >= 0 && b >= 0 && 0 <= c < 16 && 0 <= d < 16
    ensures Xor(16 * a + c, 16 * b + d) == 16 * Xor(a, b) + Xor(c, d)
  {
    hide Xor;
    XorTwoBits(4 * a + c / 4, 4 * b + d / 4, c % 4, d % 4);
    XorTwoBits(a, b, c / 4, d / 4);
    XorTwoBits(c / 4, d / 4, c % 4, d % 4);
  }

  lemma XorZero()
    ensures Xor(0, 0) == 0
  {
  }

  lemma ExampleDigits()
    ensures Xor(0xB, 0xB) == 0 && Xor(0xC, 4) == 8 && Xor(8, 4) == 0xC && Xor(0xB, 8) == 3
  {
  }

  lemma MoreExampleDigits()
    ensures Xor(8, 8) == 0 && Xor(5, 0xC) == 9 && Xor(8, 0) == 8 && Xor(0xE, 0) == 0xE
  {
  }

  lemma ExampleScramble()
    ensures Mask(3429) == 0xB448_8C00 && Xor(0xBC8B_858E, 0xB448_8C00) == 146_999_694
  {
    hide Xor;
    ExampleDigits();
    MoreExampleDigits();
    XorDigit(0xB, 0xB, 0xC, 4);
    XorDigit(0xBC, 0xB4, 8, 4);
    XorDigit(0xBC8, 0xB44, 0xB, 8);
    XorDigit(0xBC8B, 0xB448, 8, 8);
    XorDigit(0xBC8B8, 0xB4488, 5, 0xC);
    XorDigit(0xBC8B85, 0xB4488C, 8, 0);
    XorDigit(0xBC8B858, 0xB4488C0, 0xE, 0);
  }

  /** One more digit at the end. */
  lemma HexDigitMore(n: int, d: int, width: int)
    requires n >= 0 && 0 <= d < 16 && width > 0
    ensures Hex(16 * n + d, width) == Hex(n, width - 1) + [HexDigit(d)]
  {
    assert (16 * n + d) / 16 == n && (16 * n + d) % 16 == d;
  }

  lemma HexNothing()
    ensures Hex(0, 0) == ""
  {
  }

  lemma ExampleTaxon()
    ensures Hex(0xBC8B_858E, 8) == "BC8B858E"
  {
    hide Hex;
    HexNothing();
    HexDigitMore(0, 0xB, 1);
    HexDigitMore(0xB, 0xC, 2);
    HexDigitMore(0xBC, 8, 3);
    HexDigitMore(0xBC8, 0xB, 4);
    HexDigitMore(0xBC8B, 8, 5);
    HexDigitMore(0xBC8B8, 5, 6);
    HexDigitMore(0xBC8B85, 8, 7);
    HexDigitMore(0xBC8B858, 0xE, 8);
  }

  lemma ExampleSerial()
    ensures Hex(3429, 8) == "00000D65"
  {
    hide Hex;
    HexNothing();
    HexDigitMore(0, 0, 1);
    HexDigitMore(0, 0, 2);
    HexDigitMore(0, 0, 3);
    HexDigitMore(0, 0, 4);
    HexDigitMore(0, 0, 5);
    HexDigitMore(0, 0xD, 6);
    HexDigitMore(0xD, 6, 7);
    HexDigitMore(0xD6, 5, 8);
  }

  /** Two ids decode alike only if they are the same up to case. */
  lemma DecodeInjective(a: string, b: string)
    requires Decode(a).Some? && Decode(a) == Decode(b)
    ensures UpperCase(a) == UpperCase(b)
  {
    hide Decode, Encode, UpperCase, WellFormed;
    EncodeDecode(a);
    EncodeDecode(b);
  }
}
