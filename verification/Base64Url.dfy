/** Bytes as text in the URL-safe alphabet of section 5 of RFC 4648, without padding. */
module Base64Url {
  import opened Common

  type Byte = b: nat | b < 256
  type Bytes = seq<Byte>
  type Sextet = v: nat | v < 64

  function Digit(v: Sextet): char {
    if v < 26 then 'A' + v as char
    else if v < 52 then 'a' + (v - 26) as char
    else if v < 62 then '0' + (v - 52) as char
    else if v == 62 then '-' else '_'
  }

  /** Decoding also takes the two digits of the plain alphabet. */
  function Value(c: char): Option<Sextet> {
    if 'A' <= c <= 'Z' then Some((c - 'A') as nat)
    else if 'a' <= c <= 'z' then Some((c - 'a') as nat + 26)
    else if '0' <= c <= '9' then Some((c - '0') as nat + 52)
    else if c == '-' || c == '+' then Some(62)
    else if c == '_' || c == '/' then Some(63)
    else None
  }

  function Unpack(bytes: Bytes): seq<Sextet> {
    if |bytes| == 0 then []
    else if |bytes| == 1 then [bytes[0] / 4, bytes[0] % 4 * 16]
    else if |bytes| == 2 then [bytes[0] / 4, bytes[0] % 4 * 16 + bytes[1] / 16, bytes[1] % 16 * 4]
    else
      [bytes[0] / 4, bytes[0] % 4 * 16 + bytes[1] / 16, bytes[1] % 16 * 4 + bytes[2] / 64, bytes[2] % 64]
      + Unpack(bytes[3..])
  }

  function Pack(sextets: seq<Sextet>): Bytes {
    if |sextets| <= 1 then []
    else
      var a: nat, b: nat := sextets[0], sextets[1];
      var first: Byte := a * 4 + b / 16;
      if |sextets| == 2 then [first]
      else
        var c: nat := sextets[2];
        var second: Byte := b % 16 * 16 + c / 4;
        if |sextets| == 3 then [first, second]
        else
          var d: nat := sextets[3];
          var third: Byte := c % 4 * 64 + d;
          [first, second, third] + Pack(sextets[4..])
  }

  function Digits(sextets: seq<Sextet>): string {
    if sextets == [] then "" else [Digit(sextets[0])] + Digits(sextets[1..])
  }

  /** Reading stops at padding and skips what is no digit. */
  function Sextets(text: string): seq<Sextet> {
    if text == "" || text[0] == '=' then []
    else (match Value(text[0]) case Some(v) => [v] case None => []) + Sextets(text[1..])
  }

  function Encode(bytes: Bytes): string {
    Digits(Unpack(bytes))
  }

  function Decode(text: string): Bytes {
    Pack(Sextets(text))
  }

  lemma DigitValue(v: Sextet)
    ensures Value(Digit(v)) == Some(v)
  {
  }

  lemma {:induction false} DigitsAreRead(sextets: seq<Sextet>)
    ensures Sextets(Digits(sextets)) == sextets
    ensures forall i :: 0 <= i < |Digits(sextets)| ==> Value(Digits(sextets)[i]).Some?
  {
    if sextets != [] {
      DigitValue(sextets[0]);
      DigitsAreRead(sextets[1..]);
    }
  }

  lemma {:induction false} PackUnpack(bytes: Bytes)
    ensures Pack(Unpack(bytes)) == bytes
    ensures bytes == [] <==> Unpack(bytes) == []
    decreases |bytes|
  {
    if |bytes| > 2 {
      PackUnpack(bytes[3..]);
      assert Unpack(bytes)[4..] == Unpack(bytes[3..]);
    }
  }

  /** What is encoded decodes to itself, and its text holds only digits, so no separator. */
  lemma EncodeDecode(bytes: Bytes)
    ensures Decode(Encode(bytes)) == bytes
    ensures Encode(bytes) == "" <==> bytes == []
    ensures forall i :: 0 <= i < |Encode(bytes)| ==> Value(Encode(bytes)[i]).Some?
  {
    PackUnpack(bytes);
    DigitsAreRead(Unpack(bytes));
  }

  // ---------------------------------------------------------------------------- against the RFC

  const LETTERS := "ABCDEFGHIJKLMNOPQRSTUVWXYZ"
  const SMALL_LETTERS := "abcdefghijklmnopqrstuvwxyz"
  const DECIMALS := "0123456789"

  /** Tables 2 and 1 of sections 5 and 4. */
  const URL_DIGITS := LETTERS + SMALL_LETTERS + DECIMALS + "-_"
  const PLAIN_DIGITS := LETTERS + SMALL_LETTERS + DECIMALS + "+/"

  lemma LettersInOrder(i: nat)
    requires i < 26
    ensures LETTERS[i] == 'A' + i as char && SMALL_LETTERS[i] == 'a' + i as char
  {
    assert i in {0, 1, 2, 3, 4, 5, 6, 7, 8, 9, 10, 11, 12, 13, 14, 15, 16, 17, 18, 19, 20, 21, 22, 23, 24, 25};
  }

  lemma DecimalsInOrder(i: nat)
    requires i < 10
    ensures DECIMALS[i] == '0' + i as char
  {
    assert i in {0, 1, 2, 3, 4, 5, 6, 7, 8, 9};
  }

  /** Writing takes the URL-safe digits. */
  lemma DigitIsTheTable(v: Sextet)
    ensures |URL_DIGITS| == 64 && Digit(v) == URL_DIGITS[v]
    ensures |PLAIN_DIGITS| == 64 && (v < 62 ==> PLAIN_DIGITS[v] == URL_DIGITS[v])
  {
    if v < 26 { LettersInOrder(v); }
    else if v < 52 { LettersInOrder(v - 26); }
    else if v < 62 { DecimalsInOrder(v - 52); }
  }

  lemma ValueIsDigit(c: char, v: Sextet)
    ensures Value(c) == Some(v) <==> c == Digit(v) || (v == 62 && c == '+') || (v == 63 && c == '/')
  {
  }

  /** Reading takes those of either table. */
  lemma ValueIsTheTables(c: char, v: Sextet)
    ensures |URL_DIGITS| == |PLAIN_DIGITS| == 64
    ensures Value(c) == Some(v) <==> c == URL_DIGITS[v] || c == PLAIN_DIGITS[v]
  {
    DigitIsTheTable(v);
    ValueIsDigit(c, v);
    assert PLAIN_DIGITS[62] == '+' && PLAIN_DIGITS[63] == '/';
  }

  /** Three bytes are four digits with the same bits; one or two at the end are filled up with zero bits. */
  lemma BlockHasTheBits(a: Byte, b: Byte, c: Byte)
    ensures var s: seq<nat> := Unpack([a, b, c]);
      |s| == 4 && 65_536 * a + 256 * b + c == 262_144 * s[0] + 4_096 * s[1] + 64 * s[2] + s[3]
    ensures var s: seq<nat> := Unpack([a, b]); |s| == 3 && 4 * (256 * a + b) == 4_096 * s[0] + 64 * s[1] + s[2]
    ensures var s: seq<nat> := Unpack([a]); |s| == 2 && 16 * a == 64 * s[0] + s[1]
  {
    assert [a, b, c][3..] == [];
  }

  lemma {:induction false} UnpackInBlocks(a: Bytes, b: Bytes)
    requires |a| % 3 == 0
    ensures Unpack(a + b) == Unpack(a) + Unpack(b)
    decreases |a|
  {
    if a == [] {
      assert a + b == b;
    } else {
      UnpackInBlocks(a[3..], b);
      assert (a + b)[3..] == a[3..] + b;
    }
  }

  lemma {:induction false} DigitsJoin(a: seq<Sextet>, b: seq<Sextet>)
    ensures Digits(a + b) == Digits(a) + Digits(b)
  {
    if a == [] {
      assert a + b == b;
    } else {
      var first := [Digit(a[0])];
      DigitsJoin(a[1..], b);
      assert (a + b)[0] == a[0] && (a + b)[1..] == a[1..] + b;
      assert Digits(a + b) == first + Digits(a[1..] + b);
      assert first + (Digits(a[1..]) + Digits(b)) == (first + Digits(a[1..])) + Digits(b);
    }
  }

  /** Text is written block by block, three bytes to four digits. */
  lemma EncodeInBlocks(a: Bytes, b: Bytes)
    requires |a| % 3 == 0
    ensures Encode(a + b) == Encode(a) + Encode(b)
  {
    UnpackInBlocks(a, b);
    DigitsJoin(Unpack(a), Unpack(b));
  }

  /** The same digits of the plain alphabet of section 4. */
  function Plainly(text: string): string {
    if text == "" then ""
    else [if text[0] == '-' then '+' else if text[0] == '_' then '/' else text[0]] + Plainly(text[1..])
  }

  /** Bytes in that alphabet, filled up with `=` to whole blocks of four. */
  function EncodePlain(bytes: Bytes): string {
    Plainly(Encode(bytes)) + (if |bytes| % 3 == 1 then "==" else if |bytes| % 3 == 2 then "=" else "")
  }

  lemma {:induction false} PaddingEnds(text: string, rest: string)
    requires forall i :: 0 <= i < |text| ==> text[i] != '='
    ensures Sextets(text + "=" + rest) == Sextets(text) && Sextets(text + "") == Sextets(text)
  {
    var all := text + "=" + rest;
    assert text + "" == text;
    if text != "" {
      PaddingEnds(text[1..], rest);
      assert all[1..] == text[1..] + "=" + rest;
    }
  }

  lemma {:induction false} PlainReadsTheSame(text: string)
    requires forall i :: 0 <= i < |text| ==> Value(text[i]).Some?
    ensures Sextets(Plainly(text)) == Sextets(text)
    ensures forall i :: 0 <= i < |Plainly(text)| ==> Plainly(text)[i] != '='
  {
    if text != "" { PlainReadsTheSame(text[1..]); }
  }

  /** Bytes written in the plain alphabet, padded, are read back as well. */
  lemma PlainIsReadBack(bytes: Bytes)
    ensures Decode(EncodePlain(bytes)) == bytes
  {
    EncodeDecode(bytes);
    PlainReadsTheSame(Encode(bytes));
    PaddingEnds(Plainly(Encode(bytes)), "");
    PaddingEnds(Plainly(Encode(bytes)), "=");
    assert Plainly(Encode(bytes)) + "=" + "" == Plainly(Encode(bytes)) + "=";
    assert Plainly(Encode(bytes)) + "=" + "=" == Plainly(Encode(bytes)) + "==";
  }
}
