/**
 * Sealed values and files: how key id, nonce, ciphertext and tag are put together and taken apart
 * again, over any authenticated cipher.
 */
module Envelope {
  import opened Common
  import opened Base64Url
  import opened DataKeys

  datatype Locked = Locked(text: Bytes, tag: Bytes)

  /** Both directions take key, nonce and associated data. */
  datatype Cipher = Cipher(
    lock: (Bytes, Bytes, string, Bytes) -> Locked,
    unlock: (Bytes, Bytes, string, Locked) -> Option<Bytes>)

  /** Exactly what was locked unlocks, to what it was, under a nonce of any length but none. */
  ghost predicate Ideal(cipher: Cipher) {
    && (forall key: Bytes, iv: Bytes, aad: string, plain: Bytes :: |iv| > 0 ==>
          var locked := cipher.lock(key, iv, aad, plain);
          |locked.text| == |plain| && |locked.tag| == 16 && cipher.unlock(key, iv, aad, locked) == Some(plain))
    && (forall key: Bytes, iv: Bytes, aad: string, locked: Locked ::
          |iv| > 0 && cipher.unlock(key, iv, aad, locked).Some? ==>
            cipher.lock(key, iv, aad, cipher.unlock(key, iv, aad, locked).value) == locked)
  }

  lemma UnlocksIff(cipher: Cipher, key: Bytes, iv: Bytes, aad: string, locked: Locked, plain: Bytes)
    requires Ideal(cipher) && |iv| > 0
    ensures cipher.unlock(key, iv, aad, locked) == Some(plain) <==> cipher.lock(key, iv, aad, plain) == locked
  {
  }

  datatype Refusal = EmptyValue | UnknownKey | InvalidEnvelope | CannotBeOpened | InvalidFile

  /** A `Map` built from the list: of two entries with one id the later stays. */
  function KeyFor(keys: seq<DataKey>, kid: string): Option<Bytes> {
    if keys == [] then None
    else if keys[|keys| - 1].kid == kid then Some(keys[|keys| - 1].key)
    else KeyFor(keys[..|keys| - 1], kid)
  }

  /** With distinct ids, a key of the list is found under its id. */
  lemma {:induction false} KeyIsFound(keys: seq<DataKey>, key: DataKey)
    requires Distinct(keys)
    ensures key in keys <==> KeyFor(keys, key.kid) == Some(key.key)
    decreases |keys|
  {
    if keys != [] {
      var front, last := keys[..|keys| - 1], keys[|keys| - 1];
      assert keys == front + [last];
      KeyIsFound(front, key);
      forall i | 0 <= i < |front| ensures front[i].kid != last.kid {
        assert keys[i].kid != keys[|keys| - 1].kid;
      }
    }
  }

  // ---------------------------------------------------------------------------------------- values

  function Parts(kid: string, iv: Bytes, locked: Locked): seq<string> {
    ["v1", kid, Encode(iv), Encode(locked.text), Encode(locked.tag)]
  }

  /** `iv` is the twelve random bytes. */
  function Seal(cipher: Cipher, keys: seq<DataKey>, plain: Bytes, aad: string, kid: string, iv: Bytes)
    : Result<string, Refusal>
  {
    if plain == [] then Err(EmptyValue)
    else
      match KeyFor(keys, kid)
      case None => Err(UnknownKey)
      case Some(key) => Ok(Join(Parts(kid, iv, cipher.lock(key, iv, aad, plain)), '.'))
  }

  function Open(cipher: Cipher, keys: seq<DataKey>, envelope: string, aad: string): Result<Bytes, Refusal> {
    var parts := Split(envelope, '.');
    if |parts| != 5 || parts[0] != "v1" || parts[1] == "" || parts[2] == "" || parts[3] == "" || parts[4] == "" then
      Err(InvalidEnvelope)
    else
      var iv, text, tag := Decode(parts[2]), Decode(parts[3]), Decode(parts[4]);
      if |iv| != 12 || |tag| != 16 || text == [] then Err(InvalidEnvelope)
      else
        match KeyFor(keys, parts[1])
        case None => Err(UnknownKey)
        case Some(key) =>
          match cipher.unlock(key, iv, aad, Locked(text, tag))
          case Some(plain) => Ok(plain)
          case None => Err(CannotBeOpened)
  }

  lemma DigitsHoldNoDot(bytes: Bytes)
    ensures '.' !in Encode(bytes)
  {
    EncodeDecode(bytes);
    assert Value('.').None?;
  }

  /** The envelope falls apart into the five parts it was made of. */
  lemma PartsComeBack(kid: string, iv: Bytes, locked: Locked)
    requires '.' !in kid
    ensures Split(Join(Parts(kid, iv, locked), '.'), '.') == Parts(kid, iv, locked)
  {
    DigitsHoldNoDot(iv);
    DigitsHoldNoDot(locked.text);
    DigitsHoldNoDot(locked.tag);
    SplitJoin(Parts(kid, iv, locked), '.');
  }

  lemma {:induction false} DotsMakeParts(kid: string, rest: string)
    requires '.' in kid
    ensures |Split(kid + ['.'] + rest, '.')| > 1 + |Split(rest, '.')|
  {
    var text := kid + ['.'] + rest;
    assert text[1..] == kid[1..] + ['.'] + rest;
    if kid[0] == '.' {
      AddsAPart(kid[1..], rest);
    } else {
      DotsMakeParts(kid[1..], rest);
    }
  }

  lemma {:induction false} AddsAPart(kid: string, rest: string)
    ensures |Split(kid + ['.'] + rest, '.')| >= 1 + |Split(rest, '.')|
  {
    var text := kid + ['.'] + rest;
    if kid == "" {
      assert text[1..] == rest;
    } else {
      assert text[1..] == kid[1..] + ['.'] + rest;
      AddsAPart(kid[1..], rest);
    }
  }

  lemma DottedKidMakesSixParts(kid: string, iv: Bytes, locked: Locked)
    requires '.' in kid
    ensures |Split(Join(Parts(kid, iv, locked), '.'), '.')| > 5
  {
    var tail := [Encode(iv), Encode(locked.text), Encode(locked.tag)];
    DigitsHoldNoDot(iv);
    DigitsHoldNoDot(locked.text);
    DigitsHoldNoDot(locked.tag);
    SplitJoin(tail, '.');
    var parts := Parts(kid, iv, locked);
    assert parts[1..][1..] == tail;
    DotsMakeParts(kid, Join(tail, '.'));
    SplitFirst("v1", '.', Join(parts[1..], '.'));
  }

  /**
   * A sealed value opens to the original under any list that has the key it was sealed with under
   * the same id, whichever key writes there, exactly when that id is not empty and has no dot.
   */
  lemma SealedOpensIff(cipher: Cipher, keys: seq<DataKey>, later: seq<DataKey>, plain: Bytes, aad: string, kid: string,
      iv: Bytes)
    requires Ideal(cipher) && |iv| == 12 && plain != []
    requires KeyFor(keys, kid).Some? && KeyFor(later, kid) == KeyFor(keys, kid)
    ensures Seal(cipher, keys, plain, aad, kid, iv).Ok?
    ensures Open(cipher, later, Seal(cipher, keys, plain, aad, kid, iv).value, aad) == Ok(plain) <==>
      kid != "" && '.' !in kid
  {
    var key := KeyFor(keys, kid).value;
    var locked := cipher.lock(key, iv, aad, plain);
    if '.' in kid {
      DottedKidMakesSixParts(kid, iv, locked);
    } else {
      PartsComeBack(kid, iv, locked);
      EncodeDecode(iv);
      EncodeDecode(locked.text);
      EncodeDecode(locked.tag);
    }
  }

  /** So what one configured list has sealed, every later one that keeps the key opens. */
  lemma RotationKeepsValues(cipher: Cipher, keys: seq<DataKey>, later: seq<DataKey>, plain: Bytes, aad: string,
      iv: Bytes)
    requires Ideal(cipher) && |iv| == 12 && plain != []
    requires Accepted(keys) && Accepted(later) && keys[0] in later
    ensures Seal(cipher, keys, plain, aad, keys[0].kid, iv).Ok?
    ensures Open(cipher, later, Seal(cipher, keys, plain, aad, keys[0].kid, iv).value, aad) == Ok(plain)
  {
    KeyIsFound(keys, keys[0]);
    KeyIsFound(later, keys[0]);
    var kid := keys[0].kid;
    forall i | 0 <= i < |kid| ensures kid[i] != '.' {
      assert KidChar(kid[i]);
    }
    SealedOpensIff(cipher, keys, later, plain, aad, kid, iv);
  }

  /**
   * And nothing else opens: an envelope that opens to `plain` carries, under a known key id, the very
   * nonce, ciphertext and tag that locking `plain` gives.
   */
  lemma OpensIff(cipher: Cipher, keys: seq<DataKey>, envelope: string, aad: string, plain: Bytes)
    requires Ideal(cipher)
    ensures Open(cipher, keys, envelope, aad) == Ok(plain) <==>
      exists kid: string, iv: Bytes :: SealedParts(cipher, keys, envelope, aad, plain, kid, iv)
  {
    var parts := Split(envelope, '.');
    SplitIs(envelope, '.');
    if Open(cipher, keys, envelope, aad) == Ok(plain) {
      var iv := Decode(parts[2]);
      var locked := Locked(Decode(parts[3]), Decode(parts[4]));
      UnlocksIff(cipher, KeyFor(keys, parts[1]).value, iv, aad, locked, plain);
      assert SealedParts(cipher, keys, envelope, aad, plain, parts[1], iv);
    }
    if kid: string, iv: Bytes :| SealedParts(cipher, keys, envelope, aad, plain, kid, iv) {
      var locked := cipher.lock(KeyFor(keys, kid).value, iv, aad, plain);
      UnlocksIff(cipher, KeyFor(keys, kid).value, iv, aad, locked, plain);
      assert Decode("") == [];
    }
  }

  ghost predicate SealedParts(cipher: Cipher, keys: seq<DataKey>, envelope: string, aad: string, plain: Bytes,
      kid: string, iv: Bytes)
  {
    var parts := Split(envelope, '.');
    && |iv| == 12 && plain != [] && kid != "" && KeyFor(keys, kid).Some?
    && |parts| == 5 && parts[0] == "v1" && parts[1] == kid && Decode(parts[2]) == iv
    && Locked(Decode(parts[3]), Decode(parts[4])) == cipher.lock(KeyFor(keys, kid).value, iv, aad, plain)
  }

  // ----------------------------------------------------------------------------------------- files

  const MAGIC: Bytes := [0x4B, 0x53, 0x51, 0x31]

  /** Text to bytes and back as "ascii" does it: the low byte of each character, seven bits read. */
  function ToAscii(text: string): Bytes {
    if text == "" then [] else [(text[0] as nat) % 256] + ToAscii(text[1..])
  }

  function FromAscii(bytes: Bytes): string {
    if bytes == [] then "" else [(bytes[0] % 128) as char] + FromAscii(bytes[1..])
  }

  lemma {:induction false} AsciiThereAndBack(text: string)
    requires forall i :: 0 <= i < |text| ==> text[i] as nat < 128
    ensures FromAscii(ToAscii(text)) == text && |ToAscii(text)| == |text|
  {
    if text != "" { AsciiThereAndBack(text[1..]); }
  }

  lemma {:induction false} AsciiBackAndThere(bytes: Bytes)
    requires forall i :: 0 <= i < |bytes| ==> bytes[i] < 128
    ensures ToAscii(FromAscii(bytes)) == bytes && |FromAscii(bytes)| == |bytes|
  {
    if bytes != [] { AsciiBackAndThere(bytes[1..]); }
  }

  function Frame(kid: string, iv: Bytes, locked: Locked): Bytes {
    MAGIC + [|ToAscii(kid)| % 256] + ToAscii(kid) + iv + locked.text + locked.tag
  }

  function SealFile(cipher: Cipher, keys: seq<DataKey>, data: Bytes, aad: string, iv: Bytes): Result<Bytes, Refusal>
    requires keys != []
  {
    var kid := keys[0].kid;
    match KeyFor(keys, kid)
    case None => Err(UnknownKey)
    case Some(key) => Ok(Frame(kid, iv, cipher.lock(key, iv, aad, data)))
  }

  /** `subarray`: bounds are cut to the length, and nothing is left when they cross. */
  function Sub(bytes: Bytes, from: nat, to: nat): Bytes {
    var hi := if to < |bytes| then to else |bytes|;
    if from < hi then bytes[from..hi] else []
  }

  /** Where the key id ends, by its length byte. */
  function KidEnd(sealed: Bytes): nat
    requires |sealed| > 4
  {
    var length: nat := sealed[4];
    5 + length
  }

  function OpenFile(cipher: Cipher, keys: seq<DataKey>, sealed: Bytes, aad: string): Result<Bytes, Refusal> {
    if |sealed| < 4 + 1 + 12 + 16 || sealed[..4] != MAGIC then Err(InvalidFile)
    else
      var kidEnd := KidEnd(sealed);
      var kid := FromAscii(Sub(sealed, 5, kidEnd));
      var iv := Sub(sealed, kidEnd, kidEnd + 12);
      var tag := sealed[|sealed| - 16..];
      var text := Sub(sealed, kidEnd + 12, |sealed| - 16);
      match KeyFor(keys, kid)
      case None => Err(UnknownKey)
      case Some(key) =>
        // Without a nonce the cipher cannot be set up at all.
        if iv == [] then Err(CannotBeOpened)
        else
          match cipher.unlock(key, iv, aad, Locked(text, tag))
          case Some(plain) => Ok(plain)
          case None => Err(CannotBeOpened)
  }

  /** The frame of a file is taken apart exactly where it was put together, an empty file included. */
  lemma FrameComesApart(kid: string, iv: Bytes, locked: Locked)
    requires |kid| < 256 && (forall i :: 0 <= i < |kid| ==> kid[i] as nat < 128) && |iv| == 12 && |locked.tag| == 16
    ensures var sealed := Frame(kid, iv, locked);
      var kidEnd := 5 + |kid|;
      && |sealed| == kidEnd + 28 + |locked.text| && sealed[..4] == MAGIC && sealed[4] == |kid|
      && FromAscii(Sub(sealed, 5, kidEnd)) == kid && Sub(sealed, kidEnd, kidEnd + 12) == iv
      && Sub(sealed, kidEnd + 12, |sealed| - 16) == locked.text && sealed[|sealed| - 16..] == locked.tag
  {
    AsciiThereAndBack(kid);
    var sealed := Frame(kid, iv, locked);
    var kidEnd := 5 + |kid|;
    assert sealed[5..kidEnd] == ToAscii(kid);
    assert sealed[kidEnd..kidEnd + 12] == iv;
    assert Sub(sealed, kidEnd + 12, |sealed| - 16) == locked.text;
  }

  lemma FrameOpensIff(cipher: Cipher, keys: seq<DataKey>, kid: string, iv: Bytes, locked: Locked, aad: string,
      data: Bytes)
    requires Ideal(cipher) && |iv| == 12 && |locked.tag| == 16
    requires |kid| < 256 && forall i :: 0 <= i < |kid| ==> kid[i] as nat < 128
    ensures OpenFile(cipher, keys, Frame(kid, iv, locked), aad) == Ok(data) <==>
      KeyFor(keys, kid).Some? && cipher.lock(KeyFor(keys, kid).value, iv, aad, data) == locked
  {
    FrameComesApart(kid, iv, locked);
    if KeyFor(keys, kid).Some? {
      UnlocksIff(cipher, KeyFor(keys, kid).value, iv, aad, locked, data);
    }
  }

  lemma RotationKeepsFiles(cipher: Cipher, keys: seq<DataKey>, later: seq<DataKey>, data: Bytes, aad: string, iv: Bytes)
    requires Ideal(cipher) && |iv| == 12
    requires Accepted(keys) && Accepted(later) && keys[0] in later
    ensures SealFile(cipher, keys, data, aad, iv).Ok?
    ensures OpenFile(cipher, later, SealFile(cipher, keys, data, aad, iv).value, aad) == Ok(data)
  {
    KeyIsFound(keys, keys[0]);
    KeyIsFound(later, keys[0]);
    var kid := keys[0].kid;
    forall i | 0 <= i < |kid| ensures kid[i] as nat < 128 {
      assert KidChar(kid[i]);
    }
    FrameOpensIff(cipher, later, kid, iv, cipher.lock(keys[0].key, iv, aad, data), aad, data);
  }

  /** A file long enough for its key id, with that id in seven-bit text, is the frame of its parts. */
  lemma EveryFileIsAFrame(sealed: Bytes)
    requires |sealed| >= 5 && sealed[..4] == MAGIC && |sealed| >= KidEnd(sealed) + 28
    requires forall i :: 5 <= i < KidEnd(sealed) ==> sealed[i] < 128
    ensures var kidEnd := KidEnd(sealed);
      var kid := FromAscii(sealed[5..kidEnd]);
      && sealed ==
        Frame(kid, sealed[kidEnd..kidEnd + 12], Locked(sealed[kidEnd + 12..|sealed| - 16], sealed[|sealed| - 16..]))
      && |kid| == sealed[4] && forall i :: 0 <= i < |kid| ==> kid[i] as nat < 128
  {
    var kidEnd := KidEnd(sealed);
    AsciiBackAndThere(sealed[5..kidEnd]);
    SevenBits(sealed[5..kidEnd]);
    CutIntoFive(sealed, kidEnd);
    assert [|ToAscii(FromAscii(sealed[5..kidEnd]))| % 256] == [sealed[4]];
  }

  lemma CutIntoFive(sealed: Bytes, kidEnd: nat)
    requires 5 <= kidEnd && kidEnd + 28 <= |sealed|
    ensures sealed == sealed[..4] + [sealed[4]] + sealed[5..kidEnd] + sealed[kidEnd..kidEnd + 12]
      + sealed[kidEnd + 12..|sealed| - 16] + sealed[|sealed| - 16..]
  {
  }

  lemma {:induction false} SevenBits(bytes: Bytes)
    ensures forall i :: 0 <= i < |FromAscii(bytes)| ==> FromAscii(bytes)[i] as nat < 128
  {
    if bytes != [] { SevenBits(bytes[1..]); }
  }

  /** Of such files, exactly those open to `data` that are the frame some known key gives `data`. */
  lemma SevenBitFileOpensIff(cipher: Cipher, keys: seq<DataKey>, sealed: Bytes, aad: string, data: Bytes)
    requires Ideal(cipher)
    requires |sealed| >= 5 && |sealed| >= KidEnd(sealed) + 28 && forall i :: 5 <= i < KidEnd(sealed) ==> sealed[i] < 128
    ensures OpenFile(cipher, keys, sealed, aad) == Ok(data) <==>
      exists kid: string, iv: Bytes :: FramedBy(cipher, keys, sealed, aad, data, kid, iv)
  {
    if sealed[..4] == MAGIC {
      EveryFileIsAFrame(sealed);
      var kidEnd := KidEnd(sealed);
      var kid, iv := FromAscii(sealed[5..kidEnd]), sealed[kidEnd..kidEnd + 12];
      var locked := Locked(sealed[kidEnd + 12..|sealed| - 16], sealed[|sealed| - 16..]);
      FrameOpensIff(cipher, keys, kid, iv, locked, aad, data);
      if OpenFile(cipher, keys, sealed, aad) == Ok(data) {
        assert FramedBy(cipher, keys, sealed, aad, data, kid, iv);
      }
    }
    if kid: string, iv: Bytes :| FramedBy(cipher, keys, sealed, aad, data, kid, iv) {
      FrameOpensIff(cipher, keys, kid, iv, cipher.lock(KeyFor(keys, kid).value, iv, aad, data), aad, data);
    }
  }

  ghost predicate FramedBy(cipher: Cipher, keys: seq<DataKey>, sealed: Bytes, aad: string, data: Bytes, kid: string,
      iv: Bytes)
  {
    && |iv| == 12 && |kid| < 256 && (forall i :: 0 <= i < |kid| ==> kid[i] as nat < 128)
    && KeyFor(keys, kid).Some?
    && sealed == Frame(kid, iv, cipher.lock(KeyFor(keys, kid).value, iv, aad, data))
  }

  // ------------------------------------------------------------------------------- every file there is

  function Sevens(bytes: Bytes): Bytes {
    if bytes == [] then [] else [bytes[0] % 128] + Sevens(bytes[1..])
  }

  lemma {:induction false} SevensAre(bytes: Bytes)
    ensures |Sevens(bytes)| == |bytes| && FromAscii(Sevens(bytes)) == FromAscii(bytes)
    ensures forall i :: 0 <= i < |bytes| ==> Sevens(bytes)[i] == bytes[i] % 128
  {
    if bytes != [] { SevensAre(bytes[1..]); }
  }

  /** The file with the bytes of its key id cut to the seven bits that are read. */
  function Reduced(sealed: Bytes): Bytes
    requires |sealed| > 4 && KidEnd(sealed) <= |sealed|
  {
    sealed[..5] + Sevens(sealed[5..KidEnd(sealed)]) + sealed[KidEnd(sealed)..]
  }

  lemma ReducedIs(sealed: Bytes)
    requires |sealed| > 4 && KidEnd(sealed) <= |sealed|
    ensures var kidEnd := KidEnd(sealed);
      && |Reduced(sealed)| == |sealed| && KidEnd(Reduced(sealed)) == kidEnd
      && Reduced(sealed)[..5] == sealed[..5] && Reduced(sealed)[kidEnd..] == sealed[kidEnd..]
      && Reduced(sealed)[5..kidEnd] == Sevens(sealed[5..kidEnd])
      && FromAscii(Reduced(sealed)[5..kidEnd]) == FromAscii(sealed[5..kidEnd])
      && forall i :: 5 <= i < kidEnd ==> Reduced(sealed)[i] < 128
  {
    var kidEnd := KidEnd(sealed);
    SevensAre(sealed[5..kidEnd]);
    var reduced := Reduced(sealed);
    assert reduced[5..kidEnd] == Sevens(sealed[5..kidEnd]);
    forall i | 5 <= i < kidEnd ensures reduced[i] < 128 {
      assert reduced[i] == Sevens(sealed[5..kidEnd])[i - 5];
    }
  }

  lemma SameTail(a: Bytes, b: Bytes, k: nat, from: nat, to: nat)
    requires |a| == |b| && k <= from <= to <= |a| && a[k..] == b[k..]
    ensures a[from..to] == b[from..to]
  {
    forall i | from <= i < to ensures a[i] == b[i] {
      assert a[k..][i - k] == a[i] && b[k..][i - k] == b[i];
    }
  }

  lemma OpensAsReduced(cipher: Cipher, keys: seq<DataKey>, sealed: Bytes, aad: string)
    requires |sealed| > 4 && |sealed| >= KidEnd(sealed) + 28
    ensures KidEnd(sealed) <= |sealed| &&
      OpenFile(cipher, keys, sealed, aad) == OpenFile(cipher, keys, Reduced(sealed), aad)
  {
    var kidEnd, reduced := KidEnd(sealed), Reduced(sealed);
    ReducedIs(sealed);
    assert sealed[..4] == sealed[..5][..4] && reduced[..4] == reduced[..5][..4];
    SameTail(sealed, reduced, kidEnd, kidEnd, kidEnd + 12);
    SameTail(sealed, reduced, kidEnd, kidEnd + 12, |sealed| - 16);
    SameTail(sealed, reduced, kidEnd, |sealed| - 16, |sealed|);
    assert sealed[|sealed| - 16..] == sealed[|sealed| - 16..|sealed|];
    assert reduced[|sealed| - 16..] == reduced[|sealed| - 16..|sealed|];
    assert Sub(sealed, 5, kidEnd) == sealed[5..kidEnd] || kidEnd == 5;
  }

  /**
   * A file too short for its key id: its nonce is what is left after the id, its tag is the last sixteen
   * bytes whatever else they are, and all it can hold is nothing.
   */
  ghost predicate CrampedBy(cipher: Cipher, keys: seq<DataKey>, sealed: Bytes, aad: string, kid: string, iv: Bytes)
    requires |sealed| >= 33
  {
    var kidEnd := KidEnd(sealed);
    && sealed[..4] == MAGIC && kidEnd < |sealed| && FromAscii(sealed[5..kidEnd]) == kid
    && iv == sealed[kidEnd..if kidEnd + 12 <= |sealed| then kidEnd + 12 else |sealed|]
    && KeyFor(keys, kid).Some?
    && cipher.lock(KeyFor(keys, kid).value, iv, aad, []).tag == sealed[|sealed| - 16..]
  }

  lemma CrampedOpensIff(cipher: Cipher, keys: seq<DataKey>, sealed: Bytes, aad: string, data: Bytes)
    requires Ideal(cipher) && 33 <= |sealed| < KidEnd(sealed) + 28
    ensures OpenFile(cipher, keys, sealed, aad) == Ok(data) <==>
      data == [] && exists kid: string, iv: Bytes :: CrampedBy(cipher, keys, sealed, aad, kid, iv)
  {
    var kidEnd := KidEnd(sealed);
    var kid, iv := FromAscii(Sub(sealed, 5, kidEnd)), Sub(sealed, kidEnd, kidEnd + 12);
    var tag := sealed[|sealed| - 16..];
    assert Sub(sealed, kidEnd + 12, |sealed| - 16) == [];
    if kidEnd < |sealed| {
      assert Sub(sealed, 5, kidEnd) == sealed[5..kidEnd];
      if KeyFor(keys, kid).Some? {
        var key := KeyFor(keys, kid).value;
        UnlocksIff(cipher, key, iv, aad, Locked([], tag), data);
        assert |cipher.lock(key, iv, aad, data).text| == |data|;
        assert cipher.lock(key, iv, aad, []).text == [];
        if OpenFile(cipher, keys, sealed, aad) == Ok(data) {
          assert data == [];
          assert CrampedBy(cipher, keys, sealed, aad, kid, iv);
        }
      }
    }
  }

  /** Which files open, and to what: all of them. */
  lemma FileOpensIff(cipher: Cipher, keys: seq<DataKey>, sealed: Bytes, aad: string, data: Bytes)
    requires Ideal(cipher)
    ensures OpenFile(cipher, keys, sealed, aad) == Ok(data) <==>
      && |sealed| >= 33
      && if |sealed| >= KidEnd(sealed) + 28
         then exists kid: string, iv: Bytes :: FramedBy(cipher, keys, Reduced(sealed), aad, data, kid, iv)
         else data == [] && exists kid: string, iv: Bytes :: CrampedBy(cipher, keys, sealed, aad, kid, iv)
  {
    if |sealed| >= 33 {
      if |sealed| >= KidEnd(sealed) + 28 {
        ReducedIs(sealed);
        OpensAsReduced(cipher, keys, sealed, aad);
        SevenBitFileOpensIff(cipher, keys, Reduced(sealed), aad, data);
      } else {
        CrampedOpensIff(cipher, keys, sealed, aad, data);
      }
    }
  }
}
