/**
 * The written forms themselves: which key lists are read and how, and what a sealed value and a sealed
 * file look like character by character and byte by byte.
 */
module SealedForms {
  import opened Common
  import opened Base64Url
  import opened DataKeys
  import opened Envelope

  // --------------------------------------------------------------------------------- the key list

  const KID_CHARS := LETTERS + SMALL_LETTERS + DECIMALS + "_-"

  lemma LettersIff(c: char)
    ensures c in LETTERS <==> 'A' <= c <= 'Z'
    ensures c in SMALL_LETTERS <==> 'a' <= c <= 'z'
  {
    if 'A' <= c <= 'Z' { LettersInOrder((c - 'A') as int); }
    if 'a' <= c <= 'z' { LettersInOrder((c - 'a') as int); }
    if j :| 0 <= j < 26 && LETTERS[j] == c { LettersInOrder(j); }
    if j :| 0 <= j < 26 && SMALL_LETTERS[j] == c { LettersInOrder(j); }
  }

  lemma DecimalsIff(c: char)
    ensures c in DECIMALS <==> '0' <= c <= '9'
  {
    if '0' <= c <= '9' { DecimalsInOrder((c - '0') as int); }
    if j :| 0 <= j < 10 && DECIMALS[j] == c { DecimalsInOrder(j); }
  }

  lemma KidCharIff(c: char)
    ensures KidChar(c) <==> c in KID_CHARS
  {
    LettersIff(c);
    DecimalsIff(c);
    assert c in KID_CHARS <==> c in LETTERS || c in SMALL_LETTERS || c in DECIMALS || c in "_-";
  }

  /** A key id is one to thirty-two letters, digits, bars or dashes. */
  lemma ValidKidIff(kid: string)
    ensures ValidKid(kid) <==> 0 < |kid| < 33 && forall c :: c in kid ==> c in KID_CHARS
  {
    forall c: char ensures KidChar(c) <==> c in KID_CHARS { KidCharIff(c); }
    if forall c :: c in kid ==> c in KID_CHARS {
      forall i | 0 <= i < |kid| ensures KidChar(kid[i]) { assert kid[i] in kid; }
    }
  }

  /** White space as the language defines it, in code points. */
  const SPACES: set<int> := {
    0x9, 0xA, 0xB, 0xC, 0xD, 0x20, 0xA0, 0x1680, 0x2000, 0x2001, 0x2002, 0x2003, 0x2004, 0x2005, 0x2006, 0x2007,
    0x2008, 0x2009, 0x200A, 0x2028, 0x2029, 0x202F, 0x205F, 0x3000, 0xFEFF}

  lemma SpaceIff(c: char)
    ensures Space(c) <==> c as int in SPACES
  {
  }

  predicate Blank(text: string) {
    forall i :: 0 <= i < |text| ==> text[i] as int in SPACES
  }

  predicate Between(text: string, before: string, core: string, after: string) {
    Blank(before) && Blank(after) && text == before + core + after
  }

  lemma AllBetween(text: string)
    ensures Between(text, "", text, "")
  {
    assert text == "" + text + "";
  }

  lemma OneSpaceBefore(text: string, before: string, core: string, after: string)
    requires text != "" && text[0] as int in SPACES && Between(text[1..], before, core, after)
    ensures Between(text, [text[0]] + before, core, after)
  {
    var longer := [text[0]] + before;
    assert text == longer + core + after;
    forall i | 0 <= i < |longer| ensures longer[i] as int in SPACES { if i > 0 { assert longer[i] == before[i - 1]; } }
  }

  lemma OneSpaceAfter(text: string, before: string, core: string, after: string)
    requires text != "" && text[|text| - 1] as int in SPACES && Between(text[..|text| - 1], before, core, after)
    ensures Between(text, before, core, after + [text[|text| - 1]])
  {
    var longer := after + [text[|text| - 1]];
    assert text == before + core + longer;
    forall i | 0 <= i < |longer| ensures longer[i] as int in SPACES { if i < |after| { assert longer[i] == after[i]; } }
  }

  lemma {:induction false} TrimStartIs(text: string)
    ensures exists before: string :: Between(text, before, TrimStart(text), "")
    ensures TrimStart(text) == "" || TrimStart(text)[0] as int !in SPACES
  {
    if text != "" && Space(text[0]) {
      TrimStartIs(text[1..]);
      SpaceIff(text[0]);
      var before: string :| Between(text[1..], before, TrimStart(text[1..]), "");
      OneSpaceBefore(text, before, TrimStart(text), "");
    } else {
      assert TrimStart(text) == text;
      AllBetween(text);
      if text != "" { SpaceIff(text[0]); }
    }
  }

  lemma {:induction false} TrimEndIs(text: string)
    ensures exists after: string :: Between(text, "", TrimEnd(text), after)
    ensures TrimEnd(text) == "" || TrimEnd(text)[|TrimEnd(text)| - 1] as int !in SPACES
    ensures TrimEnd(text) != "" ==> text[0] == TrimEnd(text)[0]
    decreases |text|
  {
    if text != "" && Space(text[|text| - 1]) {
      var shorter := text[..|text| - 1];
      TrimEndIs(shorter);
      SpaceIff(text[|text| - 1]);
      var after: string :| Between(shorter, "", TrimEnd(shorter), after);
      OneSpaceAfter(text, "", TrimEnd(text), after);
    } else {
      assert TrimEnd(text) == text;
      AllBetween(text);
      if text != "" { SpaceIff(text[|text| - 1]); }
    }
  }

  /** What stands between the white space at either end. */
  ghost predicate Trimmed(text: string, core: string) {
    && (core == "" || (core[0] as int !in SPACES && core[|core| - 1] as int !in SPACES))
    && exists before: string, after: string :: Between(text, before, core, after)
  }

  lemma TrimIs(text: string)
    ensures Trimmed(text, Trim(text))
  {
    TrimStartIs(text);
    TrimEndIs(TrimStart(text));
    var before: string :| Between(text, before, TrimStart(text), "");
    var after: string :| Between(TrimStart(text), "", Trim(text), after);
    assert before + ("" + Trim(text) + after) + "" == before + Trim(text) + after;
    assert Between(text, before, Trim(text), after);
  }

  /** One part more at the end: it is one entry more, trimmed, unless it is all white space. */
  lemma {:induction false} OnePartMore(parts: seq<string>, part: string)
    ensures NonEmptyTrimmed(parts + [part]) ==
      NonEmptyTrimmed(parts) + if Trim(part) == "" then [] else [Trim(part)]
  {
    if parts == [] {
      assert (parts + [part])[1..] == [];
    } else {
      assert (parts + [part])[1..] == parts[1..] + [part];
      OnePartMore(parts[1..], part);
    }
  }

  /** The list is read at its commas. */
  lemma EntriesOfParts(parts: seq<string>, part: string)
    requires forall i :: 0 <= i < |parts| ==> ',' !in parts[i]
    requires ',' !in part
    ensures Entries(part) == if Trim(part) == "" then [] else [Trim(part)]
    ensures parts != [] ==>
      Entries(Join(parts + [part], ',')) == Entries(Join(parts, ',')) + Entries(part)
  {
    OnePartMore([], part);
    SplitOne(part, ',');
    assert [] + [part] == [part];
    if parts != [] {
      SplitJoin(parts, ',');
      SplitJoin(parts + [part], ',');
      OnePartMore(parts, part);
    }
  }

  lemma {:induction false} ColonIsNowhere(entry: string)
    requires ':' !in entry
    ensures Colon(entry) == |entry|
  {
    if entry != "" { ColonIsNowhere(entry[1..]); }
  }

  /** The first colon parts the id from the key; an entry without one has no id. */
  lemma KeyOfIs(kid: string, rest: string)
    requires ':' !in kid
    ensures KeyOf(kid + ":" + rest) == DataKey(kid, Decode(rest))
    ensures KeyOf(kid) == DataKey("", Decode(kid))
  {
    var entry := kid + ":" + rest;
    forall j | 0 <= j < |kid| ensures entry[j] != ':' { assert entry[j] == kid[j]; }
    ColonIs(entry, |kid|);
    assert entry[..|kid|] == kid && entry[|kid| + 1..] == rest;
    ColonIsNowhere(kid);
  }

  /** So a key may be written in the plain alphabet too, as key generators print it. */
  lemma PlainKeyIsRead(key: DataKey)
    requires ValidKid(key.kid)
    ensures KeyOf(key.kid + ":" + EncodePlain(key.key)) == key
  {
    forall i | 0 <= i < |key.kid| ensures key.kid[i] != ':' { assert KidChar(key.kid[i]); }
    KeyOfIs(key.kid, EncodePlain(key.key));
    PlainIsReadBack(key.key);
  }

  /** What is wrong with one entry, in the order it is looked for. */
  lemma FaultIs(entries: seq<string>, i: nat)
    requires i < |entries|
    ensures var DataKey(kid, key) := KeyOf(entries[i]);
      FaultOf(entries, i) ==
        if !(0 < |kid| < 33 && forall c :: c in kid ==> c in KID_CHARS) then Some(BadKid)
        else if |key| != 32 then Some(BadKey(kid))
        else if exists j :: 0 <= j < i && KeyOf(entries[j]).kid == kid then Some(Duplicated(kid))
        else None
  {
    ValidKidIff(KeyOf(entries[i]).kid);
  }

  // --------------------------------------------------------------------------------- sealed values

  /** The key a list holds under an id: the last one given it. */
  ghost predicate HoldsKey(keys: seq<DataKey>, kid: string, key: Bytes) {
    exists i :: 0 <= i < |keys| && keys[i] == DataKey(kid, key) && forall j :: i < j < |keys| ==> keys[j].kid != kid
  }

  lemma {:induction false} KeyForIs(keys: seq<DataKey>, kid: string, key: Bytes)
    ensures KeyFor(keys, kid) == Some(key) <==> HoldsKey(keys, kid, key)
    ensures KeyFor(keys, kid).None? <==> forall i :: 0 <= i < |keys| ==> keys[i].kid != kid
    decreases |keys|
  {
    if keys != [] {
      var n := |keys| - 1;
      KeyForIs(keys[..n], kid, key);
      if HoldsKey(keys[..n], kid, key) && keys[n].kid != kid {
        var i :| 0 <= i < n && keys[..n][i] == DataKey(kid, key) && forall j :: i < j < n ==> keys[..n][j].kid != kid;
        assert keys[i] == DataKey(kid, key);
      }
      if i :| 0 <= i < |keys| && keys[i] == DataKey(kid, key) && forall j :: i < j < |keys| ==> keys[j].kid != kid {
        if i < n { assert keys[..n][i] == DataKey(kid, key); }
      }
    }
  }

  /** A sealed value reads `v1.kid.nonce.ciphertext.tag`. */
  lemma SealedReads(cipher: Cipher, keys: seq<DataKey>, plain: Bytes, aad: string, kid: string, iv: Bytes, key: Bytes)
    ensures plain == [] ==> Seal(cipher, keys, plain, aad, kid, iv) == Err(EmptyValue)
    ensures plain != [] && (forall i :: 0 <= i < |keys| ==> keys[i].kid != kid) ==>
      Seal(cipher, keys, plain, aad, kid, iv) == Err(UnknownKey)
    ensures plain != [] && HoldsKey(keys, kid, key) ==>
      var Locked(text, tag) := cipher.lock(key, iv, aad, plain);
      Seal(cipher, keys, plain, aad, kid, iv)
        == Ok("v1." + kid + "." + Encode(iv) + "." + Encode(text) + "." + Encode(tag))
  {
    KeyForIs(keys, kid, key);
    if plain != [] && HoldsKey(keys, kid, key) {
      var locked := cipher.lock(key, iv, aad, plain);
      JoinFive("v1", kid, Encode(iv), Encode(locked.text), Encode(locked.tag));
      assert "v1" + "." == "v1.";
    }
  }

  lemma JoinFive(a: string, b: string, c: string, d: string, e: string)
    ensures Join([a, b, c, d, e], '.') == a + "." + b + "." + c + "." + d + "." + e
  {
    assert Join([d, e], '.') == d + "." + e;
    assert Join([c, d, e], '.') == c + "." + (d + "." + e);
    assert Join([b, c, d, e], '.') == b + "." + (c + "." + (d + "." + e));
    assert [a, b, c, d, e][1..] == [b, c, d, e] && [b, c, d, e][1..] == [c, d, e] && [c, d, e][1..] == [d, e];
  }

  /** Five parts, none empty, the first of them `v1`; a nonce of twelve bytes, a tag of sixteen, some ciphertext. */
  predicate WellFormed(parts: seq<string>) {
    && |parts| == 5 && "" !in parts && parts[0] == "v1"
    && |Decode(parts[2])| == 12 && |Decode(parts[3])| > 0 && |Decode(parts[4])| == 16
  }

  /** Some key the list holds under the id gives this answer. */
  ghost predicate OpensWith(cipher: Cipher, keys: seq<DataKey>, parts: seq<string>, aad: string,
      answer: Result<Bytes, Refusal>)
    requires |parts| == 5
  {
    var locked := Locked(Decode(parts[3]), Decode(parts[4]));
    exists key: Bytes ::
      HoldsKey(keys, parts[1], key) &&
      answer == match cipher.unlock(key, Decode(parts[2]), aad, locked)
                case Some(plain) => Ok(plain)
                case None => Err(CannotBeOpened)
  }

  lemma OpenOfParts(cipher: Cipher, keys: seq<DataKey>, parts: seq<string>, aad: string)
    requires parts != [] && forall i :: 0 <= i < |parts| ==> '.' !in parts[i]
    ensures Open(cipher, keys, Join(parts, '.'), aad) == Err(InvalidEnvelope) || WellFormed(parts)
    ensures WellFormed(parts) ==>
      var answer, key := Open(cipher, keys, Join(parts, '.'), aad), KeyFor(keys, parts[1]);
      if key.None? then answer == Err(UnknownKey)
      else
        var plain := cipher.unlock(key.value, Decode(parts[2]), aad, Locked(Decode(parts[3]), Decode(parts[4])));
        answer == if plain.Some? then Ok(plain.value) else Err(CannotBeOpened)
  {
    SplitJoin(parts, '.');
  }

  /** Why an envelope does not open: its form, its key, or the cipher, looked at in that order. */
  lemma OpenAnswer(cipher: Cipher, keys: seq<DataKey>, parts: seq<string>, aad: string)
    requires parts != [] && forall i :: 0 <= i < |parts| ==> '.' !in parts[i]
    ensures var answer := Open(cipher, keys, Join(parts, '.'), aad);
      if !WellFormed(parts) then answer == Err(InvalidEnvelope)
      else if forall i :: 0 <= i < |keys| ==> keys[i].kid != parts[1] then answer == Err(UnknownKey)
      else OpensWith(cipher, keys, parts, aad, answer)
  {
    OpenOfParts(cipher, keys, parts, aad);
    if WellFormed(parts) {
      KeyForIs(keys, parts[1], []);
      if KeyFor(keys, parts[1]).Some? { KeyForIs(keys, parts[1], KeyFor(keys, parts[1]).value); }
    }
  }

  // ---------------------------------------------------------------------------------- sealed files

  /** The low byte of each character is written, seven bits of each byte are read. */
  lemma {:induction false} AsciiIs(text: string)
    ensures |ToAscii(text)| == |text| && forall i :: 0 <= i < |text| ==> ToAscii(text)[i] == text[i] as nat % 256
  {
    if text != "" { AsciiIs(text[1..]); }
  }

  lemma {:induction false} AsciiReads(bytes: Bytes)
    ensures |FromAscii(bytes)| == |bytes|
    ensures forall i :: 0 <= i < |bytes| ==> FromAscii(bytes)[i] as nat == bytes[i] % 128
  {
    if bytes != [] { AsciiReads(bytes[1..]); }
  }

  /** A sealed file is `KSQ1`, the length of the key id, the key id, the nonce, the ciphertext and the tag. */
  lemma SealedFileReads(cipher: Cipher, keys: seq<DataKey>, data: Bytes, aad: string, iv: Bytes)
    requires Accepted(keys)
    ensures var kid, Locked(text, tag) := keys[0].kid, cipher.lock(keys[0].key, iv, aad, data);
      SealFile(cipher, keys, data, aad, iv)
        == Ok([75, 83, 81, 49] + [|kid|] + seq(|kid|, i requires 0 <= i < |kid| => kid[i] as nat % 256)
              + iv + text + tag)
  {
    var kid := keys[0].kid;
    KeyIsFound(keys, keys[0]);
    AsciiIs(kid);
    var written: Bytes := seq(|kid|, i requires 0 <= i < |kid| => kid[i] as nat % 256);
    assert ToAscii(kid) == written;
  }

  /** Why a file does not open: it is too short or begins otherwise, its key is unknown, or the cipher refuses it. */
  lemma OpenFileAnswer(cipher: Cipher, keys: seq<DataKey>, sealed: Bytes, aad: string)
    ensures var answer := OpenFile(cipher, keys, sealed, aad);
      && answer != Err(EmptyValue) && answer != Err(InvalidEnvelope)
      && (answer == Err(InvalidFile) <==> |sealed| < 33 || sealed[0..4] != [75, 83, 81, 49])
      && (|sealed| >= 33 && sealed[0..4] == [75, 83, 81, 49] ==>
            var length: nat := sealed[4];
            var kid := FromAscii(sealed[5..if 5 + length < |sealed| then 5 + length else |sealed|]);
            && |kid| <= |sealed| - 5 && (forall i :: 0 <= i < |kid| ==> kid[i] as nat == sealed[5 + i] % 128)
            && (answer == Err(UnknownKey) <==> forall i :: 0 <= i < |keys| ==> keys[i].kid != kid))
  {
    if |sealed| >= 33 && sealed[0..4] == [75, 83, 81, 49] {
      var length: nat := sealed[4];
      var end := if 5 + length < |sealed| then 5 + length else |sealed|;
      assert sealed[5..end] == Sub(sealed, 5, KidEnd(sealed));
      AsciiReads(sealed[5..end]);
      KeyForIs(keys, FromAscii(sealed[5..end]), []);
    }
  }
}
