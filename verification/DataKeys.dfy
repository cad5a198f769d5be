/** The list of data keys as it is configured: `kid:base64` entries, the first of which writes. */
module DataKeys {
  import opened Common
  import opened Base64Url

  datatype DataKey = DataKey(kid: string, key: Bytes)

  datatype Fault = NoKeys | BadKid | BadKey(kid: string) | Duplicated(kid: string)

  predicate KidChar(c: char) {
    'A' <= c <= 'Z' || 'a' <= c <= 'z' || '0' <= c <= '9' || c == '_' || c == '-'
  }

  predicate ValidKid(kid: string) {
    1 <= |kid| <= 32 && forall i :: 0 <= i < |kid| ==> KidChar(kid[i])
  }

  // ---------------------------------------------------------------------------------------- text

  function Split(text: string, separator: char): seq<string> {
    if text == "" then [""]
    else
      var rest := Split(text[1..], separator);
      if text[0] == separator then [""] + rest else [[text[0]] + rest[0]] + rest[1..]
  }

  function Join(parts: seq<string>, separator: char): string
    requires parts != []
  {
    if |parts| == 1 then parts[0] else parts[0] + [separator] + Join(parts[1..], separator)
  }

  lemma {:induction false} SplitOne(part: string, separator: char)
    requires separator !in part
    ensures Split(part, separator) == [part]
  {
    if part != "" {
      SplitOne(part[1..], separator);
      assert [part[0]] + part[1..] == part;
    }
  }

  lemma {:induction false} SplitFirst(part: string, separator: char, rest: string)
    requires separator !in part
    ensures Split(part + [separator] + rest, separator) == [part] + Split(rest, separator)
  {
    var text := part + [separator] + rest;
    if part == "" {
      assert text[1..] == rest;
    } else {
      SplitFirst(part[1..], separator, rest);
      assert text[1..] == part[1..] + [separator] + rest;
      assert [part[0]] + part[1..] == part;
    }
  }

  /** Splitting gives back exactly the parts that were joined. */
  lemma {:induction false} SplitJoin(parts: seq<string>, separator: char)
    requires parts != [] && forall i :: 0 <= i < |parts| ==> separator !in parts[i]
    ensures Split(Join(parts, separator), separator) == parts
  {
    if |parts| == 1 {
      SplitOne(parts[0], separator);
    } else {
      SplitJoin(parts[1..], separator);
      SplitFirst(parts[0], separator, Join(parts[1..], separator));
    }
  }

  lemma {:induction false} SplitIs(text: string, separator: char)
    ensures var parts := Split(text, separator);
      parts != [] && (forall i :: 0 <= i < |parts| ==> separator !in parts[i]) && Join(parts, separator) == text
  {
    if text != "" {
      SplitIs(text[1..], separator);
    }
  }

  predicate Space(c: char) {
    var n := c as int;
    9 <= n <= 13 || n in {0x20, 0xA0, 0x1680, 0x2028, 0x2029, 0x202F, 0x205F, 0x3000, 0xFEFF} || 0x2000 <= n <= 0x200A
  }

  function TrimStart(s: string): string {
    if s != "" && Space(s[0]) then TrimStart(s[1..]) else s
  }

  function TrimEnd(s: string): string {
    if s != "" && Space(s[|s| - 1]) then TrimEnd(s[..|s| - 1]) else s
  }

  function Trim(s: string): string {
    TrimEnd(TrimStart(s))
  }

  function NonEmptyTrimmed(parts: seq<string>): seq<string> {
    if parts == [] then []
    else (if Trim(parts[0]) == "" then [] else [Trim(parts[0])]) + NonEmptyTrimmed(parts[1..])
  }

  function Entries(value: string): seq<string> {
    NonEmptyTrimmed(Split(value, ','))
  }

  /** The place of the first colon; the length when there is none. */
  function Colon(entry: string): nat {
    if entry == "" || entry[0] == ':' then 0 else 1 + Colon(entry[1..])
  }

  lemma {:induction false} ColonIs(entry: string, i: nat)
    requires i < |entry| && entry[i] == ':' && forall j :: 0 <= j < i ==> entry[j] != ':'
    ensures Colon(entry) == i
  {
    if i > 0 { ColonIs(entry[1..], i - 1); }
  }

  lemma {:induction false} ColonWithin(entry: string)
    ensures Colon(entry) <= |entry|
  {
    if entry != "" && entry[0] != ':' { ColonWithin(entry[1..]); }
  }

  function KeyOf(entry: string): DataKey {
    ColonWithin(entry);
    var at := Colon(entry);
    if at == |entry| then DataKey("", Decode(entry)) else DataKey(entry[..at], Decode(entry[at + 1..]))
  }

  // --------------------------------------------------------------------------------------- parsing

  ghost predicate KidBefore(entries: seq<string>, i: nat, kid: string)
    requires i <= |entries|
  {
    exists j :: 0 <= j < i && KeyOf(entries[j]).kid == kid
  }

  /** What is wrong with entry `i`, given those before it. */
  ghost function FaultOf(entries: seq<string>, i: nat): Option<Fault>
    requires i < |entries|
  {
    var key := KeyOf(entries[i]);
    if !ValidKid(key.kid) then Some(BadKid)
    else if |key.key| != 32 then Some(BadKey(key.kid))
    else if KidBefore(entries, i, key.kid) then Some(Duplicated(key.kid))
    else None
  }

  /** What a list of keys promises its users. */
  ghost predicate Distinct(keys: seq<DataKey>) {
    forall i, j :: 0 <= i < j < |keys| ==> keys[i].kid != keys[j].kid
  }

  ghost predicate Accepted(keys: seq<DataKey>) {
    keys != [] && Distinct(keys) && forall i :: 0 <= i < |keys| ==> ValidKid(keys[i].kid) && |keys[i].key| == 32
  }

  lemma FaultlessIsAccepted(entries: seq<string>, keys: seq<DataKey>)
    requires entries != [] && |keys| == |entries|
    requires forall i :: 0 <= i < |keys| ==> keys[i] == KeyOf(entries[i]) && FaultOf(entries, i).None?
    ensures Accepted(keys)
  {
    forall a, b | 0 <= a < b < |keys| ensures keys[a].kid != keys[b].kid {
      assert FaultOf(entries, b).None?;
      assert KeyOf(entries[a]).kid == keys[a].kid;
    }
  }

  lemma OneMoreKid(entries: seq<string>, i: nat, kid: string)
    requires i < |entries|
    ensures KidBefore(entries, i + 1, kid) <==> KidBefore(entries, i, kid) || kid == KeyOf(entries[i]).kid
  {
    if KidBefore(entries, i, kid) {
      var j :| 0 <= j < i && KeyOf(entries[j]).kid == kid;
      assert j < i + 1;
    }
  }

  ghost predicate FirstFault(entries: seq<string>, i: nat, fault: Fault) {
    i < |entries| && FaultOf(entries, i) == Some(fault) && forall j :: 0 <= j < i ==> FaultOf(entries, j).None?
  }

  ghost predicate Faultless(entries: seq<string>) {
    entries != [] && forall i :: 0 <= i < |entries| ==> FaultOf(entries, i).None?
  }

  method ParseDataKeys(value: string) returns (r: Result<seq<DataKey>, Fault>)
    ensures r.Ok? <==> Faultless(Entries(value))
    ensures r.Ok? ==> Accepted(r.value) && |r.value| == |Entries(value)|
    ensures r.Ok? ==> forall i :: 0 <= i < |r.value| ==> r.value[i] == KeyOf(Entries(value)[i])
    ensures r.Err? ==>
      if Entries(value) == [] then r.error == NoKeys else exists i :: FirstFault(Entries(value), i, r.error)
  {
    var entries := Entries(value);
    if entries == [] { return Err(NoKeys); }
    r := ParseEntries(entries);
  }

  method ParseEntries(entries: seq<string>) returns (r: Result<seq<DataKey>, Fault>)
    requires entries != []
    ensures r.Ok? <==> Faultless(entries)
    ensures r.Ok? ==> Accepted(r.value) && |r.value| == |entries|
    ensures r.Ok? ==> forall i :: 0 <= i < |r.value| ==> r.value[i] == KeyOf(entries[i])
    ensures r.Err? ==> exists i :: FirstFault(entries, i, r.error)
  {
    var seen: set<string> := {};
    var keys: seq<DataKey> := [];
    var i := 0;
    while i < |entries|
      invariant 0 <= i <= |entries| && |keys| == i
      invariant forall j :: 0 <= j < i ==> keys[j] == KeyOf(entries[j]) && FaultOf(entries, j).None?
      invariant forall kid :: kid in seen <==> KidBefore(entries, i, kid)
    {
      var key := KeyOf(entries[i]);
      var fault := if !ValidKid(key.kid) then Some(BadKid)
        else if |key.key| != 32 then Some(BadKey(key.kid))
        else if key.kid in seen then Some(Duplicated(key.kid))
        else None;
      assert fault == FaultOf(entries, i);
      if fault.Some? {
        assert FirstFault(entries, i, fault.value);
        return Err(fault.value);
      }
      forall kid ensures KidBefore(entries, i + 1, kid) <==> kid in seen || kid == key.kid {
        OneMoreKid(entries, i, kid);
      }
      seen := seen + {key.kid};
      keys := keys + [key];
      i := i + 1;
    }
    FaultlessIsAccepted(entries, keys);
    r := Ok(keys);
  }

  // ------------------------------------------------------------------------------------ round trip

  function Written(key: DataKey): string {
    key.kid + ":" + Encode(key.key)
  }

  function WrittenAll(keys: seq<DataKey>): seq<string> {
    if keys == [] then [] else [Written(keys[0])] + WrittenAll(keys[1..])
  }

  lemma WrittenIsPlain(key: DataKey)
    requires ValidKid(key.kid)
    ensures forall i :: 0 <= i < |Written(key)| ==> Written(key)[i] != ',' && !Space(Written(key)[i])
  {
    var text := Written(key);
    EncodeDecode(key.key);
    forall i | 0 <= i < |text| ensures text[i] != ',' && !Space(text[i]) {
      if i < |key.kid| {
        assert KidChar(key.kid[i]);
      } else if i > |key.kid| {
        assert text[i] == Encode(key.key)[i - |key.kid| - 1];
        assert Value(text[i]).Some?;
      }
    }
  }

  lemma WrittenSplitsAtColon(key: DataKey)
    requires ValidKid(key.kid)
    ensures KeyOf(Written(key)) == key
  {
    var text := Written(key);
    EncodeDecode(key.key);
    forall j | 0 <= j < |key.kid| ensures text[j] != ':' { assert KidChar(key.kid[j]); }
    ColonIs(text, |key.kid|);
    assert text[..|key.kid|] == key.kid && text[|key.kid| + 1..] == Encode(key.key);
  }

  lemma WrittenIsRead(key: DataKey)
    requires ValidKid(key.kid)
    ensures KeyOf(Written(key)) == key
    ensures ',' !in Written(key) && Trim(Written(key)) == Written(key) && Written(key) != ""
  {
    WrittenIsPlain(key);
    WrittenSplitsAtColon(key);
    var text := Written(key);
    assert !Space(text[0]) && !Space(text[|text| - 1]);
  }

  lemma {:induction false} WrittenAllIsRead(keys: seq<DataKey>)
    requires forall i :: 0 <= i < |keys| ==> ValidKid(keys[i].kid)
    ensures |WrittenAll(keys)| == |keys| && NonEmptyTrimmed(WrittenAll(keys)) == WrittenAll(keys)
    ensures forall i :: 0 <= i < |keys| ==> ',' !in WrittenAll(keys)[i] && KeyOf(WrittenAll(keys)[i]) == keys[i]
  {
    if keys != [] {
      WrittenIsRead(keys[0]);
      WrittenAllIsRead(keys[1..]);
    }
  }

  /** Every list worth having can be written down, and reads back as itself without a fault. */
  lemma WrittenListIsAccepted(keys: seq<DataKey>)
    requires Accepted(keys)
    ensures WrittenAll(keys) != []
    ensures var entries := Entries(Join(WrittenAll(keys), ','));
      |entries| == |keys| && forall i :: 0 <= i < |keys| ==> KeyOf(entries[i]) == keys[i] && FaultOf(entries, i).None?
  {
    WrittenAllIsRead(keys);
    SplitJoin(WrittenAll(keys), ',');
  }
}
