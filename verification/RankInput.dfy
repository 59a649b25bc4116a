/**
 What a leaderboard request and its rows are made of (server/fesl/server.go, server/storage/storage.go):
 lists of keys read from parameters, names that pass validation, and names of imported players made harmless.
 */
module RankInput {
  import opened Decimals
  import opened FeslPacket
  import opened GoStrings
  import opened Octets
  import opened RankResponse
  import opened RankResponseRead

  const DOT: Byte := 46
  const SPACE: Byte := 32
  const MAX_HISTORICAL_NAME := 31

  // ----- Parameters -----

  function Get(p: map<Bytes, Bytes>, key: Bytes): Bytes { if key in p then p[key] else [] }

  function TextOf(b: Bytes): string {
    seq(|b|, i requires 0 <= i < |b| => (b[i] as int) as char)
  }

  /** A parameter as a number: zero for none, the nearest number out of range. */
  function NumberParam(p: map<Bytes, Bytes>, key: Bytes): int { Atoi(TextOf(Get(p, key))).0 }

  function KeyAt(p: map<Bytes, Bytes>, prefix: Bytes, i: nat): Bytes { Get(p, prefix + [DOT] + Number(i)) }

  /** The keys under the first n indices that are not empty, in order. */
  function KeyList(p: map<Bytes, Bytes>, prefix: Bytes, n: nat): seq<Bytes> {
    if n == 0 then []
    else
      var key := KeyAt(p, prefix, n - 1);
      KeyList(p, prefix, n - 1) + (if key == [] then [] else [key])
  }

  function KeyCount(p: map<Bytes, Bytes>, prefix: Bytes): int { NumberParam(p, prefix + Ascii(".[]")) }

  /** A list of keys; a negative count ends in a slice of negative capacity. */
  method ParseKeyList(p: map<Bytes, Bytes>, prefix: Bytes) returns (r: Option<seq<Bytes>>)
    ensures r == if KeyCount(p, prefix) < 0 then None else Some(KeyList(p, prefix, KeyCount(p, prefix)))
  {
    hide Number, Ascii, NumberParam;
    var count := NumberParam(p, prefix + Ascii(".[]"));
    if count < 0 {
      return None;
    }
    var keys: seq<Bytes> := [];
    for i := 0 to count
      invariant keys == KeyList(p, prefix, i)
    {
      var key := Get(p, prefix + [DOT] + Number(i));
      if key != [] {
        keys := keys + [key];
      }
    }
    r := Some(keys);
  }

  lemma {:induction false} KeyListMembers(p: map<Bytes, Bytes>, prefix: Bytes, n: nat, key: Bytes)
    ensures key in KeyList(p, prefix, n) <==> key != [] && exists i: nat :: i < n && KeyAt(p, prefix, i) == key
  {
    hide KeyAt;
    if n == 0 {
      assert KeyList(p, prefix, n) == [];
    } else {
      KeyListMembers(p, prefix, n - 1, key);
    }
  }

  // ----- What came off the wire is clean -----

  /** A parameter of a decoded packet has no newline and no trailing NUL. */
  lemma DecodedParamIsClean(data: Bytes, key: Bytes)
    requires Decoding(data).Complete?
    ensures CleanValue(Get(ParamsOf(Decoding(data).item.params), key))
  {
    hide ParamsOf, TransmissibleParam, Split, LineParams;
    var params := Decoding(data).item.params;
    var lines := Split(data[12..Uint32At(data[8..12])], NEWLINE);
    SplitPartsLackSep(data[12..Uint32At(data[8..12])], NEWLINE);
    DecodedParamsAreTransmissible(lines);
    assert params == LineParams(lines);
    if key in ParamsOf(params) {
      ReadValueIsWritten(params, key);
      var kv :| kv in params && kv.value == ParamsOf(params)[key];
      TransmissibleIsClean(kv);
    }
  }

  lemma TransmissibleIsClean(kv: KV)
    requires TransmissibleParam(kv)
    ensures CleanValue(kv.value)
  {
  }

  // ----- Persona names -----

  predicate NameOctet(c: Byte) {
    65 <= c <= 90 || 97 <= c <= 122 || 48 <= c <= 57 || c == 95 || c == DOT || c == 45 || c == SPACE
  }

  /** The octets of letters, digits, underscores, dots, dashes and spaces. */
  lemma NameOctetsAreText(c: char)
    requires c < 128 as char
    ensures NameOctet(Ascii([c])[0]) <==>
      'A' <= c <= 'Z' || 'a' <= c <= 'z' || '0' <= c <= '9' || c == '_' || c == '.' || c == '-' || c == ' '
  {
  }

  predicate IsWhite(c: Byte) { 9 <= c <= 13 || c == SPACE }

  /** What validation lets through: letters, digits, `_`, `.`, `-` and spaces, not spaces alone, and no longer than allowed. */
  predicate IsPersonaName(name: Bytes, maxLen: int) {
    && (forall i :: 0 <= i < |name| ==> NameOctet(name[i]))
    && (exists i :: 0 <= i < |name| && name[i] != SPACE)
    && (maxLen > 0 ==> |name| <= maxLen)
  }

  method ValidatePersonaName(value: Bytes, maxLen: int) returns (ok: bool)
    ensures ok <==> IsPersonaName(value, maxLen)
  {
    ok := ValidateLineIdentifier(value, maxLen, true);
    if !ok {
      return;
    }
    for i := 0 to |value|
      invariant forall j :: 0 <= j < i ==> NameOctet(value[j])
    {
      if !NameOctet(value[i]) {
        return false;
      }
    }
  }

  /** Not empty and not blank, no longer than allowed, no control characters, no `=` and, if asked for, no separators. */
  method ValidateLineIdentifier(value: Bytes, maxLen: int, rejectSeparators: bool) returns (ok: bool)
    ensures ok <==> (exists i :: 0 <= i < |value| && !IsWhite(value[i])) && (maxLen > 0 ==> |value| <= maxLen)
                    && forall i :: 0 <= i < |value| ==> LineOctet(value[i], rejectSeparators)
  {
    if |value| == 0 || (forall i :: 0 <= i < |value| ==> IsWhite(value[i])) {
      return false;
    }
    if maxLen > 0 && |value| > maxLen {
      return false;
    }
    for i := 0 to |value|
      invariant forall j :: 0 <= j < i ==> LineOctet(value[j], rejectSeparators)
    {
      if value[i] < SPACE || value[i] == 127 || value[i] == EQUALS {
        return false;
      }
      if rejectSeparators && (value[i] == 47 || value[i] == 92) {
        return false;
      }
    }
    ok := true;
  }

  predicate LineOctet(c: Byte, rejectSeparators: bool) {
    c >= SPACE && c != 127 && c != EQUALS && (rejectSeparators ==> c != 47 && c != 92)
  }

  lemma PersonaNameIsClean(name: Bytes, maxLen: int)
    requires IsPersonaName(name, maxLen)
    ensures CleanValue(name)
  {
  }

  // ----- Names of imported players -----

  predicate Shown(c: Byte) { SPACE <= c <= 126 && c != EQUALS }

  function TrimLeftWhite(b: Bytes): (r: Bytes)
    ensures r == [] || !IsWhite(r[0])
    ensures |r| <= |b| && r == b[|b| - |r|..]
  {
    if b != [] && IsWhite(b[0]) then TrimLeftWhite(b[1..]) else b
  }

  function TrimRightWhite(b: Bytes): (r: Bytes)
    ensures r == [] || !IsWhite(r[|r| - 1])
    ensures r <= b
  {
    if b != [] && IsWhite(b[|b| - 1]) then TrimRightWhite(b[..|b| - 1]) else b
  }

  function TrimWhite(b: Bytes): Bytes { TrimRightWhite(TrimLeftWhite(b)) }

  /** The octets that are shown. */
  function Kept(b: Bytes): (r: Bytes)
    ensures forall i :: 0 <= i < |r| ==> Shown(r[i])
  {
    if b == [] then [] else Kept(b[..|b| - 1]) + (if Shown(b[|b| - 1]) then [b[|b| - 1]] else [])
  }

  function FirstOf(b: Bytes, n: nat): Bytes { if |b| <= n then b else b[..n] }

  function Sanitized(name: Bytes): Bytes {
    var out := TrimWhite(FirstOf(Kept(TrimWhite(name)), MAX_HISTORICAL_NAME));
    if out == [] then Ascii("SRC Runner") else out
  }

  method SanitizeHistoricalName(name: Bytes) returns (out: Bytes)
    ensures out == Sanitized(name)
  {
    hide TrimWhite, Ascii;
    var trimmed := TrimWhite(name);
    var b: Bytes := [];
    for i := 0 to |trimmed|
      invariant b == Kept(trimmed[..i]) && |b| < MAX_HISTORICAL_NAME
    {
      assert trimmed[..i + 1][..i] == trimmed[..i];
      var r := trimmed[i];
      if r < SPACE || r > 126 {
        continue;
      }
      if r == EQUALS || r == 13 || r == NEWLINE || r == 9 {
        continue;
      }
      b := b + [r];
      if |b| >= MAX_HISTORICAL_NAME {
        KeptGrows(trimmed, i + 1);
        assert b == Kept(trimmed[..i + 1]) == FirstOf(Kept(trimmed), MAX_HISTORICAL_NAME);
        out := TrimWhite(b);
        if out == [] {
          out := Ascii("SRC Runner");
        }
        return;
      }
    }
    assert trimmed[..|trimmed|] == trimmed;
    out := TrimWhite(b);
    if out == [] {
      out := Ascii("SRC Runner");
    }
  }

  lemma {:induction false} KeptGrows(b: Bytes, i: nat)
    requires i <= |b|
    ensures Kept(b[..i]) <= Kept(b)
  {
    if i == |b| {
      assert b[..i] == b;
    } else {
      KeptGrows(b[..|b| - 1], i);
      assert b[..|b| - 1][..i] == b[..i];
    }
  }

  /** The shown characters keep their order; the others are dropped one by one. */
  lemma {:induction false} KeptInOrder(a: Bytes, b: Bytes)
    ensures Kept(a + b) == Kept(a) + Kept(b)
  {
    if b == [] {
      assert a + b == a && Kept(b) == [];
    } else {
      var n := |b| - 1;
      assert (a + b)[..|a + b| - 1] == a + b[..n];
      KeptInOrder(a, b[..n]);
    }
  }

  lemma KeptOne(c: char)
    requires c < 128 as char
    ensures Kept(Ascii([c])) == if ' ' <= c <= '~' && c != '=' then Ascii([c]) else []
  {
    assert Ascii([c])[..0] == [];
  }

  /** A sanitised name has one to thirty-one shown characters and no space at its ends. */
  predicate IsSanitized(name: Bytes) {
    && 0 < |name| <= 31 && (forall i :: 0 <= i < |name| ==> Shown(name[i]))
    && name[0] != SPACE && name[|name| - 1] != SPACE
  }

  lemma SanitizedIsSanitized(name: Bytes)
    ensures IsSanitized(Sanitized(name))
  {
    hide Kept, Ascii;
    hide TrimWhite;
    var b := FirstOf(Kept(TrimWhite(name)), MAX_HISTORICAL_NAME);
    TrimmedIsPart(b);
    FallbackName();
  }

  lemma TrimmedIsPart(b: Bytes)
    requires |b| <= MAX_HISTORICAL_NAME && forall i :: 0 <= i < |b| ==> Shown(b[i])
    ensures TrimWhite(b) != [] ==> IsSanitized(TrimWhite(b))
  {
    hide TrimLeftWhite, TrimRightWhite;
    var left := TrimLeftWhite(b);
    var out := TrimRightWhite(left);
    assert forall i :: 0 <= i < |left| ==> left[i] == b[|b| - |left| + i];
    assert forall i :: 0 <= i < |out| ==> out[i] == left[i];
  }

  lemma FallbackName()
    ensures IsSanitized(Ascii("SRC Runner"))
  {
  }

  lemma {:induction false} KeptAll(b: Bytes)
    requires forall i :: 0 <= i < |b| ==> Shown(b[i])
    ensures Kept(b) == b
  {
    if b == [] {
      assert Kept(b) == [];
    } else {
      KeptAll(b[..|b| - 1]);
      assert b[..|b| - 1] + [b[|b| - 1]] == b;
    }
  }

  /** Exactly the names of that form are left as they are. */
  lemma SanitizedIff(name: Bytes)
    ensures Sanitized(name) == name <==> IsSanitized(name)
  {
    hide Kept, Ascii;
    if IsSanitized(name) {
      KeptAll(name);
    }
    if Sanitized(name) == name {
      SanitizedIsSanitized(name);
    }
  }

  lemma SanitizedIsClean(name: Bytes)
    ensures CleanValue(Sanitized(name))
  {
    hide Sanitized;
    SanitizedIsSanitized(name);
  }
}
