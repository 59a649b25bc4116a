/**
 The FESL wire format (server/fesl/packet.go): a twelve-byte header of type,
 id and total length, then `key=value` lines and a closing NUL.
 */
module FeslPacket {
  import opened Framing
  import opened GoStrings
  import opened Octets

  const NUL: Byte := 0
  const NEWLINE: Byte := 10
  const EQUALS: Byte := 61

  const HEADER_LEN := 12

  datatype KV = KV(key: Bytes, value: Bytes)

  datatype Packet = Packet(typ: Bytes, id: Uint32, params: seq<KV>)

  /** What `Decode` returns: no whole packet yet, an error, or a packet and the bytes behind it. */
  type Decoded = Framed<Byte, Packet>

  // ----- What the two directions compute -----

  function Line(kv: KV): Bytes {
    kv.key + [EQUALS] + kv.value + [NEWLINE]
  }

  function Lines(params: seq<KV>): Bytes {
    if params == [] then [] else Line(params[0]) + Lines(params[1..])
  }

  /** A type of any length, cut or NUL-padded to the four bytes the header has for it. */
  function TypeField(typ: Bytes): (r: Bytes)
    ensures |r| == 4
  {
    if |typ| >= 4 then typ[..4] else typ + Repeat(NUL, 4 - |typ|)
  }

  function EncodedLen(params: seq<KV>): nat {
    HEADER_LEN + |Lines(params)| + 1
  }

  function Encoded(typ: Bytes, id: Uint32, params: seq<KV>): (r: Bytes)
    ensures |r| == EncodedLen(params)
  {
    TypeField(typ) + PutUint32(id) + PutUint32(EncodedLen(params) % TWO32) + Lines(params) + [NUL]
  }

  /** The parameter a payload line stands for, if it stands for one. */
  function LineParam(line: Bytes): seq<KV> {
    var trimmed := TrimRight(line, NUL);
    if trimmed == [] then []
    else
      match Cut(trimmed, EQUALS)
      case None => []
      case Some((key, value)) => [KV(key, value)]
  }

  function LineParams(lines: seq<Bytes>): seq<KV> {
    if lines == [] then [] else LineParam(lines[0]) + LineParams(lines[1..])
  }

  function Decoding(data: Bytes): (d: Decoded)
    ensures d.Complete? ==> |d.rest| + HEADER_LEN <= |data|
  {
    if |data| < HEADER_LEN then Incomplete
    else
      var totalLen := Uint32At(data[8..12]);
      if totalLen < HEADER_LEN then Failed
      else if |data| < totalLen then Incomplete
      else
        Complete(Packet(TrimRight(data[..4], NUL), Uint32At(data[4..8]), LineParams(Split(data[12..totalLen], NEWLINE))),
                 data[totalLen..])
  }

  // ----- The operations -----

  method WriteLines(params: seq<KV>) returns (payload: Bytes)
    ensures payload == Lines(params)
  {
    payload := [];
    for i := 0 to |params|
      invariant payload == Lines(params[..i])
    {
      payload := payload + params[i].key;
      payload := payload + [EQUALS];
      payload := payload + params[i].value;
      payload := payload + [NEWLINE];
      LinesAppend(params[..i], params[i]);
      assert params[..i] + [params[i]] == params[..i + 1];
      assert payload == Lines(params[..i]) + Line(params[i]);
    }
    assert params[..|params|] == params;
  }

  lemma {:induction false} LinesAppend(params: seq<KV>, kv: KV)
    ensures Lines(params + [kv]) == Lines(params) + Line(kv)
  {
    if params != [] {
      LinesAppend(params[1..], kv);
      assert (params + [kv])[1..] == params[1..] + [kv];
    } else {
      assert (params + [kv])[1..] == [];
    }
  }

  method Encode(typ: Bytes, id: Uint32, params: seq<KV>) returns (r: Bytes)
    ensures r == Encoded(typ, id, params)
  {
    hide PutUint32, TypeField, Lines;
    var payload := WriteLines(params);
    payload := payload + [NUL];
    var totalLen := HEADER_LEN + |payload|;
    var out := new Byte[totalLen](_ => NUL);
    ghost var blank := out[..];
    var field := if |typ| > 4 then typ[..4] else typ;
    SameField(typ);
    CopyInto(out, 0, field);
    CopyInto(out, 4, PutUint32(id));
    CopyInto(out, 8, PutUint32(totalLen % TWO32));
    CopyInto(out, 12, payload);
    HeaderThenPayload(blank, field, PutUint32(id), PutUint32(totalLen % TWO32), payload);
    r := out[..];
  }

  lemma SameField(typ: Bytes)
    ensures TypeField(if |typ| > 4 then typ[..4] else typ) == TypeField(typ)
  {
  }

  method CopyInto(out: array<Byte>, at: nat, src: Bytes)
    requires at + |src| <= out.Length
    modifies out
    ensures out[..] == Overwrite(old(out[..]), at, src)
  {
    for i := 0 to |src|
      invariant forall j :: 0 <= j < i ==> out[at + j] == src[j]
      invariant forall j :: 0 <= j < out.Length && !(at <= j < at + i) ==> out[j] == old(out[j])
    {
      out[at + i] := src[i];
    }
  }

  function Overwrite(b: Bytes, at: nat, src: Bytes): (r: Bytes)
    requires at + |src| <= |b|
    ensures |r| == |b|
  {
    b[..at] + src + b[at + |src|..]
  }

  lemma HeaderThenPayload(blank: Bytes, typ: Bytes, id: Bytes, len: Bytes, payload: Bytes)
    requires |typ| <= 4 && |id| == |len| == 4 && |blank| == HEADER_LEN + |payload|
    requires forall j :: 0 <= j < |blank| ==> blank[j] == NUL
    ensures Overwrite(Overwrite(Overwrite(Overwrite(blank, 0, typ), 4, id), 8, len), 12, payload)
         == TypeField(typ) + id + len + payload
  {
    var b1 := Overwrite(blank, 0, typ);
    assert b1[..4] == TypeField(typ);
    var b2 := Overwrite(b1, 4, id);
    assert b2[..8] == TypeField(typ) + id;
    var b3 := Overwrite(b2, 8, len);
    assert b3[..12] == TypeField(typ) + id + len;
  }

  method Decode(data: Bytes) returns (d: Decoded)
    ensures d == Decoding(data)
  {
    if |data| < HEADER_LEN {
      return Incomplete;
    }
    var totalLen := Uint32At(data[8..12]);
    if totalLen < HEADER_LEN {
      return Failed;
    }
    if |data| < totalLen {
      return Incomplete;
    }
    var params := ReadParams(Split(data[12..totalLen], NEWLINE));
    d := Complete(Packet(TrimRight(data[..4], NUL), Uint32At(data[4..8]), params), data[totalLen..]);
  }

  method ReadParams(lines: seq<Bytes>) returns (params: seq<KV>)
    ensures params == LineParams(lines)
  {
    hide Split, TrimRight, Cut, LineParams;
    params := [];
    LineParamsOfNone();
    for i := 0 to |lines|
      invariant params == LineParams(lines[..i])
    {
      LineParamsAppend(lines[..i], lines[i]);
      assert lines[..i] + [lines[i]] == lines[..i + 1];
      var line := TrimRight(lines[i], NUL);
      if line == [] {
        continue;
      }
      match Cut(line, EQUALS) {
        case None =>
        case Some((key, value)) =>
          params := params + [KV(key, value)];
      }
    }
    assert lines[..|lines|] == lines;
  }

  lemma LineParamsOfNone()
    ensures LineParams([]) == []
  {
  }

  lemma {:induction false} LineParamsAppend(lines: seq<Bytes>, line: Bytes)
    ensures LineParams(lines + [line]) == LineParams(lines) + LineParam(line)
  {
    if lines != [] {
      LineParamsAppend(lines[1..], line);
      assert (lines + [line])[1..] == lines[1..] + [line];
    } else {
      assert (lines + [line])[1..] == [];
    }
  }

  /** The last value written under a key, as the loop leaves it in the map. */
  function ParamsOf(params: seq<KV>): (m: map<Bytes, Bytes>) {
    if params == [] then map[]
    else ParamsOf(params[..|params| - 1])[params[|params| - 1].key := params[|params| - 1].value]
  }

  method ParamsMap(params: seq<KV>) returns (m: map<Bytes, Bytes>)
    ensures m == ParamsOf(params)
  {
    m := map[];
    for i := 0 to |params|
      invariant m == ParamsOf(params[..i])
    {
      m := m[params[i].key := params[i].value];
      assert params[..i + 1][..i] == params[..i];
    }
    assert params[..|params|] == params;
  }

  lemma {:induction false} ParamsOfIsLastWrite(params: seq<KV>, k: Bytes)
    ensures k in ParamsOf(params) <==> exists i :: 0 <= i < |params| && params[i].key == k
    ensures forall i :: 0 <= i < |params| && params[i].key == k && (forall j :: i < j < |params| ==> params[j].key != k)
              ==> k in ParamsOf(params) && ParamsOf(params)[k] == params[i].value
  {
    if params == [] {
    } else {
      var n := |params| - 1;
      ParamsOfIsLastWrite(params[..n], k);
      if params[n].key == k {
        assert k in ParamsOf(params);
      } else {
        forall i | 0 <= i < |params| && params[i].key == k && (forall j :: i < j < |params| ==> params[j].key != k)
          ensures k in ParamsOf(params) && ParamsOf(params)[k] == params[i].value
        {
          assert params[..n][i] == params[i];
          assert forall j :: i < j < n ==> params[..n][j] == params[j];
        }
      }
    }
  }

  lemma {:induction false} ReadValueIsWritten(params: seq<KV>, key: Bytes)
    requires key in ParamsOf(params)
    ensures exists kv :: kv in params && kv.value == ParamsOf(params)[key]
  {
    var init, last := params[..|params| - 1], params[|params| - 1];
    assert params == init + [last];
    if last.key == key {
      assert last in params;
    } else {
      ReadValueIsWritten(init, key);
    }
  }

  // ----- The layout, octet by octet -----

  /** A line is key, equals sign, value and newline. */
  lemma LineIsText(kv: KV)
    ensures Lines([kv]) == kv.key + Ascii("=") + kv.value + Ascii("\n")
  {
    assert [kv][1..] == [] && Lines([]) == [];
    assert Ascii("=") == [EQUALS] && Ascii("\n") == [NEWLINE];
  }

  /** Type, id and length in twelve octets, the numbers with their most significant octet first; then the lines and a NUL. */
  lemma WireLayout(typ: Bytes, id: Uint32, params: seq<KV>)
    requires |typ| <= 4 && EncodedLen(params) < TWO32
    ensures var e := Encoded(typ, id, params);
      && |e| == 12 + |Lines(params)| + 1
      && e[..|typ|] == typ && (forall i :: |typ| <= i < 4 ==> e[i] == 0)
      && e[4] as int * 0x100_0000 + e[5] as int * 0x1_0000 + e[6] as int * 0x100 + e[7] as int == id
      && e[8] as int * 0x100_0000 + e[9] as int * 0x1_0000 + e[10] as int * 0x100 + e[11] as int == |e|
      && e[12..|e| - 1] == Lines(params) && e[|e| - 1] == 0
  {
    hide PutUint32, Lines;
    var e, n := Encoded(typ, id, params), EncodedLen(params);
    MostSignificantFirst(id);
    MostSignificantFirst(n);
    assert e[..4] == TypeField(typ) && e[4..8] == PutUint32(id) && e[8..12] == PutUint32(n);
  }

  /** The length in a header. */
  function LengthAt(data: Bytes): int
    requires |data| >= 12
  {
    data[8] as int * 0x100_0000 + data[9] as int * 0x1_0000 + data[10] as int * 0x100 + data[11] as int
  }

  /** When a buffer starts with a packet, when it is too short for one, and when it can never be one. */
  lemma DecodingOutcome(data: Bytes)
    ensures Decoding(data).Incomplete? <==> |data| < 12 || (12 <= LengthAt(data) && |data| < LengthAt(data))
    ensures Decoding(data).Failed? <==> |data| >= 12 && LengthAt(data) < 12
    ensures Decoding(data).Complete? ==> Decoding(data).rest == data[LengthAt(data)..]
  {
    hide Split, LineParams, TrimRight;
  }

  /** A line gives a parameter exactly if it is key, equals sign and value, with any number of NULs behind. */
  lemma LineParamIff(line: Bytes, kv: KV)
    ensures LineParam(line) == [kv] <==>
      && EQUALS !in kv.key && (kv.value == [] || kv.value[|kv.value| - 1] != NUL)
      && exists n: nat :: line == kv.key + [EQUALS] + kv.value + Repeat(NUL, n)
  {
    hide TrimRight, Cut, Repeat;
    var trimmed := TrimRight(line, NUL);
    TrimRightRest(line, NUL);
    if LineParam(line) == [kv] {
      assert trimmed == kv.key + [EQUALS] + kv.value;
      assert kv.value != [] ==> kv.value[|kv.value| - 1] == trimmed[|trimmed| - 1];
    }
    if n: nat :| EQUALS !in kv.key && (kv.value == [] || kv.value[|kv.value| - 1] != NUL)
                 && line == kv.key + [EQUALS] + kv.value + Repeat(NUL, n) {
      var text := kv.key + [EQUALS] + kv.value;
      assert text[|text| - 1] != NUL;
      TrimRightRepeat(text, NUL, n);
      CutAtFirst(kv.key, EQUALS, kv.value);
    }
  }

  /** A line without an equals sign gives none. */
  lemma LineWithoutEquals(line: Bytes)
    ensures LineParam(line) == [] <==> EQUALS !in line
  {
    hide TrimRight, Cut;
    var trimmed := TrimRight(line, NUL);
    TrimRightRest(line, NUL);
    assert EQUALS !in Repeat(NUL, |line| - |trimmed|);
    assert EQUALS in line <==> EQUALS in trimmed;
  }

  // ----- Round trip -----

  ghost predicate TransmissibleParam(kv: KV) {
    && EQUALS !in kv.key && NEWLINE !in kv.key
    && NEWLINE !in kv.value && (kv.value == [] || kv.value[|kv.value| - 1] != NUL)
  }

  /** What a packet must be for the other side to read the same packet. */
  ghost predicate Transmissible(p: Packet) {
    && |p.typ| <= 4 && (p.typ == [] || p.typ[|p.typ| - 1] != NUL)
    && (forall i :: 0 <= i < |p.params| ==> TransmissibleParam(p.params[i]))
    && EncodedLen(p.params) < TWO32
  }

  lemma {:induction false} LinesDecode(params: seq<KV>)
    requires forall i :: 0 <= i < |params| ==> TransmissibleParam(params[i])
    ensures LineParams(Split(Lines(params) + [NUL], NEWLINE)) == params
  {
    if params == [] {
      assert Lines(params) + [NUL] == [NUL];
      OnlyNul();
    } else {
      hide TrimRight, Cut, Split, LineParam, LineParams, Lines, TransmissibleParam;
      var kv, tail := params[0], Lines(params[1..]) + [NUL];
      FirstLine(params);
      LineHasNoNewline(kv);
      SplitAtFirst(LineText(kv), NEWLINE, tail);
      LinesDecode(params[1..]);
      LineParamsOfFirst(LineText(kv), Split(tail, NEWLINE));
      LineDecodes(kv);
      assert params == [kv] + params[1..];
    }
  }

  /** A line without its newline. */
  function LineText(kv: KV): Bytes { kv.key + [EQUALS] + kv.value }

  lemma LineHasNoNewline(kv: KV)
    requires TransmissibleParam(kv)
    ensures NEWLINE !in LineText(kv)
  {
  }

  lemma LineParamsOfFirst(line: Bytes, lines: seq<Bytes>)
    ensures LineParams([line] + lines) == LineParam(line) + LineParams(lines)
  {
    assert ([line] + lines)[1..] == lines;
  }

  lemma FirstLine(params: seq<KV>)
    requires params != []
    ensures Lines(params) + [NUL] == LineText(params[0]) + [NEWLINE] + (Lines(params[1..]) + [NUL])
  {
    hide Lines;
    LinesOfFirst(params);
  }

  lemma LinesOfFirst(params: seq<KV>)
    requires params != []
    ensures Lines(params) == Line(params[0]) + Lines(params[1..])
  {
  }

  lemma OnlyNul()
    ensures LineParams(Split([NUL], NEWLINE)) == []
  {
    hide Split, TrimRight;
    SplitNone([NUL], NEWLINE);
    TrimRightRepeat([], NUL, 1);
    assert [] + Repeat(NUL, 1) == [NUL];
    assert [[NUL]][1..] == [];
  }

  lemma LineDecodes(kv: KV)
    requires TransmissibleParam(kv)
    ensures LineParam(LineText(kv)) == [kv]
  {
    hide TrimRight, Cut;
    var line := LineText(kv);
    assert line[|line| - 1] != NUL;
    TrimRightRepeat(line, NUL, 0);
    assert line + Repeat(NUL, 0) == line;
    CutAtFirst(kv.key, EQUALS, kv.value);
  }

  lemma EncodedFields(p: Packet, more: Bytes)
    requires EncodedLen(p.params) < TWO32
    ensures var n, data := EncodedLen(p.params), Encoded(p.typ, p.id, p.params) + more;
            && data[..4] == TypeField(p.typ) && data[4..8] == PutUint32(p.id) && data[8..12] == PutUint32(n)
            && data[12..n] == Lines(p.params) + [NUL] && data[n..] == more
  {
    hide PutUint32, TypeField, Lines;
    var f0, f1, f2 := TypeField(p.typ), PutUint32(p.id), PutUint32(EncodedLen(p.params));
    var tail := Lines(p.params) + [NUL];
    assert Encoded(p.typ, p.id, p.params) + more == f0 + f1 + f2 + (tail + more);
  }

  lemma DecodeEncodedPrefix(p: Packet, more: Bytes)
    requires Transmissible(p)
    ensures Decoding(Encoded(p.typ, p.id, p.params) + more) == Complete(p, more)
  {
    hide Split, TrimRight, Lines, LineParams, PutUint32, Uint32At, TransmissibleParam;
    EncodedFields(p, more);
    Uint32RoundTrip(p.id);
    Uint32RoundTrip(EncodedLen(p.params));
    LinesDecode(p.params);
    TrimRightRepeat(p.typ, NUL, 4 - |p.typ|);
    assert p.typ + Repeat(NUL, 4 - |p.typ|) == TypeField(p.typ);
  }

  lemma LineParamIsTransmissible(line: Bytes)
    requires NEWLINE !in line
    ensures forall kv :: kv in LineParam(line) ==> TransmissibleParam(kv)
  {
    var trimmed := TrimRight(line, NUL);
    if trimmed != [] && Cut(trimmed, EQUALS).Some? {
      var (key, value) := Cut(trimmed, EQUALS).value;
      assert NEWLINE !in trimmed && trimmed == key + [EQUALS] + value;
      assert value != [] ==> value[|value| - 1] == trimmed[|trimmed| - 1];
      assert forall c :: c in key || c in value ==> c in trimmed;
    }
  }

  /** Whatever the bytes, a decoded parameter is one that can be sent. */
  lemma {:induction false} DecodedParamsAreTransmissible(lines: seq<Bytes>)
    requires forall i :: 0 <= i < |lines| ==> NEWLINE !in lines[i]
    ensures forall kv :: kv in LineParams(lines) ==> TransmissibleParam(kv)
  {
    if lines == [] {
    } else {
      LineParamIsTransmissible(lines[0]);
      DecodedParamsAreTransmissible(lines[1..]);
    }
  }

  /** A packet survives the wire exactly when it is transmissible. */
  lemma RoundTripIff(p: Packet)
    ensures Decoding(Encoded(p.typ, p.id, p.params)) == Complete(p, []) <==> Transmissible(p)
  {
    hide Split, TrimRight, Lines, LineParams, PutUint32, Uint32At, TransmissibleParam;
    var enc := Encoded(p.typ, p.id, p.params);
    assert enc + [] == enc;
    if Transmissible(p) {
      DecodeEncodedPrefix(p, []);
    } else if Decoding(enc) == Complete(p, []) {
      assert enc[8..12] == PutUint32(|enc| % TWO32);
      Uint32RoundTrip(|enc| % TWO32);
      assert |enc| < TWO32;
      var lines := Split(enc[12..|enc|], NEWLINE);
      SplitPartsLackSep(enc[12..|enc|], NEWLINE);
      DecodedParamsAreTransmissible(lines);
    }
  }
}
