/**
 The leaderboard response (server/fesl/rank.go): its key/value lines, and the
 loop that drops rows until the packet is small enough.
 */
module RankResponse {
  import opened Decimals
  import opened FeslPacket
  import opened Octets

  const MAX_PACKET_BYTES := 60000
  const MAX_HISTORICAL_ROWS := 100
  const NO_TIME := 3599.99

  datatype TopEntry = TopEntry(rank: int, personaId: int, personaName: Bytes, values: map<Bytes, real>,
                               imported: bool, timeOnly: bool)

  /** How a number is written with six decimals. */
  type Formatter = real -> Bytes

  function Number(n: int): (r: Bytes)
    ensures |r| > 0
  {
    Ascii(Itoa(n))
  }

  function Prefix(i: nat): Bytes { Ascii("stats.") + Number(i) }

  predicate IsTimeKey(key: Bytes) { |key| >= 3 && key[|key| - 3..] == Ascii("_20") }

  function DefaultForKey(key: Bytes): real { if IsTimeKey(key) then NO_TIME else 0.0 }

  // ----- The lines -----

  function ValueFor(values: map<Bytes, real>, key: Bytes): real {
    if key in values then values[key] else DefaultForKey(key)
  }

  /** One stat of a group; an absent stat of an entry known only by its time has no text. */
  function StatLines(fmt: Formatter, prefix: Bytes, values: map<Bytes, real>, key: Bytes, rank: Bytes, onlyTime: bool): seq<KV> {
    var text := if onlyTime && key !in values && !IsTimeKey(key) then [] else fmt(ValueFor(values, key));
    [KV(prefix + Ascii(".key"), key), KV(prefix + Ascii(".value"), fmt(ValueFor(values, key))),
     KV(prefix + Ascii(".text"), text), KV(prefix + Ascii(".rank"), rank)]
  }

  /** The count of all keys, and the stats of the first n. */
  function Stats(fmt: Formatter, prefix: Bytes, values: map<Bytes, real>, keys: seq<Bytes>, rank: Bytes, onlyTime: bool, n: nat)
    : seq<KV>
    requires n <= |keys|
  {
    if n == 0 then [KV(prefix + Ascii("[]"), Number(|keys|))]
    else
      Stats(fmt, prefix, values, keys, rank, onlyTime, n - 1)
      + StatLines(fmt, prefix + Number(n - 1), values, keys[n - 1], rank, onlyTime)
  }

  function SparseStatLines(fmt: Formatter, prefix: Bytes, values: map<Bytes, real>, key: Bytes): seq<KV> {
    [KV(prefix + Ascii(".key"), key), KV(prefix + Ascii(".value"), fmt(ValueFor(values, key)))]
  }

  /** The count of all keys, and those of the first n that are the sort key. */
  function SparseStats(fmt: Formatter, prefix: Bytes, values: map<Bytes, real>, keys: seq<Bytes>, sortKey: Bytes, n: nat): seq<KV>
    requires n <= |keys|
  {
    if n == 0 then [KV(prefix + Ascii("[]"), Number(|keys|))]
    else
      SparseStats(fmt, prefix, values, keys, sortKey, n - 1)
      + (if keys[n - 1] == sortKey then SparseStatLines(fmt, prefix + Number(n - 1), values, keys[n - 1]) else [])
  }

  function SortValue(e: TopEntry, sortKey: Bytes): real { if sortKey in e.values then e.values[sortKey] else 0.0 }

  function RowHead(fmt: Formatter, prefix: Bytes, e: TopEntry, sortKey: Bytes): seq<KV> {
    var owner, value := Number(e.personaId), fmt(SortValue(e, sortKey));
    if e.imported then
      [KV(prefix + Ascii(".owner"), owner), KV(prefix + Ascii(".name"), e.personaName),
       KV(prefix + Ascii(".rank"), Number(e.rank)), KV(prefix + Ascii(".value"), value)]
    else
      [KV(prefix + Ascii(".ownerId"), owner), KV(prefix + Ascii(".ownerType"), Ascii("1")),
       KV(prefix + Ascii(".owner"), owner), KV(prefix + Ascii(".name"), e.personaName),
       KV(prefix + Ascii(".rank"), Number(e.rank)), KV(prefix + Ascii(".value"), value), KV(prefix + Ascii(".text"), value)]
  }

  function RowStats(fmt: Formatter, prefix: Bytes, e: TopEntry, keys: seq<Bytes>, sortKey: Bytes): seq<KV> {
    if e.imported then SparseStats(fmt, prefix + Ascii(".addStats."), e.values, keys, sortKey, |keys|)
    else
      Stats(fmt, prefix + Ascii(".stats."), e.values, keys, Number(e.rank), e.timeOnly, |keys|)
      + Stats(fmt, prefix + Ascii(".addStats."), e.values, keys, Number(e.rank), e.timeOnly, |keys|)
  }

  function Row(fmt: Formatter, prefix: Bytes, e: TopEntry, keys: seq<Bytes>, sortKey: Bytes): seq<KV> {
    RowHead(fmt, prefix, e, sortKey) + RowStats(fmt, prefix, e, keys, sortKey)
  }

  /** The lines of the first n rows. */
  function Rows(fmt: Formatter, entries: seq<TopEntry>, keys: seq<Bytes>, sortKey: Bytes, n: nat): seq<KV>
    requires n <= |entries|
  {
    if n == 0 then []
    else Rows(fmt, entries, keys, sortKey, n - 1) + Row(fmt, Prefix(n - 1), entries[n - 1], keys, sortKey)
  }

  function Title(count: int): seq<KV> {
    [KV(Ascii("TXN"), Ascii("GetTopNAndStats")), KV(Ascii("stats.[]"), Number(count))]
  }

  function Response(fmt: Formatter, entries: seq<TopEntry>, keys: seq<Bytes>, sortKey: Bytes): seq<KV> {
    Title(|entries|) + Rows(fmt, entries, keys, sortKey, |entries|)
  }

  // ----- Building them -----

  method EmitStats(resp: seq<KV>, fmt: Formatter, prefix: Bytes, values: map<Bytes, real>, keys: seq<Bytes>, rank: Bytes, onlyTime: bool)
    returns (resp': seq<KV>)
    ensures resp' == resp + Stats(fmt, prefix, values, keys, rank, onlyTime, |keys|)
  {
    hide Ascii, Number, IsTimeKey;
    resp' := resp + [KV(prefix + Ascii("[]"), Number(|keys|))];
    for i := 0 to |keys|
      invariant resp' == resp + Stats(fmt, prefix, values, keys, rank, onlyTime, i)
    {
      var key := keys[i];
      var value := ValueFor(values, key);
      var text := fmt(value);
      if onlyTime && key !in values && !IsTimeKey(key) {
        text := [];
      }
      var statPrefix := prefix + Number(i);
      resp' := resp' + [KV(statPrefix + Ascii(".key"), key), KV(statPrefix + Ascii(".value"), fmt(value)),
                        KV(statPrefix + Ascii(".text"), text), KV(statPrefix + Ascii(".rank"), rank)];
    }
  }

  method EmitSparseStats(resp: seq<KV>, fmt: Formatter, prefix: Bytes, values: map<Bytes, real>, keys: seq<Bytes>, sortKey: Bytes)
    returns (resp': seq<KV>)
    ensures resp' == resp + SparseStats(fmt, prefix, values, keys, sortKey, |keys|)
  {
    hide Ascii, Number, IsTimeKey, ValueFor;
    resp' := resp + [KV(prefix + Ascii("[]"), Number(|keys|))];
    for i := 0 to |keys|
      invariant resp' == resp + SparseStats(fmt, prefix, values, keys, sortKey, i)
    {
      if keys[i] != sortKey {
        continue;
      }
      var statPrefix := prefix + Number(i);
      resp' := resp' + [KV(statPrefix + Ascii(".key"), keys[i]), KV(statPrefix + Ascii(".value"), fmt(ValueFor(values, keys[i])))];
    }
  }

  method BuildTopNAndStatsResponse(fmt: Formatter, entries: seq<TopEntry>, keys: seq<Bytes>, sortKey: Bytes) returns (resp: seq<KV>)
    ensures resp == Response(fmt, entries, keys, sortKey)
  {
    hide Ascii, Number, Row;
    resp := [KV(Ascii("TXN"), Ascii("GetTopNAndStats")), KV(Ascii("stats.[]"), Number(|entries|))];
    for i := 0 to |entries|
      invariant resp == Title(|entries|) + Rows(fmt, entries, keys, sortKey, i)
    {
      resp := EmitRow(resp, fmt, Prefix(i), entries[i], keys, sortKey);
    }
  }

  /** The body of the loop over the entries. */
  method EmitRow(resp: seq<KV>, fmt: Formatter, prefix: Bytes, e: TopEntry, keys: seq<Bytes>, sortKey: Bytes)
    returns (resp': seq<KV>)
    ensures resp' == resp + Row(fmt, prefix, e, keys, sortKey)
  {
    hide Ascii, Number, Stats, SparseStats, SortValue;
    var owner, value := Number(e.personaId), fmt(SortValue(e, sortKey));
    if e.imported {
      resp' := resp + [KV(prefix + Ascii(".owner"), owner), KV(prefix + Ascii(".name"), e.personaName),
                       KV(prefix + Ascii(".rank"), Number(e.rank)), KV(prefix + Ascii(".value"), value)];
      resp' := EmitSparseStats(resp', fmt, prefix + Ascii(".addStats."), e.values, keys, sortKey);
      return;
    }
    resp' := resp + [KV(prefix + Ascii(".ownerId"), owner), KV(prefix + Ascii(".ownerType"), Ascii("1")),
                     KV(prefix + Ascii(".owner"), owner), KV(prefix + Ascii(".name"), e.personaName),
                     KV(prefix + Ascii(".rank"), Number(e.rank)), KV(prefix + Ascii(".value"), value),
                     KV(prefix + Ascii(".text"), value)];
    resp' := EmitStats(resp', fmt, prefix + Ascii(".stats."), e.values, keys, Number(e.rank), e.imported || e.timeOnly);
    resp' := EmitStats(resp', fmt, prefix + Ascii(".addStats."), e.values, keys, Number(e.rank), e.imported || e.timeOnly);
  }

  function NonEmpty(keys: seq<Bytes>): seq<Bytes> {
    if keys == [] then []
    else
      var last := keys[|keys| - 1];
      NonEmpty(keys[..|keys| - 1]) + (if last == [] then [] else [last])
  }

  /** The requested keys that are not empty, led by the sort key if it is not among them. */
  function BoardKeys(sortKey: Bytes, requested: seq<Bytes>): seq<Bytes> {
    (if sortKey == [] || sortKey in requested then [] else [sortKey]) + NonEmpty(requested)
  }

  method LeaderboardKeys(sortKey: Bytes, requested: seq<Bytes>) returns (keys: seq<Bytes>)
    ensures keys == BoardKeys(sortKey, requested)
  {
    keys := [];
    var hasSortKey := sortKey == [];
    for i := 0 to |requested|
      invariant keys == NonEmpty(requested[..i])
      invariant hasSortKey <==> sortKey == [] || sortKey in requested[..i]
    {
      assert requested[..i + 1] == requested[..i] + [requested[i]];
      if requested[i] != [] {
        keys := keys + [requested[i]];
        if requested[i] == sortKey {
          hasSortKey := true;
        }
      }
    }
    assert requested[..|requested|] == requested;
    if sortKey != [] && !hasSortKey {
      keys := [sortKey] + keys;
    }
  }

  lemma {:induction false} NonEmptyMembers(keys: seq<Bytes>, k: Bytes)
    ensures k in NonEmpty(keys) <==> k != [] && k in keys
  {
    if keys == [] {
    } else {
      NonEmptyMembers(keys[..|keys| - 1], k);
    }
  }

  /** The response shows the sort key and every requested key, and no empty one. */
  lemma BoardKeysAreTheKeys(sortKey: Bytes, requested: seq<Bytes>, k: Bytes)
    ensures k in BoardKeys(sortKey, requested) <==> k != [] && (k == sortKey || k in requested)
  {
    NonEmptyMembers(requested, k);
  }

  /** The requested keys keep their order, and empty ones are dropped one by one. */
  lemma {:induction false} NonEmptyInOrder(a: seq<Bytes>, b: seq<Bytes>)
    ensures NonEmpty(a + b) == NonEmpty(a) + NonEmpty(b)
  {
    if b == [] {
      assert a + b == a && NonEmpty(b) == [];
    } else {
      var n := |b| - 1;
      assert (a + b)[..|a + b| - 1] == a + b[..n];
      NonEmptyInOrder(a, b[..n]);
    }
  }

  lemma OneKey(k: Bytes)
    ensures NonEmpty([k]) == if k == [] then [] else [k]
  {
    assert [k][..0] == [];
  }

  /** A sort key that was not requested is shown first, in front of the requested keys; else just those are shown. */
  lemma SortKeyLeads(sortKey: Bytes, requested: seq<Bytes>)
    ensures sortKey != [] && sortKey !in requested ==> BoardKeys(sortKey, requested) == [sortKey] + NonEmpty(requested)
    ensures sortKey == [] || sortKey in requested ==> BoardKeys(sortKey, requested) == NonEmpty(requested)
  {
    assert [] + NonEmpty(requested) == NonEmpty(requested);
  }

  // ----- Trimming -----

  predicate HasHistoricalRows(entries: seq<TopEntry>) { exists i :: 0 <= i < |entries| && entries[i].imported }

  function Capped(entries: seq<TopEntry>): seq<TopEntry> {
    if HasHistoricalRows(entries) && |entries| > MAX_HISTORICAL_ROWS then entries[..MAX_HISTORICAL_ROWS] else entries
  }

  /** The cap keeps the first hundred rows if there are more and one of them, shown or not, is imported. */
  lemma CappedRows(entries: seq<TopEntry>)
    ensures Capped(entries) <= entries
    ensures |Capped(entries)| == if |entries| > 100 && (exists e :: e in entries && e.imported) then 100 else |entries|
  {
    if HasHistoricalRows(entries) {
      var i :| 0 <= i < |entries| && entries[i].imported;
      assert entries[i] in entries;
    }
  }

  function Size(fmt: Formatter, entries: seq<TopEntry>, keys: seq<Bytes>, sortKey: Bytes, n: nat): nat
    requires n <= |entries|
  {
    EncodedLen(Response(fmt, entries[..n], keys, sortKey))
  }

  method AnyHistorical(entries: seq<TopEntry>) returns (r: bool)
    ensures r == HasHistoricalRows(entries)
  {
    for i := 0 to |entries|
      invariant !HasHistoricalRows(entries[..i])
    {
      if entries[i].imported {
        return true;
      }
    }
    assert entries[..|entries|] == entries;
    r := false;
  }

  /** How many of the rows are sent: all that fit, and at least one. */
  predicate IsTrimmed(fmt: Formatter, answered: seq<TopEntry>, keys: seq<Bytes>, sortKey: Bytes, rows: nat) {
    && rows <= |answered| && (answered != [] ==> rows >= 1)
    && (Size(fmt, answered, keys, sortKey, rows) > MAX_PACKET_BYTES ==> rows <= 1)
    && forall k :: rows < k <= |answered| ==> Size(fmt, answered, keys, sortKey, k) > MAX_PACKET_BYTES
  }

  /** The loop that drops rows from the end. */
  method TrimmedResponse(fmt: Formatter, id: Uint32, all: seq<TopEntry>, keys: seq<Bytes>, sortKey: Bytes)
    returns (encoded: Bytes, rows: nat)
    ensures IsTrimmed(fmt, Capped(all), keys, sortKey, rows)
    ensures encoded == Encoded(Ascii("rank"), id, Response(fmt, Capped(all)[..rows], keys, sortKey))
  {
    hide Ascii, Encoded, EncodedLen, Response, HasHistoricalRows;
    var entries := all;
    var historical := AnyHistorical(entries);
    if historical && |entries| > MAX_HISTORICAL_ROWS {
      entries := entries[..MAX_HISTORICAL_ROWS];
    }
    var resp := BuildTopNAndStatsResponse(fmt, entries, keys, sortKey);
    encoded := Encode(Ascii("rank"), id, resp);
    assert Capped(all)[..|entries|] == entries;
    while |encoded| > MAX_PACKET_BYTES && |entries| > 1
      invariant |entries| <= |Capped(all)| && entries == Capped(all)[..|entries|]
      invariant all != [] ==> entries != []
      invariant encoded == Encoded(Ascii("rank"), id, Response(fmt, entries, keys, sortKey))
      invariant forall k :: |entries| < k <= |Capped(all)| ==> Size(fmt, Capped(all), keys, sortKey, k) > MAX_PACKET_BYTES
      decreases |entries|
    {
      assert Capped(all)[..|entries|][..|entries| - 1] == Capped(all)[..|entries| - 1];
      entries := entries[..|entries| - 1];
      resp := BuildTopNAndStatsResponse(fmt, entries, keys, sortKey);
      encoded := Encode(Ascii("rank"), id, resp);
    }
    rows := |entries|;
  }

  lemma {:induction false} LinesOfBoth(a: seq<KV>, b: seq<KV>)
    ensures Lines(a + b) == Lines(a) + Lines(b)
  {
    if a == [] {
      assert a + b == b;
    } else {
      assert (a + b)[1..] == a[1..] + b;
      LinesOfBoth(a[1..], b);
    }
  }

  lemma {:induction false} RowsOfPrefix(fmt: Formatter, entries: seq<TopEntry>, keys: seq<Bytes>, sortKey: Bytes, k: nat, n: nat)
    requires n <= k <= |entries|
    ensures Rows(fmt, entries[..k], keys, sortKey, n) == Rows(fmt, entries, keys, sortKey, n)
  {
    hide Row, Prefix;
    if n == 0 {
    } else {
      RowsOfPrefix(fmt, entries, keys, sortKey, k, n - 1);
    }
  }

  lemma TitleSize(n: nat)
    ensures |Lines(Title(n))| <= |Lines(Title(n + 1))|
  {
    hide Digits, Ascii;
    DigitsGrow(n, n + 1);
    LinesOfTitle(n);
    LinesOfTitle(n + 1);
  }

  lemma LinesOfTitle(n: nat)
    ensures |Lines(Title(n))| == |Ascii("TXN")| + |Ascii("GetTopNAndStats")| + |Ascii("stats.[]")| + |Number(n)| + 4
  {
    hide Ascii, Number;
    assert Title(n)[1..] == [Title(n)[1]] && Title(n)[1..][1..] == [];
    assert Lines(Title(n)[1..]) == Line(Title(n)[1]) + Lines([]);
  }

  /** Every row makes the packet larger. */
  lemma OneRowMore(fmt: Formatter, entries: seq<TopEntry>, keys: seq<Bytes>, sortKey: Bytes, n: nat)
    requires n < |entries|
    ensures Size(fmt, entries, keys, sortKey, n) < Size(fmt, entries, keys, sortKey, n + 1)
  {
    hide Title, Row, Prefix, Lines;
    RowsOfPrefix(fmt, entries, keys, sortKey, n, n);
    RowsOfPrefix(fmt, entries, keys, sortKey, n + 1, n + 1);
    var rows, row := Rows(fmt, entries, keys, sortKey, n), Row(fmt, Prefix(n), entries[n], keys, sortKey);
    LinesOfBoth(Title(n), rows);
    LinesOfBoth(Title(n + 1), rows + row);
    LinesOfBoth(rows, row);
    TitleSize(n);
    RowHasLines(fmt, Prefix(n), entries[n], keys, sortKey);
  }

  lemma RowHasLines(fmt: Formatter, prefix: Bytes, e: TopEntry, keys: seq<Bytes>, sortKey: Bytes)
    ensures |Lines(Row(fmt, prefix, e, keys, sortKey))| > 0
  {
    hide RowStats, Number, Ascii;
    assert |RowHead(fmt, prefix, e, sortKey)| >= 4;
  }

  lemma {:induction false} SizeGrows(fmt: Formatter, entries: seq<TopEntry>, keys: seq<Bytes>, sortKey: Bytes, m: nat, n: nat)
    requires m < n <= |entries|
    ensures Size(fmt, entries, keys, sortKey, m) < Size(fmt, entries, keys, sortKey, n)
  {
    hide Size;
    OneRowMore(fmt, entries, keys, sortKey, n - 1);
    if m == n - 1 {
    } else {
      SizeGrows(fmt, entries, keys, sortKey, m, n - 1);
    }
  }

  /** Dropping rows from the end finds the longest prefix that fits: a number of rows fits exactly when it is no larger. */
  lemma TrimmingIsOptimal(fmt: Formatter, entries: seq<TopEntry>, keys: seq<Bytes>, sortKey: Bytes, rows: nat)
    requires IsTrimmed(fmt, entries, keys, sortKey, rows) && Size(fmt, entries, keys, sortKey, rows) <= MAX_PACKET_BYTES
    ensures forall k :: 0 <= k <= |entries| ==> (Size(fmt, entries, keys, sortKey, k) <= MAX_PACKET_BYTES <==> k <= rows)
  {
    hide Size;
    forall k | 0 <= k < rows ensures Size(fmt, entries, keys, sortKey, k) <= MAX_PACKET_BYTES {
      SizeGrows(fmt, entries, keys, sortKey, k, rows);
    }
  }

  // ----- The request -----

  const NO_NAME := "No Name"

  /** The row shown when the board has none: owner 0, and every stat zero or at its default. */
  function DummyEntry(rank: int, name: Bytes, keys: seq<Bytes>, zeroTime: bool): TopEntry {
    TopEntry(rank, 0, name, map k | k in keys :: if zeroTime then 0.0 else DefaultForKey(k), false, false)
  }

  lemma AsciiJoins(a: string, b: string)
    ensures Ascii(a + b) == Ascii(a) + Ascii(b)
  {
  }

  lemma OneAndZero()
    ensures Number(0) == Ascii("0") && Number(1) == Ascii("1")
  {
    assert Digits(0) == "0" && Digits(1) == "1";
  }

  lemma DummyKey(rest: string, whole: string)
    requires "stats.0" + rest == whole
    ensures Prefix(0) + Ascii(rest) == Ascii(whole)
  {
    hide Ascii, Number;
    OneAndZero();
    AsciiJoins("stats.", "0");
    assert "stats." + "0" == "stats.0";
    AsciiJoins("stats.0", rest);
  }

  function DummyLines(name: Bytes, rank: int, value: Bytes): seq<KV> {
    [KV(Ascii("TXN"), Ascii("GetTopNAndStats")), KV(Ascii("stats.[]"), Ascii("1")),
     KV(Ascii("stats.0.ownerId"), Ascii("0")), KV(Ascii("stats.0.ownerType"), Ascii("1")),
     KV(Ascii("stats.0.owner"), Ascii("0")), KV(Ascii("stats.0.name"), name), KV(Ascii("stats.0.rank"), Number(rank)),
     KV(Ascii("stats.0.value"), value), KV(Ascii("stats.0.text"), value)]
  }

  lemma DummyResponse(fmt: Formatter, e: TopEntry, keys: seq<Bytes>, sortKey: Bytes, value: Bytes)
    requires !e.imported && !e.timeOnly && e.personaId == 0 && value == fmt(SortValue(e, sortKey))
    ensures Response(fmt, [e], keys, sortKey)
         == DummyLines(e.personaName, e.rank, value)
          + Stats(fmt, Ascii("stats.0.stats."), e.values, keys, Number(e.rank), false, |keys|)
          + Stats(fmt, Ascii("stats.0.addStats."), e.values, keys, Number(e.rank), false, |keys|)
  {
    hide Ascii, Number, Stats, Prefix, SortValue, RowHead, Title, DummyLines, Response, Row, RowStats;
    OnlyRow(fmt, e, keys, sortKey);
    DummyHead(fmt, e, sortKey, value);
    DummyGroups();
    var head := RowHead(fmt, Prefix(0), e, sortKey);
    var stats := Stats(fmt, Ascii("stats.0.stats."), e.values, keys, Number(e.rank), false, |keys|);
    var more := Stats(fmt, Ascii("stats.0.addStats."), e.values, keys, Number(e.rank), false, |keys|);
    PlainRowStats(fmt, Prefix(0), e, keys, sortKey);
    Regroup(Title(1), head, stats, more);
  }

  lemma DummyGroups()
    ensures Prefix(0) + Ascii(".stats.") == Ascii("stats.0.stats.")
    ensures Prefix(0) + Ascii(".addStats.") == Ascii("stats.0.addStats.")
  {
    hide Ascii, Prefix;
    DummyKey(".stats.", "stats.0.stats.");
    DummyKey(".addStats.", "stats.0.addStats.");
  }

  lemma PlainRowStats(fmt: Formatter, prefix: Bytes, e: TopEntry, keys: seq<Bytes>, sortKey: Bytes)
    requires !e.imported
    ensures Row(fmt, prefix, e, keys, sortKey)
         == RowHead(fmt, prefix, e, sortKey)
          + (Stats(fmt, prefix + Ascii(".stats."), e.values, keys, Number(e.rank), e.timeOnly, |keys|)
             + Stats(fmt, prefix + Ascii(".addStats."), e.values, keys, Number(e.rank), e.timeOnly, |keys|))
  {
    hide Ascii, Number, Stats, SortValue, RowHead;
  }

  lemma Regroup<T>(a: seq<T>, b: seq<T>, c: seq<T>, d: seq<T>)
    ensures a + (b + (c + d)) == (a + b) + c + d
  {
  }

  lemma DummyHead(fmt: Formatter, e: TopEntry, sortKey: Bytes, value: Bytes)
    requires !e.imported && e.personaId == 0 && value == fmt(SortValue(e, sortKey))
    ensures Title(1) + RowHead(fmt, Prefix(0), e, sortKey) == DummyLines(e.personaName, e.rank, value)
  {
    hide Ascii, Number, Prefix, SortValue;
    OneAndZero();
    DummyKey(".ownerId", "stats.0.ownerId");
    DummyKey(".ownerType", "stats.0.ownerType");
    DummyKey(".owner", "stats.0.owner");
    DummyKey(".name", "stats.0.name");
    DummyKey(".rank", "stats.0.rank");
    DummyKey(".value", "stats.0.value");
    DummyKey(".text", "stats.0.text");
  }

  lemma DummySortValue(rank: int, name: Bytes, keys: seq<Bytes>, zeroTime: bool, sortKey: Bytes)
    requires sortKey == [] || sortKey in keys
    ensures SortValue(DummyEntry(rank, name, keys, zeroTime), sortKey) == if zeroTime then 0.0 else DefaultForKey(sortKey)
  {
  }

  lemma OnlyRow(fmt: Formatter, e: TopEntry, keys: seq<Bytes>, sortKey: Bytes)
    ensures Response(fmt, [e], keys, sortKey) == Title(1) + Row(fmt, Prefix(0), e, keys, sortKey)
  {
    hide Row, Prefix, Title;
    assert Rows(fmt, [e], keys, sortKey, 0) == [];
  }

  method DummyValues(keys: seq<Bytes>, zeroTime: bool) returns (dummy: map<Bytes, real>)
    ensures dummy == map k | k in keys :: if zeroTime then 0.0 else DefaultForKey(k)
  {
    dummy := map[];
    for i := 0 to |keys|
      invariant dummy == map k | k in keys[..i] :: if zeroTime then 0.0 else DefaultForKey(k)
    {
      assert keys[..i + 1] == keys[..i] + [keys[i]];
      dummy := dummy[keys[i] := DefaultForKey(keys[i])];
      if zeroTime {
        dummy := dummy[keys[i] := 0.0];
      }
    }
    assert keys[..|keys|] == keys;
  }

  /** The dummy response; with the sort key among the keys, it is the response to a board that holds just the dummy row. */
  method BuildDummyTopNAndStatsResponse(fmt: Formatter, keys: seq<Bytes>, sortKey: Bytes, rank: int, cutoff: bool) returns (resp: seq<KV>)
    ensures var name := if cutoff then [] else Ascii(NO_NAME);
            var e := DummyEntry(rank, name, keys, cutoff);
      && resp == DummyLines(name, rank, fmt(if cutoff then 0.0 else DefaultForKey(sortKey)))
                 + Stats(fmt, Ascii("stats.0.stats."), e.values, keys, Number(rank), false, |keys|)
                 + Stats(fmt, Ascii("stats.0.addStats."), e.values, keys, Number(rank), false, |keys|)
      && (sortKey == [] || sortKey in keys ==> resp == Response(fmt, [e], keys, sortKey))
  {
    hide Ascii, Number, Stats, SortValue, Response, DefaultForKey;
    var value := DefaultForKey(sortKey);
    if cutoff {
      value := 0.0;
    }
    var name := Ascii(NO_NAME);
    if cutoff {
      name := [];
    }
    resp := DummyLines(name, rank, fmt(value));
    var dummy := DummyValues(keys, cutoff);
    ghost var e := DummyEntry(rank, name, keys, cutoff);
    if sortKey == [] || sortKey in keys {
      DummySortValue(rank, name, keys, cutoff, sortKey);
      DummyResponse(fmt, e, keys, sortKey, fmt(value));
    }
    resp := EmitStats(resp, fmt, Ascii("stats.0.stats."), dummy, keys, Number(rank), false);
    resp := EmitStats(resp, fmt, Ascii("stats.0.addStats."), dummy, keys, Number(rank), false);
  }

  /** A rank that was not given is rank one. */
  function RequestedRank(n: int): int { if n == 0 then 1 else n }

  /** The rows that answer a request, from the rows the board has in its range: dummies for two ranges without rows. */
  function AnsweredRows(entries: seq<TopEntry>, keys: seq<Bytes>, minRank: int, maxRank: int): seq<TopEntry> {
    if entries == [] && minRank >= 500 then [DummyEntry(minRank, [], keys, true)]
    else if entries == [] && minRank == 1 && maxRank == 1 then [DummyEntry(1, Ascii(NO_NAME), keys, false)]
    else Capped(entries)
  }

  method HandleGetTopNAndStats(fmt: Formatter, id: Uint32, sortKey: Bytes, requested: seq<Bytes>, minRankParam: int, maxRankParam: int,
                               entries: seq<TopEntry>)
    returns (encoded: Bytes, rows: nat)
    ensures var keys := BoardKeys(sortKey, requested);
            var answered := AnsweredRows(entries, keys, RequestedRank(minRankParam), RequestedRank(maxRankParam));
            && IsTrimmed(fmt, answered, keys, sortKey, rows)
            && encoded == Encoded(Ascii("rank"), id, Response(fmt, answered[..rows], keys, sortKey))
  {
    hide Ascii, Encoded, EncodedLen, Response, HasHistoricalRows, BoardKeys, DummyEntry;
    var minRank, maxRank := minRankParam, maxRankParam;
    if minRank == 0 {
      minRank := 1;
    }
    if maxRank == 0 {
      maxRank := 1;
    }
    var keys := LeaderboardKeys(sortKey, requested);
    BoardKeysAreTheKeys(sortKey, requested, sortKey);
    if |entries| == 0 {
      if minRank >= 500 {
        var resp := BuildDummyTopNAndStatsResponse(fmt, keys, sortKey, minRank, true);
        encoded := Encode(Ascii("rank"), id, resp);
        ghost var one := [DummyEntry(minRank, [], keys, true)];
        assert one[..1] == one;
        return encoded, 1;
      }
      if minRank == 1 && maxRank == 1 {
        var resp := BuildDummyTopNAndStatsResponse(fmt, keys, sortKey, minRank, false);
        encoded := Encode(Ascii("rank"), id, resp);
        ghost var one := [DummyEntry(1, Ascii(NO_NAME), keys, false)];
        assert one[..1] == one;
        return encoded, 1;
      }
    }
    encoded, rows := TrimmedResponse(fmt, id, entries, keys, sortKey);
  }
}
