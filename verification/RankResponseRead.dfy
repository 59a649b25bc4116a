/**
 What the game reads from the leaderboard response (server/fesl/rank.go, server/fesl/packet.go):
 looked up by key, the lines give back every row and the number of rows.
 */
module RankResponseRead {
  import opened Decimals
  import opened FeslPacket
  import opened GoStrings
  import opened Octets
  import opened RankResponse
  import opened RankRowRead

  lemma RowLacks(fmt: Formatter, i: nat, j: nat, e: TopEntry, keys: seq<Bytes>, sortKey: Bytes, key: Bytes)
    requires i != j && Prefix(i) + [DOT] <= key
    ensures Lacks(Row(fmt, Prefix(j), e, keys, sortKey), key)
  {
    hide Row, Number, Ascii;
    RowIsUnder(fmt, Prefix(j), e, keys, sortKey);
    if Prefix(j) + [DOT] <= key {
      IndicesDiffer(Ascii("stats."), i, j, key);
    }
  }

  /** Where an item of row i stands. */
  function ItemKey(i: nat, it: Item): Bytes { Prefix(i) + ItemText(it) }

  /** What the first n rows say about an item of row i. */
  function ItemAt(fmt: Formatter, entries: seq<TopEntry>, keys: seq<Bytes>, sortKey: Bytes, n: nat, i: nat, it: Item): Option<Bytes>
    requires n <= |entries|
  {
    if i < n then ItemOf(fmt, entries[i], keys, sortKey, it) else None
  }

  /** Among the first n rows, row i's items are written just by row i. */
  lemma {:induction false} RowsGive(fmt: Formatter, entries: seq<TopEntry>, keys: seq<Bytes>, sortKey: Bytes, n: nat, i: nat, it: Item)
    requires n <= |entries|
    ensures Gives(Rows(fmt, entries, keys, sortKey, n), ItemKey(i, it), ItemAt(fmt, entries, keys, sortKey, n, i, it))
  {
    hide Row, Prefix, ItemOf, ItemText, Writes, Lacks;
    if n == 0 {
      LacksNothing(ItemKey(i, it));
    } else {
      var rows, row := Rows(fmt, entries, keys, sortKey, n - 1), Row(fmt, Prefix(n - 1), entries[n - 1], keys, sortKey);
      var before := ItemAt(fmt, entries, keys, sortKey, n - 1, i, it);
      RowsGive(fmt, entries, keys, sortKey, n - 1, i, it);
      if i == n - 1 {
        RowGives(fmt, Prefix(i), entries[i], keys, sortKey, it);
        BothGive(rows, row, ItemKey(i, it), before, ItemOf(fmt, entries[i], keys, sortKey, it));
      } else {
        ItemKeyIsInRow(i, it);
        RowLacks(fmt, i, n - 1, entries[n - 1], keys, sortKey, ItemKey(i, it));
        BothGive(rows, row, ItemKey(i, it), before, None);
      }
    }
  }

  lemma ItemKeyIsInRow(i: nat, it: Item)
    ensures Prefix(i) + [DOT] <= ItemKey(i, it)
  {
    hide Prefix, ItemText;
    ItemTextIsDotted(it);
  }

  lemma LacksNothing(key: Bytes)
    ensures Lacks([], key)
  {
  }

  lemma {:induction false} RowsLackCount(fmt: Formatter, entries: seq<TopEntry>, keys: seq<Bytes>, sortKey: Bytes, n: nat)
    requires n <= |entries|
    ensures Lacks(Rows(fmt, entries, keys, sortKey, n), Ascii("stats.[]"))
  {
    hide Row, Prefix;
    if n == 0 {
    } else {
      RowsLackCount(fmt, entries, keys, sortKey, n - 1);
      RowIsUnder(fmt, Prefix(n - 1), entries[n - 1], keys, sortKey);
      CountIsNoRow(n - 1);
    }
  }

  lemma CountIsNoRow(i: nat)
    ensures !(Prefix(i) + [DOT] <= Ascii("stats.[]"))
  {
    assert IsDigit(Itoa(i)[0]);
    assert (Prefix(i) + [DOT])[6] == Number(i)[0];
    assert Ascii("stats.[]")[6] == 91;
  }

  lemma TitleLacksItems(count: int, i: nat, it: Item)
    ensures Lacks(Title(count), ItemKey(i, it))
  {
    hide Number, ItemKey;
    CountIsNoRow(i);
    ItemKeyIsInRow(i, it);
  }

  lemma TitleWritesCount(count: int)
    ensures Writes(Title(count), Ascii("stats.[]"), Number(count))
  {
    hide Number;
  }

  lemma TitleWritesTxn(count: int)
    ensures Writes(Title(count), Ascii("TXN"), Ascii("GetTopNAndStats"))
  {
    hide Number;
    assert Ascii("TXN")[0] == 84 && Ascii("stats.[]")[0] == 115;
  }

  lemma {:induction false} RowsLackTxn(fmt: Formatter, entries: seq<TopEntry>, keys: seq<Bytes>, sortKey: Bytes, n: nat)
    requires n <= |entries|
    ensures Lacks(Rows(fmt, entries, keys, sortKey, n), Ascii("TXN"))
  {
    hide Row;
    if n == 0 {
      LacksNothing(Ascii("TXN"));
    } else {
      RowsLackTxn(fmt, entries, keys, sortKey, n - 1);
      RowIsUnder(fmt, Prefix(n - 1), entries[n - 1], keys, sortKey);
      assert Prefix(n - 1)[0] == 115 && Ascii("TXN")[0] == 84;
    }
  }

  lemma GivenIsRead(params: seq<KV>, key: Bytes, o: Option<Bytes>)
    requires Gives(params, key, o)
    ensures Read(ParamsOf(params), key) == o
  {
    hide ParamsOf, Writes, Lacks;
    match o
    case None => LackedIsNotRead(params, key);
    case Some(value) => WrittenIsRead(params, key, value);
  }

  function Read(p: map<Bytes, Bytes>, key: Bytes): Option<Bytes> { if key in p then Some(p[key]) else None }

  /** Looked up by key, the lines give the number of rows and every item of every row, and nothing for other rows. */
  lemma RowsReadBack(fmt: Formatter, entries: seq<TopEntry>, keys: seq<Bytes>, sortKey: Bytes, i: nat, it: Item)
    ensures var p := ParamsOf(Response(fmt, entries, keys, sortKey));
      && Read(p, Ascii("TXN")) == Some(Ascii("GetTopNAndStats"))
      && Read(p, Ascii("stats.[]")) == Some(Number(|entries|))
      && Read(p, ItemKey(i, it)) == ItemAt(fmt, entries, keys, sortKey, |entries|, i, it)
  {
    hide Ascii, Number, Title, ItemKey, ItemAt, ParamsOf, Writes, Lacks;
    var n := |entries|;
    var rows := Rows(fmt, entries, keys, sortKey, n);
    TitleWritesCount(n);
    RowsLackCount(fmt, entries, keys, sortKey, n);
    BothGive(Title(n), rows, Ascii("stats.[]"), Some(Number(n)), None);
    GivenIsRead(Title(n) + rows, Ascii("stats.[]"), Some(Number(n)));
    TitleWritesTxn(n);
    RowsLackTxn(fmt, entries, keys, sortKey, n);
    BothGive(Title(n), rows, Ascii("TXN"), Some(Ascii("GetTopNAndStats")), None);
    GivenIsRead(Title(n) + rows, Ascii("TXN"), Some(Ascii("GetTopNAndStats")));
    TitleLacksItems(n, i, it);
    RowsGive(fmt, entries, keys, sortKey, n, i, it);
    BothGive(Title(n), rows, ItemKey(i, it), None, ItemAt(fmt, entries, keys, sortKey, n, i, it));
    GivenIsRead(Title(n) + rows, ItemKey(i, it), ItemAt(fmt, entries, keys, sortKey, n, i, it));
  }

  // ----- Over the wire -----

  predicate CleanValue(value: Bytes) {
    NEWLINE !in value && (value == [] || value[|value| - 1] != NUL)
  }

  predicate CleanKey(key: Bytes) { NEWLINE !in key && EQUALS !in key }

  /** Names and keys without newlines and trailing NULs, and a formatter that writes none. */
  ghost predicate CleanBoard(fmt: Formatter, entries: seq<TopEntry>, keys: seq<Bytes>) {
    && (forall x :: CleanValue(fmt(x)))
    && (forall i :: 0 <= i < |entries| ==> CleanValue(entries[i].personaName))
    && (forall i :: 0 <= i < |keys| ==> CleanValue(keys[i]))
  }

  ghost predicate AllTransmissible(params: seq<KV>) {
    forall kv :: kv in params ==> TransmissibleParam(kv)
  }

  lemma NumberIsClean(n: int)
    ensures CleanKey(Number(n)) && CleanValue(Number(n))
  {
    hide Digits, Ascii, CleanKey, CleanValue;
    TextIsClean(Itoa(n));
  }

  predicate PlainText(text: string) {
    text != "" && forall i :: 0 <= i < |text| ==> ' ' < text[i] <= 'z' && text[i] != '='
  }

  lemma TextIsClean(text: string)
    requires PlainText(text)
    ensures CleanKey(Ascii(text)) && CleanValue(Ascii(text))
  {
  }

  lemma JoinedIsClean(a: Bytes, b: Bytes)
    requires CleanKey(a) && CleanKey(b)
    ensures CleanKey(a + b)
  {
  }

  lemma LabelIsClean(prefix: Bytes, text: string)
    requires CleanKey(prefix) && PlainText(text)
    ensures CleanKey(prefix + Ascii(text))
  {
    hide Ascii, CleanKey;
    TextIsClean(text);
    JoinedIsClean(prefix, Ascii(text));
  }

  lemma StatLinesAreClean(fmt: Formatter, prefix: Bytes, values: map<Bytes, real>, key: Bytes, rank: Bytes, onlyTime: bool)
    requires (forall x :: CleanValue(fmt(x))) && CleanKey(prefix) && CleanValue(key) && CleanValue(rank)
    ensures AllTransmissible(StatLines(fmt, prefix, values, key, rank, onlyTime))
    ensures AllTransmissible(SparseStatLines(fmt, prefix, values, key))
  {
    hide Ascii, ValueFor, IsTimeKey;
    LabelIsClean(prefix, ".key");
    LabelIsClean(prefix, ".value");
    LabelIsClean(prefix, ".text");
    LabelIsClean(prefix, ".rank");
  }

  lemma CountIsClean(prefix: Bytes, n: int)
    requires CleanKey(prefix)
    ensures AllTransmissible([KV(prefix + Ascii("[]"), Number(n))])
  {
    hide Ascii, Number;
    NumberIsClean(n);
    LabelIsClean(prefix, "[]");
  }

  lemma {:induction false} StatsAreClean(fmt: Formatter, prefix: Bytes, values: map<Bytes, real>, keys: seq<Bytes>, rank: Bytes,
                                         onlyTime: bool, n: nat)
    requires n <= |keys| && (forall x :: CleanValue(fmt(x))) && (forall i :: 0 <= i < |keys| ==> CleanValue(keys[i]))
    requires CleanKey(prefix) && CleanValue(rank)
    ensures AllTransmissible(Stats(fmt, prefix, values, keys, rank, onlyTime, n))
  {
    hide Number, Ascii, StatLines, CleanKey, CleanValue, TransmissibleParam;
    if n == 0 {
      CountIsClean(prefix, |keys|);
    } else {
      StatsAreClean(fmt, prefix, values, keys, rank, onlyTime, n - 1);
      NumberIsClean(n - 1);
      JoinedIsClean(prefix, Number(n - 1));
      StatLinesAreClean(fmt, prefix + Number(n - 1), values, keys[n - 1], rank, onlyTime);
    }
  }

  lemma {:induction false} SparseStatsAreClean(fmt: Formatter, prefix: Bytes, values: map<Bytes, real>, keys: seq<Bytes>, sortKey: Bytes,
                                               n: nat)
    requires n <= |keys| && (forall x :: CleanValue(fmt(x))) && (forall i :: 0 <= i < |keys| ==> CleanValue(keys[i]))
    requires CleanKey(prefix)
    ensures AllTransmissible(SparseStats(fmt, prefix, values, keys, sortKey, n))
  {
    hide Number, Ascii, SparseStatLines, CleanKey, CleanValue, TransmissibleParam;
    if n == 0 {
      CountIsClean(prefix, |keys|);
    } else {
      SparseStatsAreClean(fmt, prefix, values, keys, sortKey, n - 1);
      NumberIsClean(n - 1);
      JoinedIsClean(prefix, Number(n - 1));
      StatLinesAreClean(fmt, prefix + Number(n - 1), values, keys[n - 1], Number(n - 1), false);
    }
  }

  lemma HeadIsClean(fmt: Formatter, prefix: Bytes, e: TopEntry, sortKey: Bytes)
    requires (forall x :: CleanValue(fmt(x))) && CleanValue(e.personaName) && CleanKey(prefix)
    ensures AllTransmissible(RowHead(fmt, prefix, e, sortKey))
  {
    hide Ascii, Number, SortValue;
    NumberIsClean(e.personaId);
    NumberIsClean(e.rank);
    TextIsClean("1");
    LabelIsClean(prefix, ".ownerId");
    LabelIsClean(prefix, ".ownerType");
    LabelIsClean(prefix, ".owner");
    LabelIsClean(prefix, ".name");
    LabelIsClean(prefix, ".rank");
    LabelIsClean(prefix, ".value");
    LabelIsClean(prefix, ".text");
  }

  lemma RowIsClean(fmt: Formatter, prefix: Bytes, e: TopEntry, keys: seq<Bytes>, sortKey: Bytes)
    requires CleanBoard(fmt, [e], keys) && CleanKey(prefix)
    ensures AllTransmissible(Row(fmt, prefix, e, keys, sortKey))
  {
    hide Ascii, Number, SortValue, RowHead, Stats, SparseStats, CleanKey, CleanValue, TransmissibleParam;
    assert CleanValue([e][0].personaName);
    HeadIsClean(fmt, prefix, e, sortKey);
    NumberIsClean(e.rank);
    LabelIsClean(prefix, ".stats.");
    LabelIsClean(prefix, ".addStats.");
    SparseStatsAreClean(fmt, prefix + Ascii(".addStats."), e.values, keys, sortKey, |keys|);
    StatsAreClean(fmt, prefix + Ascii(".stats."), e.values, keys, Number(e.rank), e.timeOnly, |keys|);
    StatsAreClean(fmt, prefix + Ascii(".addStats."), e.values, keys, Number(e.rank), e.timeOnly, |keys|);
  }

  lemma {:induction false} RowsAreClean(fmt: Formatter, entries: seq<TopEntry>, keys: seq<Bytes>, sortKey: Bytes, n: nat)
    requires n <= |entries| && CleanBoard(fmt, entries, keys)
    ensures AllTransmissible(Rows(fmt, entries, keys, sortKey, n))
  {
    hide Ascii, Number, Row, CleanKey, CleanValue, TransmissibleParam;
    if n == 0 {
    } else {
      RowsAreClean(fmt, entries, keys, sortKey, n - 1);
      NumberIsClean(n - 1);
      TextIsClean("stats.");
      JoinedIsClean(Ascii("stats."), Number(n - 1));
      RowIsClean(fmt, Prefix(n - 1), entries[n - 1], keys, sortKey);
    }
  }

  lemma TitleIsClean(n: int)
    ensures AllTransmissible(Title(n))
  {
    hide Ascii, Number;
    TextIsClean("TXN");
    TextIsClean("GetTopNAndStats");
    TextIsClean("stats.[]");
    NumberIsClean(n);
  }

  lemma ResponseIsClean(fmt: Formatter, entries: seq<TopEntry>, keys: seq<Bytes>, sortKey: Bytes)
    requires CleanBoard(fmt, entries, keys)
    ensures AllTransmissible(Response(fmt, entries, keys, sortKey))
  {
    hide Title, Rows, CleanBoard, TransmissibleParam;
    TitleIsClean(|entries|);
    RowsAreClean(fmt, entries, keys, sortKey, |entries|);
  }

  /** The game, decoding the packet, finds exactly the rows that were sent: their number and each row's items. */
  lemma GameReadsTheRows(fmt: Formatter, id: Uint32, entries: seq<TopEntry>, keys: seq<Bytes>, sortKey: Bytes, i: nat, it: Item)
    requires CleanBoard(fmt, entries, keys) && EncodedLen(Response(fmt, entries, keys, sortKey)) < TWO32
    ensures var d := Decoding(Encoded(Ascii("rank"), id, Response(fmt, entries, keys, sortKey)));
      && d.Complete? && d.rest == [] && d.item.typ == Ascii("rank") && d.item.id == id
      && var p := ParamsOf(d.item.params);
      && Read(p, Ascii("stats.[]")) == Some(Number(|entries|))
      && Read(p, ItemKey(i, it)) == ItemAt(fmt, entries, keys, sortKey, |entries|, i, it)
  {
    hide Decoding, Encoded, EncodedLen, Response, ItemKey, ItemAt, ParamsOf, CleanBoard, Number, TransmissibleParam;
    var packet := Packet(Ascii("rank"), id, Response(fmt, entries, keys, sortKey));
    ResponseIsClean(fmt, entries, keys, sortKey);
    assert Transmissible(packet);
    RoundTripIff(packet);
    RowsReadBack(fmt, entries, keys, sortKey, i, it);
  }
}
