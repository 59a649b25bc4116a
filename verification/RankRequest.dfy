/**
 The leaderboard request from board to packet (server/storage/storage.go, server/fesl/rank.go):
 the page of the board, the values attached to its rows, and what the game reads of it.
 */
module RankRequest {
  import Leaderboard
  import LeaderboardPages
  import opened Decimals
  import opened FeslPacket
  import opened GoStrings
  import opened Octets
  import opened RankInput
  import opened RankResponse
  import opened RankResponseRead
  import opened RankRowRead

  /** Names as octets, and the statistics asked for along with the sort key. */
  datatype Source = Source(octets: string -> Bytes, stats: int -> map<Bytes, real>)

  /** The further statistics of a row: none for a persona known only by a linked time. */
  function Extra(row: Leaderboard.Row, src: Source): map<Bytes, real> {
    if row.timeOnly && !row.imported then map[] else src.stats(row.owner)
  }

  /** A row of the page as it is answered; the board's value stands for the sort key. */
  function TopEntryOf(e: LeaderboardPages.Entry, key: Bytes, src: Source): TopEntry {
    TopEntry(e.rank, e.row.owner, if e.row.imported then Sanitized(src.octets(e.row.name)) else src.octets(e.row.name),
             Extra(e.row, src)[key := e.row.value], e.row.imported, e.row.timeOnly)
  }

  function TopEntries(page: seq<LeaderboardPages.Entry>, key: Bytes, src: Source): (r: seq<TopEntry>)
    ensures |r| == |page|
  {
    seq(|page|, i requires 0 <= i < |page| => TopEntryOf(page[i], key, src))
  }

  /** The rows that answer a request. */
  function Answer(board: seq<Leaderboard.Row>, key: Bytes, requested: seq<Bytes>, minRank: int, maxRank: int, src: Source): seq<TopEntry> {
    AnsweredRows(TopEntries(LeaderboardPages.PageOf(board, minRank, maxRank), key, src), BoardKeys(key, requested), minRank, maxRank)
  }

  /** The values of an answered row: the board's under the sort key, and further ones unless it is known by a linked time only. */
  lemma AttachedValues(e: LeaderboardPages.Entry, key: Bytes, src: Source, k: Bytes)
    ensures var values := TopEntryOf(e, key, src).values;
      && key in values && values[key] == e.row.value
      && (!e.row.imported && e.row.timeOnly ==> values.Keys == {key})
      && (k != key && (e.row.imported || !e.row.timeOnly) ==>
            && (k in values <==> k in src.stats(e.row.owner))
            && (k in values ==> values[k] == src.stats(e.row.owner)[k]))
  {
  }

  method MergeValues(key: Bytes, value: real, extra: map<Bytes, real>) returns (values: map<Bytes, real>)
    ensures values == extra[key := value]
  {
    values := map[key := value];
    var left := extra.Keys;
    while left != {}
      invariant left <= extra.Keys
      invariant key in values && values[key] == value
      invariant forall k :: k != key ==> (k in values <==> k in extra && k !in left)
      invariant forall k :: k != key && k in values ==> values[k] == extra[k]
      decreases |left|
    {
      var k :| k in left;
      left := left - {k};
      if k == key {
        continue;
      }
      values := values[k := extra[k]];
    }
  }

  method TopN(board: seq<Leaderboard.Row>, key: Bytes, minRank: int, maxRank: int, src: Source) returns (entries: seq<TopEntry>)
    ensures entries == TopEntries(LeaderboardPages.PageOf(board, minRank, maxRank), key, src)
  {
    hide LeaderboardPages.PageOf, TopEntryOf;
    var page := LeaderboardPages.TopN(board, minRank, maxRank);
    entries := [];
    for i := 0 to |page|
      invariant |entries| == i && forall j :: 0 <= j < i ==> entries[j] == TopEntryOf(page[j], key, src)
    {
      var entry := ReadEntry(page[i], key, src);
      entries := entries + [entry];
    }
  }

  /** The body of the loop over the rows. */
  method ReadEntry(e: LeaderboardPages.Entry, key: Bytes, src: Source) returns (entry: TopEntry)
    ensures entry == TopEntryOf(e, key, src)
  {
    hide Sanitized;
    var name := src.octets(e.row.name);
    if e.row.imported {
      name := SanitizeHistoricalName(name);
    }
    var extra := map[];
    if e.row.imported || !e.row.timeOnly {
      extra := src.stats(e.row.owner);
    }
    var values := MergeValues(key, e.row.value, extra);
    entry := TopEntry(e.rank, e.row.owner, name, values, e.row.imported, e.row.timeOnly);
  }

  // ----- The whole request -----

  const KEY := Ascii("key")
  const KEYS := Ascii("keys")
  const MIN_RANK := Ascii("minRank")
  const MAX_RANK := Ascii("maxRank")

  /** What a request asks for. */
  datatype Asked = Asked(key: Bytes, requested: seq<Bytes>, minRank: int, maxRank: int)

  function AskedIn(p: map<Bytes, Bytes>): Asked
    requires KeyCount(p, KEYS) >= 0
  {
    Asked(Get(p, KEY), KeyList(p, KEYS, KeyCount(p, KEYS)),
          RequestedRank(NumberParam(p, MIN_RANK)), RequestedRank(NumberParam(p, MAX_RANK)))
  }

  function KeysOf(asked: Asked): seq<Bytes> { BoardKeys(asked.key, asked.requested) }

  function AnswerTo(asked: Asked, board: seq<Leaderboard.Row>, src: Source): seq<TopEntry> {
    Answer(board, asked.key, asked.requested, asked.minRank, asked.maxRank, src)
  }

  /** The packet is the trimmed answer, with so many rows. */
  predicate IsServed(fmt: Formatter, id: Uint32, asked: Asked, board: seq<Leaderboard.Row>, src: Source, encoded: Bytes, rows: nat) {
    && IsTrimmed(fmt, AnswerTo(asked, board, src), KeysOf(asked), asked.key, rows)
    && encoded == Encoded(Ascii("rank"), id, Response(fmt, AnswerTo(asked, board, src)[..rows], KeysOf(asked), asked.key))
  }

  /** The whole request, from its packet to the answer's; a negative count of keys ends in a failed allocation. */
  method Serve(fmt: Formatter, request: Packet, board: seq<Leaderboard.Row>, src: Source)
    returns (encoded: Bytes, rows: nat, failed: bool)
    ensures failed <==> KeyCount(ParamsOf(request.params), KEYS) < 0
    ensures !failed ==> IsServed(fmt, request.id, AskedIn(ParamsOf(request.params)), board, src, encoded, rows)
  {
    hide ParamsOf, NumberParam, Get, KeyList, Answer, Encoded, Response, IsTrimmed, BoardKeys;
    var p := ParamsMap(request.params);
    var key := Get(p, KEY);
    var minRank, maxRank := NumberParam(p, MIN_RANK), NumberParam(p, MAX_RANK);
    var requested := ParseKeyList(p, KEYS);
    if requested.None? {
      return [], 0, true;
    }
    encoded, rows := Respond(fmt, request.id, board, key, requested.value, minRank, maxRank, src);
    failed := false;
  }

  method Respond(fmt: Formatter, id: Uint32, board: seq<Leaderboard.Row>, key: Bytes, requested: seq<Bytes>,
                 minRankParam: int, maxRankParam: int, src: Source)
    returns (encoded: Bytes, rows: nat)
    ensures IsServed(fmt, id, Asked(key, requested, RequestedRank(minRankParam), RequestedRank(maxRankParam)), board, src, encoded, rows)
  {
    hide IsTrimmed, Encoded, Response, BoardKeys, AnsweredRows, TopEntries;
    var entries := TopN(board, key, RequestedRank(minRankParam), RequestedRank(maxRankParam), src);
    encoded, rows := HandleGetTopNAndStats(fmt, id, key, requested, minRankParam, maxRankParam, entries);
  }

  /** A page is a run of the board's rows with their ranks. */
  lemma PageRow(board: seq<Leaderboard.Row>, minRank: int, maxRank: int, i: nat)
    requires i < |LeaderboardPages.PageOf(board, minRank, maxRank)|
    ensures var from := LeaderboardPages.Max(minRank, 1);
      from + i <= |board| && LeaderboardPages.PageOf(board, minRank, maxRank)[i] == LeaderboardPages.Entry(from + i, board[from - 1 + i])
  {
  }

  /** The answer to a page with rows starts with the page's rows. */
  lemma AnswerRow(board: seq<Leaderboard.Row>, key: Bytes, requested: seq<Bytes>, minRank: int, maxRank: int, src: Source, i: nat)
    requires LeaderboardPages.PageOf(board, minRank, maxRank) != []
    requires i < |Answer(board, key, requested, minRank, maxRank, src)|
    ensures var from := LeaderboardPages.Max(minRank, 1);
      && from + i <= |board|
      && Answer(board, key, requested, minRank, maxRank, src)[i]
         == TopEntryOf(LeaderboardPages.Entry(from + i, board[from - 1 + i]), key, src)
  {
    hide LeaderboardPages.PageOf, BoardKeys, TopEntryOf, HasHistoricalRows, DummyEntry;
    PageRow(board, minRank, maxRank, i);
  }

  // ----- What the parameters ask for -----

  /** A printed number is read as that number. */
  lemma NumberIsRead(p: map<Bytes, Bytes>, key: Bytes, n: int)
    requires key in p && p[key] == Number(n) && MIN_INT64 <= n <= MAX_INT64
    ensures NumberParam(p, key) == n
  {
    hide Digits, Atoi;
    var text := Itoa(n);
    assert forall i :: 0 <= i < |text| ==> IsDigit(text[i]) || text[i] == '-';
    forall i | 0 <= i < |text| ensures TextOf(Number(n))[i] == text[i] {
      assert text[i] as int < 0x100;
    }
    assert TextOf(Number(n)) == text;
    AtoiOfItoa(n);
  }

  lemma NothingIsZero(p: map<Bytes, Bytes>, key: Bytes)
    requires key !in p
    ensures NumberParam(p, key) == 0
  {
    assert TextOf([]) == "";
  }

  /** The first rank comes from `minRank`, the last from `maxRank`, the sort key from `key`; a missing rank is one. */
  lemma ParametersAskFor(p: map<Bytes, Bytes>, a: int, b: int)
    requires KeyCount(p, Ascii("keys")) >= 0 && 0 < a <= MAX_INT64 && 0 < b <= MAX_INT64
    ensures Ascii("minRank") in p && p[Ascii("minRank")] == Number(a) ==> AskedIn(p).minRank == a
    ensures Ascii("maxRank") in p && p[Ascii("maxRank")] == Number(b) ==> AskedIn(p).maxRank == b
    ensures Ascii("minRank") !in p ==> AskedIn(p).minRank == 1
    ensures Ascii("maxRank") !in p ==> AskedIn(p).maxRank == 1
    ensures Ascii("key") in p ==> AskedIn(p).key == p[Ascii("key")]
  {
    hide Ascii, Number, NumberParam, KeyList;
    if Ascii("minRank") !in p {
      NothingIsZero(p, Ascii("minRank"));
    } else if p[Ascii("minRank")] == Number(a) {
      NumberIsRead(p, Ascii("minRank"), a);
    }
    if Ascii("maxRank") !in p {
      NothingIsZero(p, Ascii("maxRank"));
    } else if p[Ascii("maxRank")] == Number(b) {
      NumberIsRead(p, Ascii("maxRank"), b);
    }
  }

  /** The keys written as `keys.0`, `keys.1` and so on, with their count, are the keys asked for. */
  lemma ParametersAskForKeys(p: map<Bytes, Bytes>, keys: seq<Bytes>)
    requires |keys| <= MAX_INT64 && Ascii("keys.[]") in p && p[Ascii("keys.[]")] == Number(|keys|)
    requires forall i :: 0 <= i < |keys| ==>
      var key := Ascii("keys.") + Number(i); key in p && p[key] == keys[i] && keys[i] != []
    ensures KeyCount(p, Ascii("keys")) == |keys| && AskedIn(p).requested == keys
  {
    hide Ascii, Number, NumberParam;
    AsciiJoins("keys", ".[]");
    AsciiJoins("keys", ".");
    Joined();
    NumberIsRead(p, Ascii("keys.[]"), |keys|);
    OneDot();
    ListedKeys(p, keys, |keys|);
    assert keys[..|keys|] == keys;
  }

  lemma Joined()
    ensures "keys" + ".[]" == "keys.[]" && "keys" + "." == "keys."
  {
  }

  lemma OneDot()
    ensures Ascii(".") == [RankInput.DOT]
  {
  }

  lemma {:induction false} ListedKeys(p: map<Bytes, Bytes>, keys: seq<Bytes>, n: nat)
    requires n <= |keys| && Ascii("keys.") == Ascii("keys") + [RankInput.DOT]
    requires forall i :: 0 <= i < |keys| ==>
      var key := Ascii("keys.") + Number(i); key in p && p[key] == keys[i] && keys[i] != []
    ensures KeyList(p, Ascii("keys"), n) == keys[..n]
  {
    hide Ascii, Number;
    if n == 0 {
      assert keys[..0] == [];
    } else {
      ListedKeys(p, keys, n - 1);
      assert KeyAt(p, Ascii("keys"), n - 1) == keys[n - 1];
      assert keys[..n] == keys[..n - 1] + [keys[n - 1]];
    }
  }

  // ----- Everything that is sent is clean -----

  /** Live names on the board have passed validation. */
  ghost predicate NamesAreValid(board: seq<Leaderboard.Row>, src: Source, maxLen: int) {
    forall i :: 0 <= i < |board| && !board[i].imported ==> IsPersonaName(src.octets(board[i].name), maxLen)
  }

  lemma AskedKeysAreClean(data: Bytes)
    requires Decoding(data).Complete? && KeyCount(ParamsOf(Decoding(data).item.params), KEYS) >= 0
    ensures forall k :: k in KeysOf(AskedIn(ParamsOf(Decoding(data).item.params))) ==> CleanValue(k)
  {
    hide Decoding, ParamsOf, CleanValue, NumberParam, KeyList, BoardKeys, Number, Get;
    var p := ParamsOf(Decoding(data).item.params);
    var asked := AskedIn(p);
    forall k | k in KeysOf(asked) ensures CleanValue(k) {
      BoardKeysAreTheKeys(asked.key, asked.requested, k);
      if k == asked.key {
        DecodedParamIsClean(data, KEY);
      } else {
        KeyListMembers(p, KEYS, KeyCount(p, KEYS), k);
        var i: nat :| i < KeyCount(p, KEYS) && KeyAt(p, KEYS, i) == k;
        DecodedParamIsClean(data, KEYS + [RankInput.DOT] + Number(i));
      }
    }
  }

  lemma AnswerNamesAreClean(asked: Asked, board: seq<Leaderboard.Row>, src: Source, maxLen: int, i: nat)
    requires NamesAreValid(board, src, maxLen) && i < |AnswerTo(asked, board, src)|
    ensures CleanValue(AnswerTo(asked, board, src)[i].personaName)
  {
    hide LeaderboardPages.PageOf, BoardKeys, HasHistoricalRows, CleanValue, Sanitized, IsPersonaName, Extra;
    var page := LeaderboardPages.PageOf(board, asked.minRank, asked.maxRank);
    if page == [] {
      DummyNamesAreClean();
    } else {
      AnswerRow(board, asked.key, asked.requested, asked.minRank, asked.maxRank, src, i);
      var row := board[LeaderboardPages.Max(asked.minRank, 1) - 1 + i];
      if row.imported {
        SanitizedIsClean(src.octets(row.name));
      } else {
        PersonaNameIsClean(src.octets(row.name), maxLen);
      }
    }
  }

  lemma DummyNamesAreClean()
    ensures CleanValue([]) && CleanValue(Ascii(NO_NAME))
  {
  }

  // ----- What the game reads -----

  /** A packet with more than one row is small; with one, its length is what its names and keys make it. */
  lemma ServedLength(fmt: Formatter, id: Uint32, asked: Asked, board: seq<Leaderboard.Row>, src: Source, encoded: Bytes, rows: nat)
    requires IsServed(fmt, id, asked, board, src, encoded, rows)
    ensures |encoded| == EncodedLen(Response(fmt, AnswerTo(asked, board, src)[..rows], KeysOf(asked), asked.key))
    ensures rows > 1 ==> |encoded| <= 60000
  {
    hide AnswerTo, KeysOf, Response, EncodedLen;
  }

  /**
   The packet that answers a request read off the wire decodes to itself, and the game finds in
   it the number of rows that were sent, every item of each of them, and nothing for other rows.
   */
  lemma GameReadsTheAnswer(fmt: Formatter, data: Bytes, board: seq<Leaderboard.Row>, src: Source, maxLen: int,
                           encoded: Bytes, rows: nat, i: nat, it: Item)
    requires Decoding(data).Complete? && KeyCount(ParamsOf(Decoding(data).item.params), KEYS) >= 0
    requires (forall x :: CleanValue(fmt(x))) && NamesAreValid(board, src, maxLen)
    requires IsServed(fmt, Decoding(data).item.id, AskedIn(ParamsOf(Decoding(data).item.params)), board, src, encoded, rows)
    requires rows <= 1 ==> |encoded| < TWO32
    ensures var asked := AskedIn(ParamsOf(Decoding(data).item.params));
      var d := Decoding(encoded);
      && d.Complete? && d.rest == [] && d.item.id == Decoding(data).item.id
      && rows <= |AnswerTo(asked, board, src)|
      && var p := ParamsOf(d.item.params);
      && Read(p, Ascii("stats.[]")) == Some(Number(rows))
      && Read(p, ItemKey(i, it)) == ItemAt(fmt, AnswerTo(asked, board, src), KeysOf(asked), asked.key, rows, i, it)
  {
    hide Decoding, ParamsOf, KeyCount, AskedIn, AnswerTo, KeysOf, CleanValue, Encoded, EncodedLen, Response, ItemKey, ItemOf,
      Ascii, Number, NamesAreValid, Size;
    var asked, id := AskedIn(ParamsOf(Decoding(data).item.params)), Decoding(data).item.id;
    var answer := AnswerTo(asked, board, src);
    var sent := answer[..rows];
    ServedLength(fmt, id, asked, board, src, encoded, rows);
    AskedKeysAreClean(data);
    forall j | 0 <= j < |sent| ensures CleanValue(sent[j].personaName) {
      AnswerNamesAreClean(asked, board, src, maxLen, j);
    }
    GameReadsTheRows(fmt, id, sent, KeysOf(asked), asked.key, i, it);
  }

  /**
   If the range asked for has rows on the board, the i-th row that the game reads has the rank,
   owner and value of the board's row at the i-th rank from the start of the range.
   */
  lemma GameReadsTheBoard(fmt: Formatter, data: Bytes, board: seq<Leaderboard.Row>, src: Source, maxLen: int,
                          encoded: Bytes, rows: nat, i: nat)
    requires Decoding(data).Complete? && KeyCount(ParamsOf(Decoding(data).item.params), KEYS) >= 0
    requires (forall x :: CleanValue(fmt(x))) && NamesAreValid(board, src, maxLen)
    requires var asked := AskedIn(ParamsOf(Decoding(data).item.params));
      && IsServed(fmt, Decoding(data).item.id, asked, board, src, encoded, rows)
      && LeaderboardPages.PageOf(board, asked.minRank, asked.maxRank) != []
    requires rows <= 1 ==> |encoded| < TWO32
    requires i < rows
    ensures var from := LeaderboardPages.Max(AskedIn(ParamsOf(Decoding(data).item.params)).minRank, 1);
      && Decoding(encoded).Complete?
      && var p := ParamsOf(Decoding(encoded).item.params);
      && from + i <= |board|
      && Read(p, ItemKey(i, Head(Rank))) == Some(Number(from + i))
      && Read(p, ItemKey(i, Head(Owner))) == Some(Number(board[from - 1 + i].owner))
      && Read(p, ItemKey(i, Head(Value))) == Some(fmt(board[from - 1 + i].value))
  {
    hide Decoding, ParamsOf, KeyCount, AskedIn, CleanValue, Encoded, Response, ItemKey, Ascii, Number, NamesAreValid,
      LeaderboardPages.PageOf, KeysOf, Answer, IsServed;
    var asked := AskedIn(ParamsOf(Decoding(data).item.params));
    GameReadsTheAnswer(fmt, data, board, src, maxLen, encoded, rows, i, Head(Rank));
    GameReadsTheAnswer(fmt, data, board, src, maxLen, encoded, rows, i, Head(Owner));
    GameReadsTheAnswer(fmt, data, board, src, maxLen, encoded, rows, i, Head(Value));
    AnswerRow(board, asked.key, asked.requested, asked.minRank, asked.maxRank, src, i);
  }

  /** The answer to a range from a to b has no more rows than the range. */
  lemma AnswerFits(asked: Asked, board: seq<Leaderboard.Row>, src: Source)
    requires LeaderboardPages.PageOf(board, asked.minRank, asked.maxRank) != [] && 1 <= asked.minRank <= asked.maxRank
    ensures |AnswerTo(asked, board, src)| <= asked.maxRank - asked.minRank + 1
  {
    hide HasHistoricalRows, BoardKeys, DummyEntry, TopEntryOf;
  }

  /**
   The same in the request's own words: asked for the ranks from a to b of a board that has
   rank a, the game reads as its i-th row the board's row at rank a + i, and none beyond b.
   */
  lemma GameReadsTheRange(fmt: Formatter, data: Bytes, board: seq<Leaderboard.Row>, src: Source, maxLen: int,
                          encoded: Bytes, rows: nat, i: nat, a: int, b: int)
    requires Decoding(data).Complete? && KeyCount(ParamsOf(Decoding(data).item.params), KEYS) >= 0
    requires (forall x :: CleanValue(fmt(x))) && NamesAreValid(board, src, maxLen)
    requires var p := ParamsOf(Decoding(data).item.params);
      && Ascii("minRank") in p && p[Ascii("minRank")] == Number(a) && Ascii("maxRank") in p && p[Ascii("maxRank")] == Number(b)
      && IsServed(fmt, Decoding(data).item.id, AskedIn(p), board, src, encoded, rows)
    requires 0 < a <= |board| && a <= MAX_INT64 && 0 < b <= MAX_INT64
    requires rows <= 1 ==> |encoded| < TWO32
    requires i < rows
    ensures Decoding(encoded).Complete?
      && var p := ParamsOf(Decoding(encoded).item.params);
      && a + i <= |board|
      && Read(p, ItemKey(i, Head(Rank))) == Some(Number(a + i))
      && Read(p, ItemKey(i, Head(Owner))) == Some(Number(board[a - 1 + i].owner))
      && Read(p, ItemKey(i, Head(Value))) == Some(fmt(board[a - 1 + i].value))
      && Read(p, ItemKey(i, Head(Name))) == Some(if board[a - 1 + i].imported then Sanitized(src.octets(board[a - 1 + i].name))
                                                 else src.octets(board[a - 1 + i].name))
    ensures a <= b ==> a + i <= b
  {
    hide Decoding, ParamsOf, KeyCount, AskedIn, CleanValue, Encoded, Response, ItemKey, Ascii, Number, NamesAreValid,
      LeaderboardPages.PageOf, KeysOf, Answer, Sanitized;
    var asked := AskedIn(ParamsOf(Decoding(data).item.params));
    ParametersAskFor(ParamsOf(Decoding(data).item.params), a, b);
    PageIsThere(board, a, b);
    GameReadsTheBoard(fmt, data, board, src, maxLen, encoded, rows, i);
    GameReadsTheAnswer(fmt, data, board, src, maxLen, encoded, rows, i, Head(Name));
    AnswerRow(board, asked.key, asked.requested, a, b, src, i);
    if a <= b {
      AnswerFits(asked, board, src);
    }
  }

  lemma PageIsThere(board: seq<Leaderboard.Row>, a: int, b: int)
    requires 0 < a <= |board|
    ensures LeaderboardPages.PageOf(board, a, b) != []
  {
  }

  lemma NoPageBeyond(board: seq<Leaderboard.Row>, a: int, b: int)
    requires a > |board|
    ensures LeaderboardPages.PageOf(board, a, b) == []
  {
  }

  lemma DummyAnswer(asked: Asked, board: seq<Leaderboard.Row>, src: Source)
    requires asked.minRank > |board| && 0 < asked.minRank
    ensures var answer := AnswerTo(asked, board, src);
      if asked.minRank >= 500 then answer == [DummyEntry(asked.minRank, [], KeysOf(asked), true)]
      else if asked.minRank == 1 && asked.maxRank == 1 then answer == [DummyEntry(1, Ascii("No Name"), KeysOf(asked), false)]
      else answer == []
  {
    hide LeaderboardPages.PageOf, BoardKeys, TopEntryOf, DummyEntry, Ascii;
    NoPageBeyond(board, asked.minRank, asked.maxRank);
  }

  /** The sort value of a dummy row is zero below the board, and the longest time for a time key on an empty one. */
  lemma DummySort(rank: int, name: Bytes, asked: Asked, zeroTime: bool)
    ensures SortValue(DummyEntry(rank, name, KeysOf(asked), zeroTime), asked.key)
         == if !zeroTime && EndsIn20(asked.key) then 3599.99 else 0.0
  {
    BoardKeysAreTheKeys(asked.key, asked.requested, asked.key);
    StatedIsValueFor(map[], asked.key);
  }

  /**
   Asked for ranks that the board does not have, the game reads one row from rank 500 on, without
   a name or a time; one row called "No Name" for the first rank alone; and no row otherwise.
   */
  lemma GameReadsTheDummy(fmt: Formatter, data: Bytes, board: seq<Leaderboard.Row>, src: Source, maxLen: int,
                          encoded: Bytes, rows: nat, a: int, b: int)
    requires Decoding(data).Complete? && KeyCount(ParamsOf(Decoding(data).item.params), KEYS) >= 0
    requires (forall x :: CleanValue(fmt(x))) && NamesAreValid(board, src, maxLen)
    requires var p := ParamsOf(Decoding(data).item.params);
      && Ascii("minRank") in p && p[Ascii("minRank")] == Number(a) && Ascii("maxRank") in p && p[Ascii("maxRank")] == Number(b)
      && IsServed(fmt, Decoding(data).item.id, AskedIn(p), board, src, encoded, rows)
    requires |board| < a <= MAX_INT64 && 0 < b <= MAX_INT64
    requires |encoded| < TWO32
    ensures rows == if a >= 500 || (a == 1 && b == 1) then 1 else 0
    ensures rows == 1 ==>
      && Decoding(encoded).Complete?
      && var p := ParamsOf(Decoding(encoded).item.params);
         var key := AskedIn(ParamsOf(Decoding(data).item.params)).key;
      && Read(p, ItemKey(0, Head(Rank))) == Some(Number(a))
      && Read(p, ItemKey(0, Head(Owner))) == Some(Number(0))
      && Read(p, ItemKey(0, Head(Name))) == Some(if a >= 500 then [] else Ascii("No Name"))
      && Read(p, ItemKey(0, Head(Value))) == Some(fmt(if a < 500 && EndsIn20(key) then 3599.99 else 0.0))
  {
    hide Decoding, ParamsOf, KeyCount, AskedIn, CleanValue, Encoded, Response, ItemKey, Ascii, Number, NamesAreValid,
      KeysOf, Answer, SortValue, EndsIn20, Size;
    var asked := AskedIn(ParamsOf(Decoding(data).item.params));
    ParametersAskFor(ParamsOf(Decoding(data).item.params), a, b);
    DummyAnswer(asked, board, src);
    if rows == 1 {
      GameReadsTheAnswer(fmt, data, board, src, maxLen, encoded, rows, 0, Head(Rank));
      GameReadsTheAnswer(fmt, data, board, src, maxLen, encoded, rows, 0, Head(Owner));
      GameReadsTheAnswer(fmt, data, board, src, maxLen, encoded, rows, 0, Head(Name));
      GameReadsTheAnswer(fmt, data, board, src, maxLen, encoded, rows, 0, Head(Value));
      DummySort(a, [], asked, true);
      DummySort(1, Ascii("No Name"), asked, false);
    }
  }
}
