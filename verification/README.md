# A verified model of MedgeNet

MedgeNet keeps the online half of *Mirror's Edge* alive: a server that speaks the game's FESL
protocol, stores accounts, personas and leaderboards, and serves ghost files over HTTP, and a DLL
that is loaded into the game to redirect and repair it. This project models the parts of both that
carry state or arithmetic and proves what they are for. `dafny verify dfyconfig.toml` checks it.

## The modules

The server's wire protocol:

- `FeslPacket`: the packet printer and parser (`Encoded`, `Decoding` are what `Encode` and `Decode` compute).
- `Framing`: what a read loop over any incremental parser extracts, and why it does not depend on how
  the stream was cut. `FeslSession` and `LockerHttp` are its two uses.
- `FeslSession`: the session's read loop, with an arbitrary handler.

Leaderboards:

- `Leaderboard`: the tables, the board query and the rank query, and their agreement.
- `LeaderboardPages`: rank ranges of the board. `RankedStats`: the value and rank reported for one
  player. `StatsStore`: submitting values.
- `RankResponse`: the leaderboard packet and the loop that trims it. `RankRowRead`, `RankResponseRead`:
  what the game reads from it. `RankInput`: key lists, name validation and sanitised names. `RankRequest`:
  the whole way from a request and a board to what the game reads.

Accounts:

- `Pbkdf2` (section 5.2 of RFC 8018), `Passwords`, `PersonaRace`, with `Decimals` for numbers as text.

Ghost locker:

- `LockerHttp` (request framing), `LockerAliases` (names for stretches), `LockerXml` (the listing).

The DLL:

- `Fips180` (SHA-256 as FIPS 180-4 defines it), `FipsConstants` (where its constants come from) and
  `Sha256Stream` (the buffered implementation).
- `PatternScan`: the windowed search of the executable. `FileReads`: what a file read may return.
- `ProcessEventGuard`: the re-entrancy guard, over all interleavings of threads and nested calls.
- `StallDetector`: the counters of the tick hooks.

`GoStrings`, `Octets` and `FiniteSets` hold the few library functions and facts the rest is built from.

## How to read the model

Code that the source runs step by step is a method here, proved equal to a function or predicate; the
theorems are about those, and each such function has a theorem that says in other terms, or by its
inverse, what it is. SQL queries are set comprehensions over the tables, with the period's cut-off
time as a parameter. Times are reals. A statement of SQL, an interlocked exchange, a read from a file
or a socket is one step; what a read returns is a parameter (`nat -> Outcome`, `seq<Read>`). `HMAC` is
any function with 32-octet results. 32-bit words are integers with explicit reduction.

## Where the code does less than one might expect

These are proved, with the exact condition under which the property does hold.

- A linked historical player's own owner id (at or above the offset) is ranked by
  `HistoricalRankedStats` although it has no row on the board, and so is a run whose value is not
  positive (`HistoricalAgreesIff`, `LinkedOwnerIsRankedOffBoard`).
- For keys without the `_20` suffix the board counts linked historical times and `RankedStats` does
  not (`RankedStatsAgreesIff`, `OtherKeysAreNotMerged`).
- `TopN` returns a row that was not asked for exactly when the range, its lower end clamped to rank one,
  is empty and starts on the board (`PageHoldsRangeIff`, `EmptyRangeGivesOneRow`).
- The query leaves the order of tied rows open. Pages of different queries fit together exactly when no
  tie crosses the cut between them (`CutIsSafeIff`, `MixedPagesTile`).
- The executable scan loses a pattern if a read in the middle of the file returns fewer than four
  octets, exactly (`FaithfulIff` for one pattern, `VerdictIsFaithfulIff` for what the scan returns).
- A burst of exactly 2^32 game ticks between two transport ticks looks like none (`BurstIsSeenIff`, `FullRoundIsUnseen`).
  `g_pt_calls_as_stale` counts the sustained ticks, which are the injections exactly when a `this` was
  captured at each of them (`StaleCallsAreInjectionsIff`).
- A header block can be completed by further text exactly when its request line has two fields and its
  `Content-Length` is not negative and keeps the body's end within 64 bits (`CompletesIff`). A request line
  with fewer fields never completes (`MalformedRequestStays`, `NoPathNeverCompletes`); another length makes
  the slice fail (`FailsIff`, `NegativeLengthFails`), and a connection fails exactly when such a request
  begins behind some whole ones (`StreamFailsIff`).
- The block loop of `sha256_update` reads past its data exactly when the open block and the data together
  reach 2^32 octets (`OverrunsIff`, `LongestDataOverrun`). `sha256_file` only passes reads of at most 1024.
- A leaderboard request with a negative count of keys, and no other, ends in a failed allocation
  (`ParseKeyList`, `Serve`).
- A packet's type of more than four octets is cut, and a packet whose length reaches 2^32 does not
  survive the wire (`RoundTripIff`).

## Model

| member | source | states |
|---|---|---|
| FeslPacket.Encode | server/fesl/packet.go:23-43 | the buffer that is allocated and filled by four copies is type, id, length modulo 2^32, lines and a NUL |
| FeslPacket.CopyInto | server/fesl/packet.go:37-40 | a copy overwrites exactly its range of the buffer |
| FeslPacket.WriteLines | server/fesl/packet.go:24-31 | the buffer grows by one `key=value` line for each parameter, in order |
| FeslPacket.Decode | server/fesl/packet.go:45-77 | the decoding function, with its three ways of not returning a packet |
| FeslPacket.ReadParams | server/fesl/packet.go:63-74 | one parameter for each line that is not empty and has an equals sign |
| FeslPacket.ParamsMap | server/fesl/packet.go:79-85 | the map the loop fills |
| FeslPacket.ParamsOfIsLastWrite | server/fesl/packet.go:79-85 | a key is in the map iff some parameter has it, and holds its last value |
| FeslPacket.LineIsText | server/fesl/packet.go:26-29 | a line is key, `=`, value and newline |
| FeslPacket.WireLayout | server/fesl/packet.go:33-40 | octet by octet: type and NULs, id and length with the most significant octet first, the lines, a NUL |
| FeslPacket.DecodingOutcome | server/fesl/packet.go:46-56 | exactly when a buffer is too short for a packet, when its length can never be one, and when it starts with one |
| FeslPacket.LineParamIff | server/fesl/packet.go:64-73 | a line gives a parameter iff it is key, `=` and value with any number of NULs behind |
| FeslPacket.LineWithoutEquals | server/fesl/packet.go:69-72 | a line gives none iff it has no `=` |
| FeslPacket.LinesDecode | server/fesl/packet.go:25-31 | printed lines split, trimmed and cut give the parameters back |
| FeslPacket.DecodeEncodedPrefix | server/fesl/packet.go:23-77 | a transmissible packet in front of any bytes decodes to itself, and the rest are those bytes |
| FeslPacket.DecodedParamsAreTransmissible | server/fesl/packet.go:63-74 | whatever the bytes, a decoded parameter is one that can be sent again |
| FeslPacket.RoundTripIff | server/fesl/packet.go:23-77 | a packet survives encoding and decoding iff its type, keys, values and length meet the stated conditions |
| Framing.DrainSplits | server/fesl/server.go:89-139 | draining a concatenation is draining the first part and then its rest with the second |
| Framing.DrainLeavesNothingWhole | server/fesl/server.go:89-139 | the inner loop stops only when no whole item is left |
| Framing.ChunkingDoesNotMatter | server/fesl/server.go:89-139 | for an incremental parser and every way of cutting the stream into reads, with deadlines expiring in between, the loop extracts what draining the whole stream does |
| FeslSession.DecodingIsIncremental | server/fesl/packet.go:45-77 | decoding consumes at least the header, and its outcome is unchanged by more bytes, but for the rest |
| FeslSession.DecodingGrows | server/fesl/packet.go:45-77 | an error stays an error and a packet the same packet when bytes follow |
| FeslSession.ServePacket | server/fesl/server.go:120-137 | one packet is dispatched, and its reply or an error response written |
| FeslSession.ServeBuffered | server/fesl/server.go:111-138 | the inner loop serves exactly the packets of the buffer and keeps the undecoded rest |
| FeslSession.Run | server/fesl/server.go:74-140 | state, responses and error outcome are those of serving the packets of the whole stream, however it was cut, as a fold of the handlers; the challenge is written first and once for every expired deadline that finds it due, behind exactly the responses to the packets read before that |
| FeslSession.ServingIsFolding | server/fesl/server.go:120-137 | the state is the left fold of the handlers over the packets that are no challenge answers, and what is written are their non-empty replies and error packets in order |
| FeslSession.ErrorDecodes | server/fesl/server.go:446-451 | the packet for a handler's error decodes to the request's type, id and TXN, with error code 1 |
| FeslSession.SentPacketsArrive | server/fesl/server.go:89-139 | any list of transmissible packets arrives as that list, over every split into reads |
| Leaderboard.CandidatesAreCurrent | server/storage/storage.go:735-748 | every candidate comes from a positive time of the key and period that is not older than the cut-off |
| Leaderboard.CurrentStatIsCandidate | server/storage/storage.go:732-735 | a positive live time from the cut-off on is a candidate |
| Leaderboard.CurrentRunIsCandidate | server/storage/storage.go:737-748 | a positive historical time from the cut-off on is a candidate of every linked persona, or of the player if there is no link |
| Leaderboard.JoinsLoseNothing | server/storage/storage.go:731-748 | under referential integrity the rank query's candidates are the board's candidates up to the value, although only the board joins personas |
| Leaderboard.FilterPushDown | server/storage/storage.go:895-917 | filtering before each owner's best row is taken leaves the owners whose best row passes the filter |
| Leaderboard.TiesAreAllTied | server/storage/storage.go:757 | the rows counted as ties are all the later rows not above the value |
| Leaderboard.NumberedOncePerOwner | server/storage/storage.go:912-917 | every owner among the candidates has exactly one row numbered 1, so the count of those rows is the number of owners |
| Leaderboard.RankCountsRows | server/storage/storage.go:879-921 | the rank of a value is the number of board rows up to it, at least one |
| Leaderboard.RankAgreement | server/storage/storage.go:712-921 | a row's value has the rank of its position plus the later rows tied with it; position and rank are equal iff no later row ties |
| Leaderboard.RankIsMonotone | server/storage/storage.go:895-920 | a larger value never has a smaller rank |
| LeaderboardPages.TopN | server/storage/storage.go:712-796 | the entries read are the page of the ranked board that offset and limit select |
| LeaderboardPages.PageMembers | server/storage/storage.go:713-766 | a page is the clamped range, or the row at its lower end if that is empty, as far as the board has it |
| LeaderboardPages.PageHoldsRangeIff | server/storage/storage.go:713-766 | for all boards and integers, a page holds exactly the board's rows with ranks in the requested range iff the range, clamped to rank one, is not empty or starts behind the board |
| LeaderboardPages.PageHoldsRange | server/storage/storage.go:713-766 | for a clamped range that is not empty, entry by entry |
| LeaderboardPages.EmptyRangeGivesOneRow | server/storage/storage.go:713-714 | an empty range on the board gives the row at its lower end, clamped to rank one |
| LeaderboardPages.PagesTile | server/storage/storage.go:713-766 | consecutive ranges of one board put together are the board from the top, with contiguous ranks |
| LeaderboardPages.BoardsAgree | server/storage/storage.go:749-757 | two results of the query over the same candidates have the same length and the same value at every position |
| LeaderboardPages.CutIsSafeIff | server/storage/storage.go:757-758 | the front of one result and the back of any other make a board iff no tie crosses the cut |
| LeaderboardPages.MixedPagesTile | server/storage/storage.go:712-796 | pages that each come from their own query are together the front of one board, each owner once, if no tie crosses a cut |
| LeaderboardPages.BoardExists | server/storage/storage.go:749-757 | every finite set of candidates has a board: one best row for each owner, sorted by value |
| RankedStats.TimeKeysEndIn20 | server/storage/storage.go:600 | the time keys are the texts that end in `_20` |
| RankedStats.BestPersonaIsItself | server/storage/storage.go:682-710 | with unique names the fastest persona of the same name is the persona itself |
| RankedStats.LiveCandidate | server/storage/storage.go:732-735 | a persona's live row is a candidate iff its value is positive |
| RankedStats.LinkedCandidates | server/storage/storage.go:737-742 | a persona's time-only candidates are its linked times in the period |
| RankedStats.PersonaOnBoard | server/storage/storage.go:749-756 | a persona is on the board iff it has a positive live or linked time, with the faster of them, and marked time-only iff no positive live time is at most the best linked one |
| RankedStats.RankedStatsAgreesIff | server/storage/storage.go:581-618 | the value and rank reported for a persona are its board row's iff its live value, if any, is positive and no linked time is left out of account |
| RankedStats.ReportedRankIsPosition | server/storage/storage.go:581-618 | on a time board, value and rank reported for a persona are its row's value and its position plus the later ties |
| RankedStats.HistoricalAgreesIff | server/storage/storage.go:854-877 | the same for a historical owner: iff its run is positive and its player is not linked |
| RankedStats.LinkedOwnerIsRankedOffBoard | server/storage/storage.go:744-748 | a database in which a linked player's own owner id is ranked without a row |
| RankedStats.OtherKeysAreNotMerged | server/storage/storage.go:600-609 | a database in which a key without the time suffix is reported without its linked time |
| StatsStore.Store.UpdateStats | server/storage/storage.go:567-579 | all values are put in or, for an unknown persona, none; the tables' integrity is kept |
| StatsStore.SubmittedReplaces | server/storage/storage.go:569-574 | afterwards a row stands iff it is a submitted value or has none of the submitted keys |
| StatsStore.SubmittedIsLive | server/storage/storage.go:567-599 | a submitted value is the live value on every board of its key and period whose cut-off is not later than the submission, and on no other; a positive one is a candidate there |
| StatsStore.UpsertKeepsIntegrity | server/storage/storage.go:112-126 | an upsert for an existing persona keeps every key and reference |
| StatsStore.OthersKeepTheirRows | server/storage/storage.go:569-574 | no other owner's candidates change |
| StatsStore.RankMovesByAtMostOne | server/storage/storage.go:567-921 | one submission moves the rank of any value by at most one |
| RankResponse.EmitStats | server/fesl/rank.go:296-315 | the count and four lines for every key; a time-only entry's missing stats have no text |
| RankResponse.EmitSparseStats | server/fesl/rank.go:278-294 | the count of all keys, and two lines for the sort key only |
| RankResponse.EmitRow | server/fesl/rank.go:200-227 | the short lines of an imported row, or the full ones of a live row |
| RankResponse.BuildTopNAndStatsResponse | server/fesl/rank.go:198-229 | the response lines of all entries, numbered from zero |
| RankResponse.LeaderboardKeys | server/fesl/rank.go:444-459 | the non-empty requested keys, led by the sort key if it is not among them |
| RankResponse.BoardKeysAreTheKeys | server/fesl/rank.go:444-459 | a key is shown iff it is not empty and is the sort key or was requested |
| RankResponse.NonEmptyInOrder | server/fesl/rank.go:447-454 | the requested keys keep their order |
| RankResponse.OneKey | server/fesl/rank.go:448-449 | an empty key is dropped, any other kept |
| RankResponse.SortKeyLeads | server/fesl/rank.go:455-457 | a sort key that was not requested comes first; otherwise nothing is added |
| RankResponse.CappedRows | server/fesl/rank.go:141-143 | the cap keeps the first hundred rows iff there are more and one of them is imported |
| RankResponse.AnyHistorical | server/fesl/rank.go:189-196 | whether some row is imported |
| RankResponse.TrimmedResponse | server/fesl/rank.go:141-155 | the loop ends with a row count that fits, or one row, and every larger count is too large |
| RankResponse.OneRowMore | server/fesl/packet.go:23-43 | every row makes the packet larger, whatever it does to the printed count |
| RankResponse.SizeGrows | server/fesl/rank.go:144-150 | the packet's size is strictly increasing in the number of rows |
| RankResponse.TrimmingIsOptimal | server/fesl/rank.go:141-150 | when the sent packet fits, a number of rows fits iff it is no larger than the number sent |
| RankResponse.BuildDummyTopNAndStatsResponse | server/fesl/rank.go:231-261 | the lines of the dummy response; with the sort key among the keys, it is the response to a board of one unnamed row |
| RankResponse.HandleGetTopNAndStats | server/fesl/rank.go:107-156 | dummies for the two empty ranges, otherwise the historically capped rows, trimmed |
| RankRowRead.IndicesDiffer | server/fesl/rank.go:201 | behind a prefix, a key belongs to one index only |
| RankRowRead.StatsGive | server/fesl/rank.go:296-315 | looked up by key, a group gives its count and each stat's key, value, text and rank, and nothing beyond |
| RankRowRead.SparseStatsGive | server/fesl/rank.go:278-294 | an imported row's group gives its count and the sort key's stat only |
| RankRowRead.RowGives | server/fesl/rank.go:200-227 | a row writes each of its fields and every item of its groups with one value, and no item that it does not have |
| RankResponseRead.RowsReadBack | server/fesl/rank.go:198-229 | looked up by key, the lines give the number of rows and every item of every row, and nothing for further rows |
| RankResponseRead.GameReadsTheRows | server/fesl/rank.go:107-156 | the same after encoding and decoding, for names, keys and numbers free of newlines and trailing NULs |
| RankInput.ParseKeyList | server/fesl/server.go:527-537 | the non-empty keys under the first indices, or a failure iff their count is negative |
| RankInput.KeyListMembers | server/fesl/server.go:530-534 | a key is read iff it is not empty and stands under an index below the count |
| RankInput.DecodedParamIsClean | server/fesl/packet.go:63-85 | any parameter looked up in a decoded packet has no newline and no trailing NUL |
| RankInput.ValidatePersonaName | server/fesl/server.go:457-470 | accepts exactly letters, digits, `_`, `.`, `-` and spaces, not blank and no longer than allowed |
| RankInput.NameOctetsAreText | server/fesl/server.go:461-467 | the accepted octets are those of letters, digits, `_`, `.`, `-` and space |
| RankInput.ValidateLineIdentifier | server/fesl/server.go:472-487 | accepts exactly what is not blank, not too long, and free of control characters, `=` and, if asked, separators |
| RankInput.SanitizeHistoricalName | server/storage/storage.go:798-817 | the loop with its early stop keeps the first 31 shown characters of the trimmed name, trimmed again |
| RankInput.SanitizedIsSanitized | server/storage/storage.go:798-817 | the result is never empty, at most 31 characters, all shown, without spaces at its ends |
| RankInput.SanitizedIff | server/storage/storage.go:798-817 | exactly the names of that form are left as they are |
| RankInput.KeptInOrder | server/storage/storage.go:800-807 | the shown characters keep their order |
| RankInput.KeptOne | server/storage/storage.go:801-806 | a character is kept iff it is printable ASCII and no `=` |
| RankRequest.MergeValues | server/storage/storage.go:774-792 | the further statistics, with the board's value for the sort key |
| RankRequest.AttachedValues | server/storage/storage.go:774-792 | what each key of an answered row holds: the board's value under the sort key, further statistics unless the row is a linked time only |
| RankRequest.TopN | server/storage/storage.go:712-796 | the page's rows with their names and values: none further for a persona known only by a linked time |
| RankRequest.Serve | server/fesl/rank.go:107-156 | the packet is the trimmed response to the range of the board that the request's parameters ask for; it fails iff the count of keys is negative |
| RankRequest.ParametersAskFor | server/fesl/rank.go:108-117 | the first rank is what `minRank` says, the last what `maxRank` says, the sort key what `key` says; a missing rank is one |
| RankRequest.ParametersAskForKeys | server/fesl/rank.go:119 | the keys asked for are those written as `keys.0`, `keys.1` and so on |
| RankRequest.GameReadsTheAnswer | server/fesl/rank.go:107-156 | for every request off the wire and every board of valid names, the answer decodes, and the game finds the number of rows sent, every item of each and nothing for other rows |
| RankRequest.GameReadsTheBoard | server/fesl/rank.go:107-156 | if the range has rows, the i-th row that the game reads has rank, owner and value of the board's i-th row from the start of the range |
| RankRequest.GameReadsTheRange | server/fesl/rank.go:107-156 | asked in text for ranks a to b of a board that has rank a, the game reads as i-th row the rank a + i with its owner, name and value, and none beyond b |
| RankRequest.GameReadsTheDummy | server/fesl/rank.go:126-139 | asked for ranks the board does not have, the game reads one nameless row without a time from rank 500 on, one "No Name" row for the first rank alone, and no row otherwise |
| Decimals.AtoiOfItoa | server/storage/storage.go:1040-1048 | a printed 64-bit number reads back |
| Decimals.TensAndUnits | server/fesl/rank.go:199-221 | a number is printed in decimal: its tens, then its last digit, a minus sign in front |
| Decimals.AtoiOutOfRange | server/locker/server.go:336 | digits that make too large a number give the largest, with an error |
| Decimals.AtoiOfNoNumber | server/locker/server.go:422-425 | what is no number gives zero, with an error |
| Pbkdf2.XorBitByBit | server/storage/storage.go:1088 | a bit of the exclusive or is set iff the two bits differ |
| Pbkdf2.FirstIsSaltAndNumber | server/storage/storage.go:1082 | the function is first applied to the salt and the block's number in four octets |
| Pbkdf2.XorInto | server/storage/storage.go:1087-1089 | the inner loop is the exclusive or of two blocks, in place |
| Pbkdf2.DeriveBlock | server/storage/storage.go:1082-1090 | one block is F of RFC 8018 section 5.2: the exclusive or of U_1 to U_c |
| Pbkdf2.Derive | server/storage/storage.go:1077-1094 | the loops derive the key of RFC 8018 section 5.2 for any 32-octet PRF and any key length; counts below one act as one |
| Passwords.HashPassword | server/storage/storage.go:1034-1041 | scheme, count, salt and derived key, joined by dollar signs |
| Passwords.VerifyPassword | server/storage/storage.go:1043-1062 | accepts exactly what `Verifies` says, which the next rows pin down for every stored text |
| Passwords.PlainTextVerifiesIff | server/storage/storage.go:1044-1047 | against a text that is not four parts led by the scheme, a password passes iff it is that text, octet by octet |
| Passwords.UndividedVerifiesIff | server/storage/storage.go:1044-1047 | the same for every text without a dollar sign |
| Passwords.VerifiesStoredIff | server/storage/storage.go:1048-1061 | against a stored count, salt and digest, a password passes iff it derives that digest |
| Passwords.MalformedHashNeverVerifies | server/storage/storage.go:1048-1059 | four parts led by the scheme with a bad number or bad hexadecimal text let nobody in |
| Passwords.HexDecodesIff | server/storage/storage.go:1052-1059 | hexadecimal text decodes iff it is an even number of hexadecimal digits |
| Passwords.HexIsSmall | server/storage/storage.go:1040 | hexadecimal text has two digits for each octet, in small letters |
| Passwords.HexRoundTrip | server/storage/storage.go:1040-1059 | hexadecimal text decodes to the octets it was made from |
| Passwords.StoredParts | server/storage/storage.go:1040-1044 | a stored password splits into exactly its four parts |
| Passwords.VerifiesHashedIff | server/storage/storage.go:1034-1062 | another password verifies against a hash iff it derives the same key |
| Passwords.OwnHashVerifies | server/storage/storage.go:1034-1062 | every password verifies against its own hash, for every salt |
| Passwords.Accounts.ValidateAccount | server/storage/storage.go:238-253 | accepts iff the account's password verifies; a legacy password lets in whoever gives it octet by octet and nobody else, and is replaced by a hash that verifies; nothing else changes |
| PersonaRace.StepKeepsInv | server/storage/storage.go:338-361 | every step of every call keeps names unique, calls consistent with the table, and each new persona accounted for |
| PersonaRace.RunKeepsInv | server/storage/storage.go:338-361 | so does every interleaving of any number of calls |
| PersonaRace.SuccessIsTheCallers | server/storage/storage.go:338-361 | a returned persona has the caller's account and the requested name |
| PersonaRace.NeverNoRow | server/storage/storage.go:354-356 | the second lookup never comes back empty |
| PersonaRace.OwnerNeverChanges | server/storage/storage.go:112-117 | a persona stays, and stays the only one of its name |
| PersonaRace.ExactlyOneAccountWins | server/storage/storage.go:338-361 | when all calls for a name are done, at most one account has succeeded; exactly one, with all its calls, unless every call was refused for want of an account, and then it is a caller's if the name was free |
| PersonaRace.PersonaTable.LookupPersonaByName | server/storage/storage.go:387-397 | the persona of that name, if there is one |
| PersonaRace.PersonaTable.InsertOrIgnore | server/storage/storage.go:347 | inserts iff the name is free and the account exists; an unknown account is an error, unless the name is taken |
| PersonaRace.PersonaTable.GetOrCreatePersona | server/storage/storage.go:338-361 | one call alone is a run of the same steps, ending in a final phase |
| LockerHttp.ParseHeaders | server/locker/server.go:380-386 | header names trimmed and in lower case, the last value kept |
| LockerHttp.ParseHttpRequest | server/locker/server.go:368-393 | the parsing function, with an incomplete, malformed or sliced-out-of-range request |
| LockerHttp.IndexGrows | server/locker/server.go:369-372 | more bytes do not move the first blank line |
| LockerHttp.ParsingGrows | server/locker/server.go:368-393 | a request, or a failure, is unchanged by more bytes; only the rest grows |
| LockerHttp.RequestLineReads | server/locker/server.go:376 | a request line is method, path and the rest, in this order |
| LockerHttp.LowerCase | server/locker/server.go:384 | capitals become their small letters, nothing else changes |
| LockerHttp.TrimStrips | server/locker/server.go:384 | white space around a text is taken off, and none of the text |
| LockerHttp.FieldIsRead | server/locker/server.go:381-386 | a field is read under its name in small letters, with its value |
| LockerHttp.PrintedRequestIsRead | server/locker/server.go:368-393 | a printed request in front of any text is read as its method, path, length and body, and the text is left |
| LockerHttp.CompletesIff | server/locker/server.go:368-393 | a header block can be completed by some further text iff its request line has two fields and its length is not negative and keeps the end within 64 bits |
| LockerHttp.FailsIff | server/locker/server.go:387-392 | the slice of a buffer fails iff it starts with a proper request whose length does not fit so |
| LockerHttp.StreamFailsIff | server/locker/server.go:82-91 | serving a stream fails iff such a request begins behind some whole requests |
| LockerHttp.NegativeLengthFails | server/locker/server.go:387-392 | a request of length -1 that fails, whatever follows |
| LockerHttp.MalformedRequestStays | server/locker/server.go:376-379 | a malformed request line is never completed by more bytes |
| LockerHttp.NoPathNeverCompletes | server/locker/server.go:376-379 | a request line without a space, which is never completed |
| LockerHttp.ParsingIsIncremental | server/locker/server.go:368-393 | and each request consumes at least its blank line |
| LockerHttp.AnswerBuffered | server/locker/server.go:82-91 | the inner loop answers exactly the requests of the buffer |
| LockerHttp.HandleConnection | server/locker/server.go:68-93 | state and responses are the fold of the handler over the requests of the whole stream, however it was cut; it panics iff a request with a bad length begins behind some whole ones |
| LockerAliases.WithStretchAliases | server/locker/server.go:321-349 | the entries and, behind them, the aliases with new names in order |
| LockerAliases.AddAliases | server/locker/server.go:337-346 | the inner loop adds one entry's aliases whose names are not yet seen |
| LockerAliases.TagOfAliasName | server/locker/server.go:332-338 | the tag read from a ghost's name is the number it was printed from, unless negative |
| LockerAliases.GhostStandsFor | server/locker/server.go:332-337 | a file named for a tag stands for the tag's stretches, one of another form for none |
| LockerAliases.GhostIsFoundUnderStretch | server/locker/server.go:241-349 | a ghost recorded under a tag is found under each of the tag's stretches that no file is named for, as the first file whose tag stands for it |
| LockerAliases.AliasesOnlyAdd | server/locker/server.go:326-345 | the output extends the input; an added name occurs nowhere before it |
| LockerAliases.AliasesCopyTheFirst | server/locker/server.go:331-345 | every alias is a copy of the first entry whose tag stands for its stretch |
| LockerAliases.EveryStretchIsThere | server/locker/server.go:337-345 | every stretch of every entry's tag has an entry of its name |
| LockerAliases.LookupFindsFilesThenAliases | server/locker/server.go:241-349 | lookup finds a file of the name if there is one, else the alias of the first file mapped to the stretch, else nothing |
| LockerAliases.FindGhostEntry | server/locker/server.go:220-239 | the player's file, the player's alias, anybody's file, anybody's alias, in this order |
| LockerAliases.CapDropsAliasesFirst | server/locker/server.go:250-255 | the list cap gives up aliases before files |
| LockerAliases.KeepNamed | server/locker/server.go:137-144 | the filter that writes into the slice it reads keeps exactly the entries of the name, in order |
| LockerAliases.NamedInOrder | server/locker/server.go:138-143 | the filter keeps order, entry by entry |
| LockerAliases.NamedOne | server/locker/server.go:139-142 | an entry is kept iff it has the name |
| LockerXml.AttrIsEscape | server/locker/xml.go:71-77 | the four replacement passes equal one character-wise escape |
| LockerXml.EscapeRoundTrip | server/locker/xml.go:71-77 | unescaping gives the text back |
| LockerXml.AttrIsReversible | server/locker/xml.go:71-77 | the escaped text unescapes to the original and holds no quote and no angle bracket |
| LockerXml.BuildXML | server/locker/xml.go:29-69 | the loops write the listing of the entries with their count and 64-bit total |
| LockerXml.WrappingOnceIsEnough | server/locker/xml.go:30-33 | the accumulated total is the sum of the sizes, reduced to 64 bits once |
| LockerXml.ListingAttributes | server/locker/xml.go:36-67 | splitting the listing at its double quotes finds exactly the attributes that were printed |
| LockerXml.ListingReadsBack | server/locker/xml.go:29-69 | a reader that looks attributes up by name recovers the error, both counts, both sizes, game, player and every field of every row |
| FipsConstants.Row0 | client/dll/MedgeNetClient.c:425-442 | the first eight round constants are the cube roots of the first eight primes, 32 bits behind the point |
| FipsConstants.Row1 | client/dll/MedgeNetClient.c:425-442 | likewise |
| FipsConstants.Row2 | client/dll/MedgeNetClient.c:425-442 | likewise |
| FipsConstants.Row3 | client/dll/MedgeNetClient.c:425-442 | likewise |
| FipsConstants.Row4 | client/dll/MedgeNetClient.c:425-442 | likewise |
| FipsConstants.Row5 | client/dll/MedgeNetClient.c:425-442 | likewise |
| FipsConstants.Row6 | client/dll/MedgeNetClient.c:425-442 | likewise |
| FipsConstants.Row7 | client/dll/MedgeNetClient.c:425-442 | likewise |
| FipsConstants.RowsInOrder | client/dll/MedgeNetClient.c:425-442 | the rows are the table in order |
| FipsConstants.InitialHash | client/dll/MedgeNetClient.c:476-479 | the initial words are the square roots of the first eight primes, 32 bits behind the point |
| FipsConstants.ChoosesBitByBit | client/dll/MedgeNetClient.c:418 | each bit of x chooses between y and z |
| FipsConstants.MajorityBitByBit | client/dll/MedgeNetClient.c:419 | each bit is what at least two of the three have |
| Fips180.BlocksAppend | client/dll/MedgeNetClient.c:482-508 | hashing whole blocks in two goes is hashing them in one |
| Fips180.ScheduleRecurrence | client/dll/MedgeNetClient.c:449-456 | the schedule in the standard's own indices: sixteen words of the block, then the recurrence |
| Fips180.PaddedLayout | client/dll/MedgeNetClient.c:510-530 | octet by octet: the message, 0x80, zeros, and the 64-bit length in bits up to the next block boundary |
| Fips180.ZeroCount | client/dll/MedgeNetClient.c:510-525 | padding and length always end on a block boundary |
| Sha256Stream.Ep0 | client/dll/MedgeNetClient.c:417-423 | the shift-and-or macro is the rotation formula of FIPS 180-4 section 4.1.2 |
| Sha256Stream.Ep1 | client/dll/MedgeNetClient.c:417-423 | likewise |
| Sha256Stream.Sig0 | client/dll/MedgeNetClient.c:417-423 | likewise |
| Sha256Stream.Sig1 | client/dll/MedgeNetClient.c:417-423 | likewise |
| Sha256Stream.Schedule | client/dll/MedgeNetClient.c:444-455 | the 64 words of the message schedule |
| Sha256Stream.RunRounds | client/dll/MedgeNetClient.c:456-467 | the 64 rounds of section 6.2.2 |
| Sha256Stream.CounterIndex | client/dll/MedgeNetClient.c:482-508 | the low counter word gives the buffer position, even after it has wrapped |
| Sha256Stream.CounterAdds | client/dll/MedgeNetClient.c:482-508 | the split 64-bit counter with its carry adds eight bits for each octet |
| Sha256Stream.AbsorbedWhole | client/dll/MedgeNetClient.c:482-508 | filling the buffer, then whole blocks, then a tail, is hashing the longer message |
| Sha256Stream.Sha256Ctx.Init | client/dll/MedgeNetClient.c:472-480 | an empty message |
| Sha256Stream.Sha256Ctx.Transform | client/dll/MedgeNetClient.c:444-470 | the state becomes its compression with the block |
| Sha256Stream.OverrunsIff | client/dll/MedgeNetClient.c:499-500 | the block loop reads past its data iff the open block and the data reach 2^32 octets |
| Sha256Stream.LongestDataOverrun | client/dll/MedgeNetClient.c:499-500 | the index at which it does for 2^32 - 1 octets behind 63 in the buffer |
| Sha256Stream.Sha256Ctx.Update | client/dll/MedgeNetClient.c:482-508 | the message grows by the data, for every length at which the block loop does not overrun |
| Sha256Stream.PaddingThenBits | client/dll/MedgeNetClient.c:510-530 | padding taken from the table and the counter's octets are the padding of section 5.1.1 |
| Sha256Stream.Sha256Ctx.Final | client/dll/MedgeNetClient.c:510-538 | the digest is SHA-256 of everything that was put in |
| Sha256Stream.HashFile | client/dll/MedgeNetClient.c:540-557 | success means the file's digest; failure means a read failed, and the digest is untouched |
| PatternScan.MemmemSearch | client/dll/MedgeNetClient.c:571-587 | the first place the pattern stands at, or none |
| PatternScan.SearchWindow | client/dll/MedgeNetClient.c:608-646 | one window: the three searches are of the kept octets and those read, and the last eight at most are kept; neither buffer is overrun |
| PatternScan.FindProfileByPattern | client/dll/MedgeNetClient.c:589-666 | the profile of the first window with a hit, for every sequence of read sizes and failures |
| PatternScan.SelectProfile | client/dll/MedgeNetClient.c:650-665 | retail before DLC before GOG, and a GOG profile by file size |
| PatternScan.ProfileFits | client/dll/MedgeNetClient.c:122-266 | the profile of a family is one whose host name the family's pattern pushes; GOG patterns find the profile of the file's size among the first three, or the first |
| PatternScan.SeesIffSpans | client/dll/MedgeNetClient.c:605-646 | some window holds a pattern iff one occurrence lies in a single window |
| PatternScan.FaithfulIff | client/dll/MedgeNetClient.c:589-666 | the windowed scan agrees with a search of the whole file for all contents iff no read between the first and the last is shorter than four octets (or the file is shorter than a pattern) |
| PatternScan.VerdictIsFaithfulIff | client/dll/MedgeNetClient.c:589-666 | a family is returned iff a pattern occurs, for all contents, iff no read between the first and the last is shorter than four octets (or the file is shorter than a pattern) |
| PatternScan.ShortReadLosesPattern | client/dll/MedgeNetClient.c:638-646 | a file that is missed for each such short read |
| PatternScan.VerdictIsSeen | client/dll/MedgeNetClient.c:620-665 | the family returned is one whose pattern some window holds |
| PatternScan.VerdictIsFirstHit | client/dll/MedgeNetClient.c:605-665 | the first window with a hit decides, retail before DLC before GOG; without a verdict no window has a hit |
| PatternScan.ScanFindsFamily | client/dll/MedgeNetClient.c:589-666 | without failed or short reads, a profile is found iff a pattern occurs in the file, and its family's does |
| ProcessEventGuard.MoveKeeps | client/dll/MedgeNetClient.c:1110-1128 | every step of every frame keeps the guard's invariant |
| ProcessEventGuard.RunKeeps | client/dll/MedgeNetClient.c:1100-1129 | so does every interleaving of threads and nested calls |
| ProcessEventGuard.FlagHasOneHolder | client/dll/MedgeNetClient.c:1110-1125 | the flag is 1 iff some frame holds it, and then exactly one does |
| ProcessEventGuard.RedirectsNeverOverlap | client/dll/MedgeNetClient.c:1112-1123 | at any time at most one frame is redirected, on any thread and at any depth |
| ProcessEventGuard.OriginalIsCalledOnce | client/dll/MedgeNetClient.c:1100-1129 | every completed frame called the original exactly once |
| ProcessEventGuard.OnlyRestartsAreRedirected | client/dll/MedgeNetClient.c:1110-1128 | a completed frame made the redirected call iff it took the flag, its call was RestartLevel in a race and the functions were known; else it called its own function |
| ProcessEventGuard.RedirectsAreRestarts | client/dll/MedgeNetClient.c:1115-1120 | at any time the redirects are the frames, active or completed, that called the restart of the race |
| ProcessEventGuard.QuietMeansFree | client/dll/MedgeNetClient.c:1110-1128 | with no frame active the guard is free, and the counter is the number of redirects modulo 2^32 |
| ProcessEventGuard.NestedFramePassesThrough | client/dll/MedgeNetClient.c:1110-1128 | a frame entered during a redirect goes straight to the original |
| StallDetector.Hooks.CaptureProcessTick | client/dll/MedgeNetClient.c:1428-1435 | a game tick is captured and counted |
| StallDetector.Hooks.FeslConnUpdate | client/dll/MedgeNetClient.c:1509-1585 | the globals and the effect of a transport tick |
| StallDetector.GlobalsMeanCounts | client/dll/MedgeNetClient.c:1502-1585 | over every run with fewer than 2^32 ticks between, the globals are the current streak, the longest streak, the unseen game ticks, the captured `this` and the number of sustained ticks modulo 2^32 |
| StallDetector.InjectsIff | client/dll/MedgeNetClient.c:1551-1578 | a transport tick injects iff it is not re-entrant, saw no game tick, makes a streak of at least 30 and has a `this`; otherwise it calls the original |
| StallDetector.StaleCallsAreSustainedTicks | client/dll/MedgeNetClient.c:1551-1554 | over a whole run, the stale-call counter is the number of sustained ticks modulo 2^32 |
| StallDetector.StaleCallsAreInjectionsIff | client/dll/MedgeNetClient.c:1551-1563 | the sustained ticks are as many as the injections iff a `this` was captured at each of them |
| StallDetector.InjectionsNeverNest | client/dll/MedgeNetClient.c:1517-1566 | between two injections the first one has returned |
| StallDetector.LongestIsMaximum | client/dll/MedgeNetClient.c:1546-1549 | the longest streak is the maximum over the whole run, and was reached |
| StallDetector.BurstIsSeenIff | client/dll/MedgeNetClient.c:1537-1541 | a burst of game ticks is noticed iff its length is not a multiple of 2^32 |
| StallDetector.FullRoundIsUnseen | client/dll/MedgeNetClient.c:1537-1544 | a burst of 2^32 game ticks that is counted as a stale tick |

## Left out

- SQLite itself: SQL text, write-ahead log, transactions, migrations and connection pooling. Queries are read as their meaning over sets of rows; the rows that `UNION ALL` could repeat are equal and do not matter to a best row.
- Calendar computation of the weekly and monthly cut-off (server/storage/storage.go:1017-1032): the cut-off is a parameter, the same for all queries of a theorem.
- Floating point: times are reals, so NaN, infinities and rounding are outside the model; six-decimal formatting is an arbitrary function.
- LeaderboardPages.TopN: the page alone; names and further statistics are attached in `RankRequest.TopN`, where the queries for the statistics (server/storage/storage.go:823-852) are a parameter.
- LeaderboardPages.PagesTile: pages of one board; `MixedPagesTile` and `CutIsSafeIff` say what holds of pages from several queries over unchanged tables.
- RankResponse.HandleGetTopNAndStats: takes the rows of the page as given; `RankRequest.Serve` joins it to the board.
- RankRequest.GameReadsTheAnswer: an answer of a single row is required to be shorter than 2^32 octets, as no cap applies to one row; numbers are required to be written without newlines and NULs; that live names passed validation is a hypothesis on the board.
- RankInput.ParseKeyList: memory is unlimited, so that a very large count is read in full.
- Sockets, logging, configuration and the file system: reads are arbitrary sequences of chunks and expired deadlines, writes always succeed. Whether a challenge is due at an expired deadline is a parameter, and the challenge's bytes are one constant token.
- The handlers behind `dispatch` and behind the locker's requests: any function of a state and a packet or request. Constant responses, associations, presence and login replies are not modelled.
- The link between a session's account and persona across repeated logins.
- Unicode: trimming, of names too, and lower-casing of headers are modelled for ASCII; locker text is a sequence of characters, one for each byte.
- HMAC and the Go side's SHA-256: any function with 32-octet results. Randomness: the salt is a parameter. Login tokens and base64 are not modelled.
- Sha256Stream.Sha256Ctx.Update: takes data with which the open block stays below 2^32 octets, as the loop overruns beyond (`OverrunsIff`); `Final` takes messages below 2^61 octets, as the standard does.
- Sha256Stream.Schedule: allocates its words instead of using a stack array; the specification of the message is a ghost field of the context.
- PersonaRace.RunKeepsInv: runs start from a table with unique personas whose accounts exist, as the schema demands (server/storage/storage.go:112-117).
- PersonaRace.PersonaTable.InsertOrIgnore: the new row's id is a parameter that is not in use, instead of SQLite's choice.
- Looking the executable up by digest before the scan, the rest of the profile tables, memory patching and the walk over engine objects (client/dll/MedgeNetClient.c): an engine call carries its function and whether its object belongs to a race, and whether the functions are known by then is a parameter of a step.
- The locker's ticks, diagnostics and busy flag inside the transport hook (client/dll/MedgeNetClient.c:1520-1534): they do not touch the stall counters.
- The parsing of the table that maps ghost tags to stretches, and of ghost metadata and directories (server/storage/storage.go:974-1003, server/locker/server.go:257-319): the table and the entries are parameters.
- LockerXml.ListingReadsBack: the path of a ghost file is not listed and reads back as empty; numbers are required to be 64-bit, as the source's types make them.
- The launcher.
