/**
 What one row of the leaderboard response says (server/fesl/rank.go): which keys
 its lines have, and that each of them is written with one value.
 */
module RankRowRead {
  import opened Decimals
  import opened FeslPacket
  import opened GoStrings
  import opened Octets
  import opened RankResponse

  const DOT: Byte := 46

  /** A key of the lines is written with this value and no other. */
  ghost predicate Writes(params: seq<KV>, key: Bytes, value: Bytes) {
    && KV(key, value) in params
    && forall kv :: kv in params && kv.key == key ==> kv.value == value
  }

  ghost predicate Lacks(params: seq<KV>, key: Bytes) {
    forall kv :: kv in params ==> kv.key != key
  }

  /** The lines give a key this value, or do not have it. */
  ghost predicate Gives(params: seq<KV>, key: Bytes, o: Option<Bytes>) {
    match o
    case None => Lacks(params, key)
    case Some(value) => Writes(params, key, value)
  }

  function Either<T>(a: Option<T>, b: Option<T>): Option<T> { if a.Some? then a else b }

  lemma BothGive(a: seq<KV>, b: seq<KV>, key: Bytes, oa: Option<Bytes>, ob: Option<Bytes>)
    requires Gives(a, key, oa) && Gives(b, key, ob) && (oa.None? || ob.None?)
    ensures Gives(a + b, key, Either(oa, ob))
  {
  }

  /** Every key of the lines starts with the prefix. */
  ghost predicate Under(params: seq<KV>, prefix: Bytes) {
    forall kv :: kv in params ==> prefix <= kv.key
  }

  lemma {:induction false} WrittenIsRead(params: seq<KV>, key: Bytes, value: Bytes)
    requires Writes(params, key, value)
    ensures key in ParamsOf(params) && ParamsOf(params)[key] == value
  {
    var init, last := params[..|params| - 1], params[|params| - 1];
    assert params == init + [last];
    if last.key == key {
    } else {
      WrittenIsRead(init, key, value);
    }
  }

  lemma {:induction false} LackedIsNotRead(params: seq<KV>, key: Bytes)
    requires Lacks(params, key)
    ensures key !in ParamsOf(params)
  {
    if params == [] {
    } else {
      LackedIsNotRead(params[..|params| - 1], key);
    }
  }

  lemma StatLinesAreUnder(fmt: Formatter, prefix: Bytes, index: Bytes, values: map<Bytes, real>, key: Bytes, rank: Bytes, onlyTime: bool)
    ensures Under(StatLines(fmt, prefix + index, values, key, rank, onlyTime), prefix)
    ensures Under(SparseStatLines(fmt, prefix + index, values, key), prefix)
  {
    hide Ascii, ValueFor, IsTimeKey;
  }

  lemma {:induction false} StatsAreUnder(fmt: Formatter, prefix: Bytes, values: map<Bytes, real>, keys: seq<Bytes>, rank: Bytes,
                                         onlyTime: bool, n: nat)
    requires n <= |keys|
    ensures Under(Stats(fmt, prefix, values, keys, rank, onlyTime, n), prefix)
  {
    hide Number, StatLines;
    if n == 0 {
    } else {
      StatsAreUnder(fmt, prefix, values, keys, rank, onlyTime, n - 1);
      StatLinesAreUnder(fmt, prefix, Number(n - 1), values, keys[n - 1], rank, onlyTime);
    }
  }

  lemma {:induction false} SparseStatsAreUnder(fmt: Formatter, prefix: Bytes, values: map<Bytes, real>, keys: seq<Bytes>, sortKey: Bytes,
                                               n: nat)
    requires n <= |keys|
    ensures Under(SparseStats(fmt, prefix, values, keys, sortKey, n), prefix)
  {
    hide Number, SparseStatLines;
    if n == 0 {
    } else {
      SparseStatsAreUnder(fmt, prefix, values, keys, sortKey, n - 1);
      StatLinesAreUnder(fmt, prefix, Number(n - 1), values, keys[n - 1], [], false);
    }
  }

  lemma NumberHasNoDot(i: nat)
    ensures DOT !in Number(i)
  {
  }

  lemma NumbersDiffer(i: nat, j: nat)
    requires Number(i) == Number(j)
    ensures i == j
  {
    hide Digits;
    forall k | 0 <= k < |Itoa(i)| ensures Itoa(i)[k] == Itoa(j)[k] {
      assert Number(i)[k] == Number(j)[k];
      assert IsDigit(Itoa(i)[k]) && IsDigit(Itoa(j)[k]);
    }
    ItoaIsInjective(i, j);
  }

  /** Behind a base, a key belongs to one index only. */
  lemma IndicesDiffer(base: Bytes, i: nat, j: nat, key: Bytes)
    requires base + Number(i) + [DOT] <= key && base + Number(j) + [DOT] <= key
    ensures i == j
  {
    hide Number;
    var a, b, tail := Number(i), Number(j), key[|base|..];
    NumberHasNoDot(i);
    NumberHasNoDot(j);
    assert tail == a + [DOT] + tail[|a| + 1..] == b + [DOT] + tail[|b| + 1..];
    CutAtFirst(a, DOT, tail[|a| + 1..]);
    CutAtFirst(b, DOT, tail[|b| + 1..]);
    NumbersDiffer(i, j);
  }

  lemma Grouped(prefix: Bytes, group: string)
    requires group != "" && group[0] == '.'
    ensures prefix + [DOT] <= prefix + Ascii(group)
  {
  }

  lemma RowStatsAreUnder(fmt: Formatter, prefix: Bytes, e: TopEntry, keys: seq<Bytes>, sortKey: Bytes)
    ensures var params := RowStats(fmt, prefix, e, keys, sortKey);
      forall kv :: kv in params ==> prefix + Ascii(".stats.") <= kv.key || prefix + Ascii(".addStats.") <= kv.key
  {
    hide Ascii, Number, Stats, SparseStats;
    if e.imported {
      SparseStatsAreUnder(fmt, prefix + Ascii(".addStats."), e.values, keys, sortKey, |keys|);
    } else {
      StatsAreUnder(fmt, prefix + Ascii(".stats."), e.values, keys, Number(e.rank), e.timeOnly, |keys|);
      StatsAreUnder(fmt, prefix + Ascii(".addStats."), e.values, keys, Number(e.rank), e.timeOnly, |keys|);
    }
  }

  lemma RowIsUnder(fmt: Formatter, prefix: Bytes, e: TopEntry, keys: seq<Bytes>, sortKey: Bytes)
    ensures Under(Row(fmt, prefix, e, keys, sortKey), prefix + [DOT])
  {
    hide Number, RowStats, SortValue, RowHead;
    RowStatsAreUnder(fmt, prefix, e, keys, sortKey);
    HeadIsUnder(fmt, prefix, e, sortKey);
    Grouped(prefix, ".stats.");
    Grouped(prefix, ".addStats.");
  }

  lemma HeadIsUnder(fmt: Formatter, prefix: Bytes, e: TopEntry, sortKey: Bytes)
    ensures Under(RowHead(fmt, prefix, e, sortKey), prefix + [DOT])
  {
    hide Number, SortValue, Ascii;
    Grouped(prefix, ".ownerId");
    Grouped(prefix, ".ownerType");
    Grouped(prefix, ".owner");
    Grouped(prefix, ".name");
    Grouped(prefix, ".rank");
    Grouped(prefix, ".value");
    Grouped(prefix, ".text");
  }

  lemma Cancel<T>(p: seq<T>, a: seq<T>, b: seq<T>)
    ensures p + a == p + b <==> a == b
  {
    assert (p + a)[|p|..] == a && (p + b)[|p|..] == b;
  }

  // ----- A row's own fields -----

  datatype Field = Owner | OwnerId | OwnerType | Name | Rank | Value | Text

  function FieldLabel(f: Field): Bytes {
    match f
    case Owner => Ascii(".owner")
    case OwnerId => Ascii(".ownerId")
    case OwnerType => Ascii(".ownerType")
    case Name => Ascii(".name")
    case Rank => Ascii(".rank")
    case Value => Ascii(".value")
    case Text => Ascii(".text")
  }

  /** What a row says in a field: an imported row lacks three of them. */
  function FieldOf(fmt: Formatter, e: TopEntry, sortKey: Bytes, f: Field): Option<Bytes> {
    match f
    case Owner => Some(Number(e.personaId))
    case OwnerId => if e.imported then None else Some(Number(e.personaId))
    case OwnerType => if e.imported then None else Some(Ascii("1"))
    case Name => Some(e.personaName)
    case Rank => Some(Number(e.rank))
    case Value => Some(fmt(SortValue(e, sortKey)))
    case Text => if e.imported then None else Some(fmt(SortValue(e, sortKey)))
  }

  /** The letter behind the dot. */
  lemma FieldLetter(f: Field)
    ensures |FieldLabel(f)| > 1 && FieldLabel(f)[0] == DOT
    ensures FieldLabel(f)[1]
         == match f
            case Owner => 111 case OwnerId => 111 case OwnerType => 111
            case Name => 110 case Rank => 114 case Value => 118 case Text => 116
  {
  }

  lemma FieldLabelsDiffer(f: Field, g: Field)
    ensures FieldLabel(f) == FieldLabel(g) <==> f == g
  {
    FieldLetter(f);
    FieldLetter(g);
  }

  /** The fields of a row, in their order. */
  function FieldsOf(e: TopEntry): seq<Field> {
    if e.imported then [Owner, Name, Rank, Value] else [OwnerId, OwnerType, Owner, Name, Rank, Value, Text]
  }

  lemma HeadIsItsFields(fmt: Formatter, prefix: Bytes, e: TopEntry, sortKey: Bytes)
    ensures var head, fields := RowHead(fmt, prefix, e, sortKey), FieldsOf(e);
      |head| == |fields| && forall i :: 0 <= i < |fields| ==>
        head[i].key == prefix + FieldLabel(fields[i]) && FieldOf(fmt, e, sortKey, fields[i]) == Some(head[i].value)
  {
    hide Ascii, Number, SortValue;
  }

  lemma HeadGives(fmt: Formatter, prefix: Bytes, e: TopEntry, sortKey: Bytes, f: Field)
    ensures Gives(RowHead(fmt, prefix, e, sortKey), prefix + FieldLabel(f), FieldOf(fmt, e, sortKey, f))
  {
    hide Ascii, Number, SortValue, FieldLabel, RowHead;
    var head, fields := RowHead(fmt, prefix, e, sortKey), FieldsOf(e);
    HeadIsItsFields(fmt, prefix, e, sortKey);
    forall i | 0 <= i < |fields| ensures head[i].key == prefix + FieldLabel(f) <==> fields[i] == f {
      Cancel(prefix, FieldLabel(fields[i]), FieldLabel(f));
      FieldLabelsDiffer(fields[i], f);
    }
    FieldIsPresent(fmt, e, sortKey, f);
    if i :| 0 <= i < |fields| && fields[i] == f {
      assert head[i] == KV(prefix + FieldLabel(f), FieldOf(fmt, e, sortKey, f).value);
    }
  }

  lemma FieldIsPresent(fmt: Formatter, e: TopEntry, sortKey: Bytes, f: Field)
    ensures FieldOf(fmt, e, sortKey, f).Some? <==> f in FieldsOf(e)
  {
  }

  lemma StatsLackFields(fmt: Formatter, prefix: Bytes, e: TopEntry, keys: seq<Bytes>, sortKey: Bytes, f: Field)
    ensures Lacks(RowStats(fmt, prefix, e, keys, sortKey), prefix + FieldLabel(f))
  {
    hide Number, RowStats, FieldLabel;
    RowStatsAreUnder(fmt, prefix, e, keys, sortKey);
    FieldLetter(f);
    var field := prefix + FieldLabel(f);
    assert field[|prefix| + 1] == FieldLabel(f)[1];
    forall kv | kv in RowStats(fmt, prefix, e, keys, sortKey) ensures kv.key != field {
      assert kv.key[|prefix| + 1] == Ascii(".stats.")[1] || kv.key[|prefix| + 1] == Ascii(".addStats.")[1];
    }
  }

  // ----- The stat groups -----

  datatype Group = OwnStats | AddStats

  datatype StatField = StatKey | StatValue | StatText | StatRank

  /** What a group holds: the count of keys, and each stat's fields. */
  datatype Slot = Count | Stat(j: nat, field: StatField)

  function GroupText(g: Group): Bytes {
    match g
    case OwnStats => Ascii(".stats.")
    case AddStats => Ascii(".addStats.")
  }

  function LabelOf(f: StatField): Bytes {
    match f
    case StatKey => Ascii(".key")
    case StatValue => Ascii(".value")
    case StatText => Ascii(".text")
    case StatRank => Ascii(".rank")
  }

  function SlotText(s: Slot): Bytes {
    match s
    case Count => Ascii("[]")
    case Stat(j, f) => Number(j) + LabelOf(f)
  }

  /** The key ends in `_20`. */
  predicate EndsIn20(key: Bytes) {
    |key| >= 3 && key[|key| - 3] == 95 && key[|key| - 2] == 50 && key[|key| - 1] == 48
  }

  /** A stat's value: the one that the row has, else the longest time for a time key and zero for any other. */
  function StatedValue(values: map<Bytes, real>, key: Bytes): real {
    if key in values then values[key] else if EndsIn20(key) then 3599.99 else 0.0
  }

  function StatFieldOf(fmt: Formatter, values: map<Bytes, real>, key: Bytes, rank: Bytes, onlyTime: bool, f: StatField): Bytes {
    match f
    case StatKey => key
    case StatValue => fmt(StatedValue(values, key))
    case StatText => if onlyTime && key !in values && !EndsIn20(key) then [] else fmt(StatedValue(values, key))
    case StatRank => rank
  }

  lemma StatedIsValueFor(values: map<Bytes, real>, key: Bytes)
    ensures IsTimeKey(key) <==> EndsIn20(key)
    ensures ValueFor(values, key) == StatedValue(values, key)
  {
    var suffix := Ascii("_20");
    assert suffix[0] == 95 && suffix[1] == 50 && suffix[2] == 48;
    if EndsIn20(key) {
      assert key[|key| - 3..] == suffix;
    } else if |key| >= 3 {
      assert key[|key| - 3..] == [key[|key| - 3], key[|key| - 2], key[|key| - 1]];
    }
  }

  function SlotOf(fmt: Formatter, values: map<Bytes, real>, keys: seq<Bytes>, rank: Bytes, onlyTime: bool, n: nat, s: Slot): Option<Bytes>
    requires n <= |keys|
  {
    match s
    case Count => Some(Number(|keys|))
    case Stat(j, f) => if j < n then Some(StatFieldOf(fmt, values, keys[j], rank, onlyTime, f)) else None
  }

  function SparseSlotOf(fmt: Formatter, values: map<Bytes, real>, keys: seq<Bytes>, sortKey: Bytes, n: nat, s: Slot): Option<Bytes>
    requires n <= |keys|
  {
    match s
    case Count => Some(Number(|keys|))
    case Stat(j, f) =>
      if j < n && keys[j] == sortKey && (f.StatKey? || f.StatValue?) then Some(StatFieldOf(fmt, values, keys[j], [], false, f)) else None
  }

  lemma NumberStartsWithDigit(n: nat)
    ensures Number(n)[0] != Ascii("[]")[0]
  {
    assert IsDigit(Itoa(n)[0]);
  }

  lemma LabelsDiffer(f: StatField, g: StatField)
    ensures LabelOf(f) == LabelOf(g) <==> f == g
    ensures LabelOf(f) != [] && LabelOf(f)[0] == DOT
  {
    assert LabelOf(f)[1] == (match f case StatKey => 107 case StatValue => 118 case StatText => 116 case StatRank => 114);
    assert LabelOf(g)[1] == (match g case StatKey => 107 case StatValue => 118 case StatText => 116 case StatRank => 114);
  }

  lemma DotComesFirst(p: Bytes, text: Bytes)
    requires text != [] && text[0] == DOT
    ensures p + [DOT] <= p + text
  {
  }

  /** When a slot's key is the key of the m-th stat's field g. */
  lemma SlotKeys(base: Bytes, m: nat, g: StatField, s: Slot)
    ensures base + Number(m) + LabelOf(g) == base + SlotText(s) <==> s == Stat(m, g)
  {
    hide Number, Ascii, LabelOf;
    var key, other := base + Number(m) + LabelOf(g), base + SlotText(s);
    LabelsDiffer(g, g);
    DotComesFirst(base + Number(m), LabelOf(g));
    match s {
      case Count =>
        NumberStartsWithDigit(m);
        assert key[|base|] == Number(m)[0] && other[|base|] == Ascii("[]")[0];
      case Stat(j, f) =>
        LabelsDiffer(f, g);
        assert other == base + Number(j) + LabelOf(f);
        DotComesFirst(base + Number(j), LabelOf(f));
        if key == other {
          IndicesDiffer(base, m, j, key);
        }
        if j == m {
          Cancel(base + Number(m), LabelOf(f), LabelOf(g));
        }
    }
  }

  lemma StatLinesGive(fmt: Formatter, base: Bytes, m: nat, values: map<Bytes, real>, key: Bytes, rank: Bytes, onlyTime: bool, s: Slot)
    ensures Gives(StatLines(fmt, base + Number(m), values, key, rank, onlyTime), base + SlotText(s),
                  if s.Stat? && s.j == m then Some(StatFieldOf(fmt, values, key, rank, onlyTime, s.field)) else None)
    ensures Gives(SparseStatLines(fmt, base + Number(m), values, key), base + SlotText(s),
                  if s.Stat? && s.j == m && (s.field.StatKey? || s.field.StatValue?)
                  then Some(StatFieldOf(fmt, values, key, rank, onlyTime, s.field)) else None)
  {
    hide Number, Ascii, SlotText, IsTimeKey, ValueFor, EndsIn20, StatedValue;
    StatedIsValueFor(values, key);
    SlotKeys(base, m, StatKey, s);
    SlotKeys(base, m, StatValue, s);
    SlotKeys(base, m, StatText, s);
    SlotKeys(base, m, StatRank, s);
  }

  lemma CountGives(base: Bytes, n: int, s: Slot)
    ensures Gives([KV(base + Ascii("[]"), Number(n))], base + SlotText(s), if s.Count? then Some(Number(n)) else None)
  {
    hide Number, Ascii, LabelOf;
    if s.Stat? {
      NumberStartsWithDigit(s.j);
      assert (base + SlotText(s))[|base|] == Number(s.j)[0] && (base + Ascii("[]"))[|base|] == Ascii("[]")[0];
    }
  }

  lemma {:induction false} StatsGive(fmt: Formatter, base: Bytes, values: map<Bytes, real>, keys: seq<Bytes>, rank: Bytes,
                                     onlyTime: bool, n: nat, s: Slot)
    requires n <= |keys|
    ensures Gives(Stats(fmt, base, values, keys, rank, onlyTime, n), base + SlotText(s),
                  SlotOf(fmt, values, keys, rank, onlyTime, n, s))
  {
    hide Number, Ascii, SlotText, StatFieldOf, StatLines, Gives;
    if n == 0 {
      CountGives(base, |keys|, s);
    } else {
      StatsGive(fmt, base, values, keys, rank, onlyTime, n - 1, s);
      StatLinesGive(fmt, base, n - 1, values, keys[n - 1], rank, onlyTime, s);
      BothGive(Stats(fmt, base, values, keys, rank, onlyTime, n - 1),
               StatLines(fmt, base + Number(n - 1), values, keys[n - 1], rank, onlyTime), base + SlotText(s),
               SlotOf(fmt, values, keys, rank, onlyTime, n - 1, s),
               if s.Stat? && s.j == n - 1 then Some(StatFieldOf(fmt, values, keys[n - 1], rank, onlyTime, s.field)) else None);
    }
  }

  lemma {:induction false} SparseStatsGive(fmt: Formatter, base: Bytes, values: map<Bytes, real>, keys: seq<Bytes>, sortKey: Bytes,
                                           n: nat, s: Slot)
    requires n <= |keys|
    ensures Gives(SparseStats(fmt, base, values, keys, sortKey, n), base + SlotText(s),
                  SparseSlotOf(fmt, values, keys, sortKey, n, s))
  {
    hide Number, Ascii, SlotText, StatFieldOf, SparseStatLines, Gives;
    if n == 0 {
      CountGives(base, |keys|, s);
    } else {
      SparseStatsGive(fmt, base, values, keys, sortKey, n - 1, s);
      if keys[n - 1] == sortKey {
        StatLinesGive(fmt, base, n - 1, values, keys[n - 1], [], false, s);
        BothGive(SparseStats(fmt, base, values, keys, sortKey, n - 1),
                 SparseStatLines(fmt, base + Number(n - 1), values, keys[n - 1]), base + SlotText(s),
                 SparseSlotOf(fmt, values, keys, sortKey, n - 1, s),
                 if s.Stat? && s.j == n - 1 && (s.field.StatKey? || s.field.StatValue?)
                 then Some(StatFieldOf(fmt, values, keys[n - 1], [], false, s.field)) else None);
      } else {
        assert SparseStats(fmt, base, values, keys, sortKey, n) == SparseStats(fmt, base, values, keys, sortKey, n - 1);
      }
    }
  }

  // ----- All that a row says -----

  datatype Item = Head(field: Field) | InGroup(group: Group, slot: Slot)

  /** Where an item stands, behind the row's prefix. */
  function ItemText(it: Item): Bytes {
    match it
    case Head(f) => FieldLabel(f)
    case InGroup(g, s) => GroupText(g) + SlotText(s)
  }

  /** What a row says about an item: an imported row has one group, with the sort key only. */
  function ItemOf(fmt: Formatter, e: TopEntry, keys: seq<Bytes>, sortKey: Bytes, it: Item): Option<Bytes> {
    match it
    case Head(f) => FieldOf(fmt, e, sortKey, f)
    case InGroup(g, s) =>
      if !e.imported then SlotOf(fmt, e.values, keys, Number(e.rank), e.timeOnly, |keys|, s)
      else if g.AddStats? then SparseSlotOf(fmt, e.values, keys, sortKey, |keys|, s)
      else None
  }

  lemma HeadLacksGroups(fmt: Formatter, prefix: Bytes, e: TopEntry, sortKey: Bytes, g: Group, key: Bytes)
    requires prefix + GroupText(g) <= key
    ensures Lacks(RowHead(fmt, prefix, e, sortKey), key)
  {
    hide Number, SortValue, GroupText;
    GroupLetters();
    assert key[|prefix| + 1] == GroupText(g)[1];
    forall kv | kv in RowHead(fmt, prefix, e, sortKey) ensures kv.key != key {
      assert kv.key[|prefix| + 1] in [111 as Byte, 110, 114, 118, 116];
    }
  }

  lemma OtherGroupLacks(params: seq<KV>, prefix: Bytes, g: Group, h: Group, key: Bytes)
    requires g != h && Under(params, prefix + GroupText(h)) && prefix + GroupText(g) <= key
    ensures Lacks(params, key)
  {
    hide Ascii;
    GroupLetters();
    assert key[|prefix| + 1] == GroupText(g)[1];
    forall kv | kv in params ensures kv.key != key {
      assert kv.key[|prefix| + 1] == GroupText(h)[1];
    }
  }

  lemma GroupLetters()
    ensures |GroupText(OwnStats)| > 1 && GroupText(OwnStats)[1] == 115
    ensures |GroupText(AddStats)| > 1 && GroupText(AddStats)[1] == 97
  {
  }

  lemma ImportedRowGivesGroup(fmt: Formatter, prefix: Bytes, e: TopEntry, keys: seq<Bytes>, sortKey: Bytes, g: Group, s: Slot)
    requires e.imported
    ensures Gives(RowStats(fmt, prefix, e, keys, sortKey), prefix + GroupText(g) + SlotText(s),
                  ItemOf(fmt, e, keys, sortKey, InGroup(g, s)))
  {
    hide Ascii, Number, SortValue, SparseStats, SlotText, SparseSlotOf;
    if g.AddStats? {
      SparseStatsGive(fmt, prefix + GroupText(g), e.values, keys, sortKey, |keys|, s);
    } else {
      SparseStatsAreUnder(fmt, prefix + GroupText(AddStats), e.values, keys, sortKey, |keys|);
      OtherGroupLacks(RowStats(fmt, prefix, e, keys, sortKey), prefix, g, AddStats, prefix + GroupText(g) + SlotText(s));
    }
  }

  lemma LiveRowGivesGroup(fmt: Formatter, prefix: Bytes, e: TopEntry, keys: seq<Bytes>, sortKey: Bytes, g: Group, s: Slot)
    requires !e.imported
    ensures Gives(RowStats(fmt, prefix, e, keys, sortKey), prefix + GroupText(g) + SlotText(s),
                  ItemOf(fmt, e, keys, sortKey, InGroup(g, s)))
  {
    hide Ascii, Number, SortValue, Stats, SlotText, SlotOf;
    var key, o := prefix + GroupText(g) + SlotText(s), ItemOf(fmt, e, keys, sortKey, InGroup(g, s));
    var h := if g.AddStats? then OwnStats else AddStats;
    var rank := Number(e.rank);
    var here := Stats(fmt, prefix + GroupText(g), e.values, keys, rank, e.timeOnly, |keys|);
    var there := Stats(fmt, prefix + GroupText(h), e.values, keys, rank, e.timeOnly, |keys|);
    StatsGive(fmt, prefix + GroupText(g), e.values, keys, rank, e.timeOnly, |keys|, s);
    StatsAreUnder(fmt, prefix + GroupText(h), e.values, keys, rank, e.timeOnly, |keys|);
    OtherGroupLacks(there, prefix, g, h, key);
    if g.AddStats? {
      BothGive(there, here, key, None, o);
    } else {
      BothGive(here, there, key, o, None);
    }
  }

  /** A row writes each of its items once, and no item that it does not have. */
  lemma RowGives(fmt: Formatter, prefix: Bytes, e: TopEntry, keys: seq<Bytes>, sortKey: Bytes, it: Item)
    ensures Gives(Row(fmt, prefix, e, keys, sortKey), prefix + ItemText(it), ItemOf(fmt, e, keys, sortKey, it))
  {
    hide Ascii, Number, SortValue, RowHead, RowStats, SlotText, FieldLabel, FieldOf, GroupText, Lacks, Writes;
    match it
    case Head(f) =>
      HeadGives(fmt, prefix, e, sortKey, f);
      StatsLackFields(fmt, prefix, e, keys, sortKey, f);
      BothGive(RowHead(fmt, prefix, e, sortKey), RowStats(fmt, prefix, e, keys, sortKey), prefix + FieldLabel(f),
               FieldOf(fmt, e, sortKey, f), None);
    case InGroup(g, s) =>
      var key := prefix + GroupText(g) + SlotText(s);
      assert key == prefix + ItemText(it);
      HeadLacksGroups(fmt, prefix, e, sortKey, g, key);
      if e.imported {
        ImportedRowGivesGroup(fmt, prefix, e, keys, sortKey, g, s);
      } else {
        LiveRowGivesGroup(fmt, prefix, e, keys, sortKey, g, s);
      }
      BothGive(RowHead(fmt, prefix, e, sortKey), RowStats(fmt, prefix, e, keys, sortKey), key, None,
               ItemOf(fmt, e, keys, sortKey, it));
  }

  lemma ItemTextIsDotted(it: Item)
    ensures [DOT] <= ItemText(it)
  {
    assert Ascii(".stats.")[0] == DOT && Ascii(".addStats.")[0] == DOT;
    if it.Head? {
      FieldLetter(it.field);
    }
  }
}
