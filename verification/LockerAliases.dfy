/**
 Stretch aliases of ghost files (server/locker/server.go): a ghost recorded under a
 tag can be fetched under every stretch the tag stands for, unless a file has that name.
 */
module LockerAliases {
  import opened Decimals
  import opened GoStrings
  import opened LockerXml

  const GHOST_PREFIX := "tdttghost_"
  const MAX_LISTED := 150

  /** The stretches of each tag. */
  type Stretches = map<int, seq<int>>

  /** The tag of a name that is the ghost prefix and decimal digits; too large a number counts as the largest. */
  function TagOf(name: string): (tag: Option<int>) {
    if GHOST_PREFIX <= name && |name| > |GHOST_PREFIX| && AllDigits(name[|GHOST_PREFIX|..])
    then Some(Atoi(name[|GHOST_PREFIX|..]).0) else None
  }

  /** A ghost named for a number has that number as its tag, unless it is negative. */
  lemma TagOfAliasName(n: int)
    requires n <= MAX_INT64
    ensures TagOf(AliasName(n)) == if n < 0 then None else Some(n)
  {
    hide Digits, Atoi;
    assert AliasName(n)[|GHOST_PREFIX|..] == Itoa(n);
    if n < 0 {
      assert Itoa(n)[0] == '-';
    } else {
      AtoiOfItoa(n);
    }
  }

  function StretchesOf(e: Entry, m: Stretches): seq<int> {
    match TagOf(e.name)
    case None => []
    case Some(tag) => if tag in m then m[tag] else []
  }

  function AliasName(stretch: int): string { GHOST_PREFIX + Itoa(stretch) }

  function Alias(e: Entry, stretch: int): Entry { e.(name := AliasName(stretch)) }

  function Names(entries: seq<Entry>): set<string> { set e <- entries :: e.name }

  // ----- What the aliases are -----

  function AliasesOf(e: Entry, stretches: seq<int>): (r: seq<Entry>)
    ensures |r| == |stretches| && forall j :: 0 <= j < |r| ==> r[j] == Alias(e, stretches[j])
  {
    if stretches == [] then [] else [Alias(e, stretches[0])] + AliasesOf(e, stretches[1..])
  }

  /** Every alias of every entry, in order. */
  function AllAliases(entries: seq<Entry>, m: Stretches): seq<Entry> {
    if entries == [] then [] else AliasesOf(entries[0], StretchesOf(entries[0], m)) + AllAliases(entries[1..], m)
  }

  /** The entries whose names are new where they stand. */
  function NewNames(seen: set<string>, entries: seq<Entry>): seq<Entry>
    decreases entries
  {
    if entries == [] then []
    else if entries[0].name in seen then NewNames(seen, entries[1..])
    else [entries[0]] + NewNames(seen + {entries[0].name}, entries[1..])
  }

  function NewAliases(entries: seq<Entry>, m: Stretches): seq<Entry> {
    NewNames(Names(entries), AllAliases(entries, m))
  }

  function WithAliases(entries: seq<Entry>, m: Stretches): seq<Entry> {
    entries + NewAliases(entries, m)
  }

  method WithStretchAliases(m: Stretches, entries: seq<Entry>) returns (out: seq<Entry>)
    ensures out == WithAliases(entries, m)
  {
    if |m| == 0 {
      NoAliases(entries, m);
      return entries;
    }
    hide TagOf, AliasName, NewNames, AliasesOf, Names;
    out := entries;
    var names := NamesIn(out);
    assert entries[0..] == entries;
    for i := 0 to |entries|
      invariant out + NewNames(names, AllAliases(entries[i..], m)) == WithAliases(entries, m)
    {
      assert entries[i..][1..] == entries[i + 1..];
      var tag := TagOf(entries[i].name);
      if tag.None? {
        NoAliasesHere(entries[i..], m);
        continue;
      }
      var stretches := if tag.value in m then m[tag.value] else [];
      assert stretches == StretchesOf(entries[i], m);
      out, names := AddAliases(out, names, entries[i], stretches, AllAliases(entries[i + 1..], m));
    }
    NoNewNames(names);
    assert out + [] == out;
  }

  method NamesIn(entries: seq<Entry>) returns (names: set<string>)
    ensures names == Names(entries)
  {
    names := {};
    for i := 0 to |entries|
      invariant names == Names(entries[..i])
    {
      names := names + {entries[i].name};
      assert entries[..i + 1] == entries[..i] + [entries[i]];
    }
    assert entries[..|entries|] == entries;
  }

  /** The inner loop: one entry's aliases, those with names not yet seen. */
  method AddAliases(out: seq<Entry>, names: set<string>, e: Entry, stretches: seq<int>, ghost rest: seq<Entry>)
    returns (out': seq<Entry>, names': set<string>)
    ensures out' + NewNames(names', rest) == out + NewNames(names, AliasesOf(e, stretches) + rest)
  {
    hide AliasName, NewNames, AliasesOf;
    out', names' := out, names;
    assert stretches[0..] == stretches;
    for j := 0 to |stretches|
      invariant out' + NewNames(names', AliasesOf(e, stretches[j..]) + rest)
             == out + NewNames(names, AliasesOf(e, stretches) + rest)
    {
      var aliasName := AliasName(stretches[j]);
      NextAlias(names', e, stretches, j, rest);
      if aliasName in names' {
        continue;
      }
      var alias := e.(name := aliasName);
      ghost var more := NewNames(names' + {aliasName}, AliasesOf(e, stretches[j + 1..]) + rest);
      assert (out' + [alias]) + more == out' + ([alias] + more);
      out' := out' + [alias];
      names' := names' + {aliasName};
    }
    assert AliasesOf(e, stretches[|stretches|..]) + rest == rest;
  }

  lemma NoNewNames(seen: set<string>)
    ensures NewNames(seen, []) == []
  {
  }

  lemma {:induction false} NoAliases(entries: seq<Entry>, m: Stretches)
    requires |m| == 0
    ensures WithAliases(entries, m) == entries && AllAliases(entries, m) == []
  {
    if entries == [] {
    } else {
      NoAliases(entries[1..], m);
    }
  }

  lemma NoAliasesHere(entries: seq<Entry>, m: Stretches)
    requires entries != [] && TagOf(entries[0].name).None?
    ensures AllAliases(entries, m) == AllAliases(entries[1..], m)
  {
    assert AliasesOf(entries[0], []) == [];
  }

  lemma NextAlias(seen: set<string>, e: Entry, stretches: seq<int>, j: nat, rest: seq<Entry>)
    requires j < |stretches|
    ensures var all, alias := AliasesOf(e, stretches[j..]) + rest, Alias(e, stretches[j]);
            var more := AliasesOf(e, stretches[j + 1..]) + rest;
            NewNames(seen, all) == if alias.name in seen then NewNames(seen, more)
                                   else [alias] + NewNames(seen + {alias.name}, more)
  {
    hide AliasName;
    assert stretches[j..][1..] == stretches[j + 1..];
    assert (AliasesOf(e, stretches[j..]) + rest)[1..] == AliasesOf(e, stretches[j + 1..]) + rest;
  }

  // ----- Lookup -----

  function FindEntryByName(entries: seq<Entry>, name: string): (r: Option<Entry>)
    ensures r.Some? <==> name in Names(entries)
    ensures r.Some? ==> r.value in entries && r.value.name == name
  {
    if entries == [] then None
    else if entries[0].name == name then Some(entries[0])
    else
      assert entries == [entries[0]] + entries[1..];
      FindEntryByName(entries[1..], name)
  }

  /** The first entry whose tag stands for the stretch. */
  function FirstMapped(entries: seq<Entry>, m: Stretches, stretch: int): Option<Entry> {
    if entries == [] then None
    else if stretch in StretchesOf(entries[0], m) then Some(entries[0])
    else FirstMapped(entries[1..], m, stretch)
  }

  function MappedAlias(entries: seq<Entry>, m: Stretches, stretch: int): Option<Entry> {
    match FirstMapped(entries, m, stretch)
    case None => None
    case Some(e) => Some(Alias(e, stretch))
  }

  lemma {:induction false} FindInBoth(a: seq<Entry>, b: seq<Entry>, name: string)
    ensures FindEntryByName(a + b, name)
         == if FindEntryByName(a, name).Some? then FindEntryByName(a, name) else FindEntryByName(b, name)
  {
    if a == [] {
      assert a + b == b;
    } else {
      assert (a + b)[1..] == a[1..] + b;
      FindInBoth(a[1..], b, name);
    }
  }

  lemma {:induction false} FindNew(seen: set<string>, entries: seq<Entry>, name: string)
    ensures FindEntryByName(NewNames(seen, entries), name)
         == if name in seen then None else FindEntryByName(entries, name)
    decreases entries
  {
    hide Names;
    if entries == [] {
    } else {
      if entries[0].name in seen {
        FindNew(seen, entries[1..], name);
      } else {
        FindNew(seen + {entries[0].name}, entries[1..], name);
        assert NewNames(seen, entries)[1..] == NewNames(seen + {entries[0].name}, entries[1..]);
      }
    }
  }

  lemma {:induction false} FindAmongAliases(e: Entry, stretches: seq<int>, stretch: int)
    ensures FindEntryByName(AliasesOf(e, stretches), AliasName(stretch))
         == if stretch in stretches then Some(Alias(e, stretch)) else None
  {
    if stretches == [] {
    } else {
      FindAmongAliases(e, stretches[1..], stretch);
      AliasNamesDiffer(stretches[0], stretch);
    }
  }

  lemma AliasNamesDiffer(a: int, b: int)
    ensures AliasName(a) == AliasName(b) <==> a == b
  {
    if AliasName(a) == AliasName(b) {
      assert AliasName(a)[|GHOST_PREFIX|..] == Itoa(a) && AliasName(b)[|GHOST_PREFIX|..] == Itoa(b);
      ItoaIsInjective(a, b);
    }
  }

  lemma {:induction false} FindAmongAllAliases(entries: seq<Entry>, m: Stretches, stretch: int)
    ensures FindEntryByName(AllAliases(entries, m), AliasName(stretch)) == MappedAlias(entries, m, stretch)
  {
    hide TagOf, AliasName, AliasesOf, StretchesOf;
    if entries == [] {
    } else {
      var here := StretchesOf(entries[0], m);
      FindAmongAllAliases(entries[1..], m, stretch);
      FindAmongAliases(entries[0], here, stretch);
      FindInBoth(AliasesOf(entries[0], here), AllAliases(entries[1..], m), AliasName(stretch));
    }
  }

  lemma {:induction false} AliasesHaveAliasNames(entries: seq<Entry>, m: Stretches, e: Entry)
    requires e in AllAliases(entries, m)
    ensures exists stretch :: e.name == AliasName(stretch)
  {
    hide TagOf, AliasName, StretchesOf;
    if e in AliasesOf(entries[0], StretchesOf(entries[0], m)) {
    } else {
      AliasesHaveAliasNames(entries[1..], m, e);
    }
  }

  /** Files come first; a stretch without a file is the first file whose tag stands for it; nothing else has an alias. */
  lemma LookupFindsFilesThenAliases(entries: seq<Entry>, m: Stretches, name: string)
    ensures name in Names(entries)
        ==> FindEntryByName(WithAliases(entries, m), name) == FindEntryByName(entries, name)
    ensures forall stretch ::
      name == AliasName(stretch) && name !in Names(entries)
      ==> FindEntryByName(WithAliases(entries, m), name) == MappedAlias(entries, m, stretch)
    ensures (forall stretch :: name != AliasName(stretch))
        ==> FindEntryByName(WithAliases(entries, m), name) == FindEntryByName(entries, name)
  {
    hide AliasName, AllAliases, NewNames, FirstMapped, Names, TagOf;
    var all := AllAliases(entries, m);
    FindInBoth(entries, NewNames(Names(entries), all), name);
    FindNew(Names(entries), all, name);
    forall stretch | name == AliasName(stretch)
      ensures FindEntryByName(all, name) == MappedAlias(entries, m, stretch)
    {
      FindAmongAllAliases(entries, m, stretch);
    }
    if (forall stretch :: name != AliasName(stretch)) && FindEntryByName(all, name).Some? {
      AliasesHaveAliasNames(entries, m, FindEntryByName(all, name).value);
      assert false;
    }
  }

  // ----- From tags to stretches -----

  /** A file named for a tag stands for the tag's stretches, and one of another form for none. */
  lemma GhostStandsFor(e: Entry, m: Stretches, tag: nat)
    requires tag <= MAX_INT64
    ensures e.name == "tdttghost_" + Itoa(tag) ==> StretchesOf(e, m) == if tag in m then m[tag] else []
    ensures StretchesOf(e, m) != [] ==> "tdttghost_" <= e.name && |e.name| > 10 && AllDigits(e.name[10..])
  {
    hide TagOf, Digits;
    if e.name == "tdttghost_" + Itoa(tag) {
      assert e.name == AliasName(tag);
      TagOfAliasName(tag);
    }
    TagHasPrefix(e.name);
  }

  lemma TagHasPrefix(name: string)
    ensures TagOf(name).Some? ==> "tdttghost_" <= name && |name| > 10 && AllDigits(name[10..])
  {
  }

  lemma {:induction false} FirstMappedAt(entries: seq<Entry>, m: Stretches, stretch: int) returns (j: nat)
    requires FirstMapped(entries, m, stretch).Some?
    ensures j < |entries| && FirstMapped(entries, m, stretch) == Some(entries[j]) && stretch in StretchesOf(entries[j], m)
    ensures forall k :: 0 <= k < j ==> stretch !in StretchesOf(entries[k], m)
  {
    hide StretchesOf;
    if stretch in StretchesOf(entries[0], m) {
      j := 0;
    } else {
      var i := FirstMappedAt(entries[1..], m, stretch);
      j := i + 1;
    }
  }

  /**
   A ghost recorded under a tag is found under each of the tag's stretches that no file is named
   for: what is found is the first file whose tag stands for the stretch, under the stretch's name.
   */
  lemma GhostIsFoundUnderStretch(entries: seq<Entry>, m: Stretches, i: nat, tag: nat, stretch: int) returns (j: nat)
    requires i < |entries| && tag <= MAX_INT64 && entries[i].name == "tdttghost_" + Itoa(tag)
    requires tag in m && stretch in m[tag] && "tdttghost_" + Itoa(stretch) !in Names(entries)
    ensures j <= i && stretch in StretchesOf(entries[j], m) && forall k :: 0 <= k < j ==> stretch !in StretchesOf(entries[k], m)
    ensures var name := "tdttghost_" + Itoa(stretch);
      FindEntryByName(WithAliases(entries, m), name) == Some(entries[j].(name := name))
  {
    hide StretchesOf, WithAliases, Itoa, FindEntryByName;
    GhostStandsFor(entries[i], m, tag);
    FirstMappedExists(entries, m, i, stretch);
    j := FirstMappedAt(entries, m, stretch);
    LookupFindsFilesThenAliases(entries, m, AliasName(stretch));
    assert AliasName(stretch) == "tdttghost_" + Itoa(stretch);
  }

  // ----- The list itself -----

  lemma {:induction false} NewNamesAreNew(seen: set<string>, entries: seq<Entry>, k: nat)
    requires k < |NewNames(seen, entries)|
    ensures var new_ := NewNames(seen, entries);
            new_[k] in entries && new_[k].name !in seen && forall j :: 0 <= j < k ==> new_[j].name != new_[k].name
    decreases entries
  {
    if entries[0].name in seen {
      NewNamesAreNew(seen, entries[1..], k);
    } else if k > 0 {
      var more := NewNames(seen + {entries[0].name}, entries[1..]);
      NewNamesAreNew(seen + {entries[0].name}, entries[1..], k - 1);
      assert NewNames(seen, entries)[1..] == more;
      forall j | 0 <= j < k ensures NewNames(seen, entries)[j].name != NewNames(seen, entries)[k].name {
        if j > 0 {
          assert NewNames(seen, entries)[j] == more[j - 1];
        }
      }
    }
  }

  /** The output extends the input, and the name of every entry it adds occurs nowhere before it. */
  lemma AliasesOnlyAdd(entries: seq<Entry>, m: Stretches)
    ensures entries <= WithAliases(entries, m)
    ensures var out := WithAliases(entries, m);
            forall j, k :: 0 <= j < k && |entries| <= k < |out| ==> out[j].name != out[k].name
  {
    hide NewNames, AllAliases;
    var out, new_ := WithAliases(entries, m), NewNames(Names(entries), AllAliases(entries, m));
    forall j, k | 0 <= j < k && |entries| <= k < |out| ensures out[j].name != out[k].name {
      NewNamesAreNew(Names(entries), AllAliases(entries, m), k - |entries|);
      assert out[k] == new_[k - |entries|];
      if j < |entries| {
        assert out[j] == entries[j];
      } else {
        assert out[j] == new_[j - |entries|];
      }
    }
  }

  /** Every stretch that some file's tag stands for has an entry. */
  lemma {:induction false} EveryStretchIsThere(entries: seq<Entry>, m: Stretches, i: nat, stretch: int)
    requires i < |entries| && stretch in StretchesOf(entries[i], m)
    ensures AliasName(stretch) in Names(WithAliases(entries, m))
  {
    hide AliasName, StretchesOf, WithAliases, Names;
    LookupFindsFilesThenAliases(entries, m, AliasName(stretch));
    FirstMappedExists(entries, m, i, stretch);
    NamesGrow(entries, WithAliases(entries, m));
    AliasesOnlyAdd(entries, m);
  }

  lemma NamesGrow(a: seq<Entry>, b: seq<Entry>)
    ensures a <= b ==> Names(a) <= Names(b)
  {
    if a <= b {
      assert forall e | e in a :: e in b;
    }
  }

  lemma {:induction false} FirstMappedExists(entries: seq<Entry>, m: Stretches, i: nat, stretch: int)
    requires i < |entries| && stretch in StretchesOf(entries[i], m)
    ensures FirstMapped(entries, m, stretch).Some?
  {
    hide StretchesOf;
    if stretch in StretchesOf(entries[0], m) {
    } else {
      FirstMappedExists(entries[1..], m, i - 1, stretch);
    }
  }

  /** Each alias copies the first file, in order, whose tag stands for its stretch. */
  lemma AliasesCopyTheFirst(entries: seq<Entry>, m: Stretches, k: nat)
    requires |entries| <= k < |WithAliases(entries, m)|
    ensures exists stretch :: var e := FirstMapped(entries, m, stretch);
              e.Some? && WithAliases(entries, m)[k] == Alias(e.value, stretch)
  {
    hide AliasName, StretchesOf, NewNames, AllAliases, FirstMapped;
    var out, all := WithAliases(entries, m), AllAliases(entries, m);
    NewNamesAreNew(Names(entries), all, k - |entries|);
    AliasesOnlyAdd(entries, m);
    AliasesHaveAliasNames(entries, m, out[k]);
    var stretch :| out[k].name == AliasName(stretch);
    FirstOfItsName(out, k);
    LookupFindsFilesThenAliases(entries, m, out[k].name);
  }

  lemma {:induction false} FirstOfItsName(entries: seq<Entry>, k: nat)
    requires k < |entries| && forall j :: 0 <= j < k ==> entries[j].name != entries[k].name
    ensures FindEntryByName(entries, entries[k].name) == Some(entries[k])
  {
    if k == 0 {
    } else {
      FirstOfItsName(entries[1..], k - 1);
    }
  }

  // ----- Requests -----

  /** A player's own ghosts under the requested name, or anybody's. */
  method FindGhostEntry(m: Stretches, own: seq<Entry>, everyones: seq<Entry>, name: string) returns (r: Option<Entry>)
    ensures r == OrElse(FindEntryByName(own, name),
                 OrElse(FindEntryByName(NewAliases(own, m), name),
                 OrElse(FindEntryByName(everyones, name), FindEntryByName(NewAliases(everyones, m), name))))
  {
    hide NewAliases, FindEntryByName, Names;
    var entries := WithStretchAliases(m, own);
    FindInBoth(own, NewAliases(own, m), name);
    r := FindEntryByName(entries, name);
    if r.Some? {
      return;
    }
    var all := WithStretchAliases(m, everyones);
    FindInBoth(everyones, NewAliases(everyones, m), name);
    r := FindEntryByName(all, name);
  }

  function OrElse<T>(a: Option<T>, b: Option<T>): Option<T> {
    if a.Some? then a else b
  }

  function CapLockerList(entries: seq<Entry>): seq<Entry> {
    if |entries| <= MAX_LISTED then entries else entries[..MAX_LISTED]
  }

  /** The cap gives up aliases before files. */
  lemma CapDropsAliasesFirst(entries: seq<Entry>, m: Stretches)
    ensures var shown := CapLockerList(WithAliases(entries, m));
            |shown| <= 150 && if |entries| <= 150 then entries <= shown else shown == entries[..150]
  {
    hide NewNames, AllAliases;
    AliasesOnlyAdd(entries, m);
  }

  function Named(entries: seq<Entry>, name: string): seq<Entry> {
    if entries == [] then []
    else
      var last := entries[|entries| - 1];
      Named(entries[..|entries| - 1], name) + (if last.name == name then [last] else [])
  }

  /** The filter keeps the entries of the name, and their order. */
  lemma {:induction false} NamedInOrder(a: seq<Entry>, b: seq<Entry>, name: string)
    ensures Named(a + b, name) == Named(a, name) + Named(b, name)
  {
    if b == [] {
      assert a + b == a && Named(b, name) == [];
    } else {
      var n := |b| - 1;
      assert (a + b)[..|a + b| - 1] == a + b[..n];
      NamedInOrder(a, b[..n], name);
    }
  }

  lemma NamedOne(e: Entry, name: string)
    ensures Named([e], name) == if e.name == name then [e] else []
  {
    assert [e][..0] == [];
  }

  /** The name filter of the file-info request: it writes into the slice that it is reading. */
  method KeepNamed(entries: array<Entry>, name: string) returns (kept: nat)
    modifies entries
    ensures kept <= entries.Length && entries[..kept] == Named(old(entries[..]), name)
  {
    kept := 0;
    for i := 0 to entries.Length
      invariant kept <= i
      invariant entries[..kept] == Named(old(entries[..i]), name)
      invariant entries[i..] == old(entries[i..])
    {
      var entry := entries[i];
      assert old(entries[..i + 1])[..i] == old(entries[..i]);
      assert entry == old(entries[..i + 1])[i];
      if entry.name == name {
        entries[kept] := entry;
        kept := kept + 1;
      }
    }
    assert old(entries[..entries.Length]) == old(entries[..]);
  }
}
