/**
 Finding the executable's family by its byte patterns (client/dll/MedgeNetClient.c):
 the file is read in windows that overlap the one before by up to eight octets.
 */
module PatternScan {
  import opened FileReads
  import opened GoStrings
  import opened Octets

  type Pattern = p: Bytes | |p| == 5 witness [0, 0, 0, 0, 0]

  const PUSH_HOST_GOG: Pattern := [0x68, 0x80, 0x83, 0xD8, 0x01]
  const PUSH_HOST_RETAIL: Pattern := [0x68, 0x40, 0xA4, 0xD8, 0x01]
  const PUSH_HOST_DLC: Pattern := [0x68, 0xD0, 0x0A, 0xD9, 0x01]

  ghost predicate OccursAt(data: Bytes, pat: Bytes, i: int) {
    0 <= i && i + |pat| <= |data| && data[i..i + |pat|] == pat
  }

  ghost predicate Occurs(data: Bytes, pat: Bytes) {
    exists i :: OccursAt(data, pat, i)
  }

  datatype Family = Gog | Retail | Dlc

  /** What identifies a known executable: its size, and where its host name stands in memory. */
  datatype Profile = Profile(name: string, exeSize: nat, hostAddress: Uint32)

  const PROFILES: seq<Profile> := [
    Profile("GOG", 31596544, 0x01D88380), Profile("Steam", 31946072, 0x01D88380), Profile("EA App", 31606704, 0x01D88380),
    Profile("Retail", 36484440, 0x01D8A440), Profile("DLC Retail", 37291352, 0x01D90AD0)
  ]

  /** The profile returned for a family: 3 and 4 are fixed, a GOG pattern is told apart by file size. */
  function ProfileOf(f: Family, fileSize: Uint32): (profile: nat)
    ensures profile < 5
  {
    match f
    case Retail => 3
    case Dlc => 4
    case Gog =>
      if fileSize == PROFILES[0].exeSize then 0
      else if fileSize == PROFILES[1].exeSize then 1
      else if fileSize == PROFILES[2].exeSize then 2
      else 0
  }

  function Min8(n: nat): nat { if n < 8 then n else 8 }

  function Sum(sizes: seq<nat>): nat {
    if sizes == [] then 0 else sizes[0] + Sum(sizes[1..])
  }

  ghost predicate Fits(data: Bytes, at: nat, ov: nat, sizes: seq<nat>) {
    ov <= at && at + Sum(sizes) <= |data|
  }

  /** The family the first window with a hit gives, for reads of these sizes from some place on. */
  ghost function Verdict(data: Bytes, at: nat, ov: nat, sizes: seq<nat>): Option<Family>
    requires Fits(data, at, ov, sizes)
    decreases |sizes|
  {
    if sizes == [] then None
    else
      var window := data[at - ov..at + sizes[0]];
      if Occurs(window, PUSH_HOST_RETAIL) then Some(Retail)
      else if Occurs(window, PUSH_HOST_DLC) then Some(Dlc)
      else if Occurs(window, PUSH_HOST_GOG) then Some(Gog)
      else Verdict(data, at + sizes[0], Min8(sizes[0]), sizes[1..])
  }

  /** How much each call delivers, up to the end of the file or a failure. */
  function Delivered(file: Bytes, outcome: nat -> Outcome, at: nat, calls: nat, ov: nat): (sizes: seq<nat>)
    requires at <= |file| && ov <= 8
    ensures at + Sum(sizes) <= |file|
    ensures forall k :: 0 <= k < |sizes| ==> sizes[k] > 0
    decreases |file| - at
  {
    match ReadFile(file, at, 1032 - ov, outcome(calls))
    case None => []
    case Some(got) =>
      if got == [] then []
      else [|got|] + Delivered(file, outcome, at + |got|, calls + 1, Min8(|got|))
  }

  /** The first place a pattern stands at, or -1. */
  method MemmemSearch(buf: array<Byte>, bufLen: nat, pat: Bytes) returns (r: int)
    requires bufLen <= buf.Length
    ensures r >= 0 ==> pat != [] && OccursAt(buf[..bufLen], pat, r) && forall i :: 0 <= i < r ==> !OccursAt(buf[..bufLen], pat, i)
    ensures r < 0 ==> r == -1
    ensures pat != [] ==> (r >= 0 <==> Occurs(buf[..bufLen], pat))
  {
    if |pat| == 0 || bufLen < |pat| {
      return -1;
    }
    ghost var data := buf[..bufLen];
    for i := 0 to bufLen - |pat| + 1
      invariant forall k :: 0 <= k < i ==> !OccursAt(data, pat, k)
    {
      var j := 0;
      while j < |pat|
        invariant j <= |pat| && data[i..i + j] == pat[..j]
      {
        if buf[i + j] != pat[j] {
          break;
        }
        j := j + 1;
      }
      if j == |pat| {
        return i;
      }
      assert data[i..i + |pat|][j] != pat[j];
    }
    return -1;
  }

  /** One delivered read is one window looked at. */
  lemma OneWindow(file: Bytes, outcome: nat -> Outcome, at: nat, calls: nat, ov: nat)
    requires ov <= at <= |file| && ov <= 8
    ensures var v := Verdict(file, at, ov, Delivered(file, outcome, at, calls, ov));
            match ReadFile(file, at, 1032 - ov, outcome(calls))
            case None => v == None
            case Some(got) =>
              if got == [] then v == None
              else
                var window := file[at - ov..at + |got|];
                v == if Occurs(window, PUSH_HOST_RETAIL) then Some(Retail)
                     else if Occurs(window, PUSH_HOST_DLC) then Some(Dlc)
                     else if Occurs(window, PUSH_HOST_GOG) then Some(Gog)
                     else Verdict(file, at + |got|, Min8(|got|), Delivered(file, outcome, at + |got|, calls + 1, Min8(|got|)))
  {
    hide Occurs;
    var sizes := Delivered(file, outcome, at, calls, ov);
    match ReadFile(file, at, 1032 - ov, outcome(calls)) {
      case None =>
      case Some(got) =>
        if got != [] {
          assert sizes[1..] == Delivered(file, outcome, at + |got|, calls + 1, Min8(|got|));
        }
    }
  }

  lemma WindowJoins(file: Bytes, at: nat, ov: nat, got: Bytes)
    requires ov <= at && at + |got| <= |file| && got == file[at..at + |got|]
    ensures file[at - ov..at] + got == file[at - ov..at + |got|]
  {
  }

  /** The scan of a file that could be opened. */
  method FindProfileByPattern(file: Bytes, outcome: nat -> Outcome) returns (r: Option<nat>)
    ensures var verdict := Verdict(file, 0, 0, Delivered(file, outcome, 0, 0, 0));
            r == if verdict.None? then None else Some(ProfileOf(verdict.value, |file| % TWO32))
  {
    hide Verdict, Delivered, Occurs, OccursAt, ReadFile, ProfileOf;
    var overlap := new Byte[8];
    var overlapSize: nat := 0;
    var searchBuf := new Byte[1032];
    var fileSize := |file| % TWO32;
    var foundGog, foundRetail, foundDlc := false, false, false;
    var at: nat, calls: nat := 0, 0;
    ghost var verdict := Verdict(file, 0, 0, Delivered(file, outcome, 0, 0, 0));
    while !(foundGog || foundRetail || foundDlc)
      invariant overlapSize <= 8 && overlapSize <= at <= |file|
      invariant overlap[..overlapSize] == file[at - overlapSize..at]
      invariant verdict == if foundRetail then Some(Retail) else if foundDlc then Some(Dlc) else if foundGog then Some(Gog)
                           else Verdict(file, at, overlapSize, Delivered(file, outcome, at, calls, overlapSize))
      decreases |file| - at
    {
      OneWindow(file, outcome, at, calls, overlapSize);
      match ReadFile(file, at, 1032 - overlapSize, outcome(calls)) {
        case None =>
          return None;
        case Some(got) =>
          if |got| == 0 {
            break;
          }
          foundGog, foundRetail, foundDlc, overlapSize := SearchWindow(file, at, got, overlap, overlapSize, searchBuf);
          at, calls := at + |got|, calls + 1;
      }
    }
    r := SelectProfile(foundGog, foundRetail, foundDlc, fileSize);
  }

  /** One window: the kept octets and those just read are searched, and the last of them kept for the next window. */
  method SearchWindow(ghost file: Bytes, ghost at: nat, got: Bytes, overlap: array<Byte>, overlapSize: nat, searchBuf: array<Byte>)
    returns (foundGog: bool, foundRetail: bool, foundDlc: bool, kept: nat)
    requires overlap.Length == 8 && searchBuf.Length == 1032 && overlap != searchBuf
    requires overlapSize <= 8 && overlapSize <= at && 0 < |got| <= 1032 - overlapSize
    requires at + |got| <= |file| && got == file[at..at + |got|] && overlap[..overlapSize] == file[at - overlapSize..at]
    modifies overlap, searchBuf
    ensures var window := file[at - overlapSize..at + |got|];
      && (foundGog <==> Occurs(window, PUSH_HOST_GOG)) && (foundRetail <==> Occurs(window, PUSH_HOST_RETAIL))
      && (foundDlc <==> Occurs(window, PUSH_HOST_DLC))
    ensures kept == Min8(|got|) && overlap[..kept] == file[at + |got| - kept..at + |got|]
  {
    hide Occurs, OccursAt, PUSH_HOST_GOG, PUSH_HOST_RETAIL, PUSH_HOST_DLC;
    var searchLen := CopyOctets(overlap[..overlapSize], searchBuf, 0);
    ghost var head := searchBuf[..searchLen];
    assert head == file[at - overlapSize..at];
    searchLen := CopyOctets(got, searchBuf, searchLen);
    ghost var window := searchBuf[..searchLen];
    assert window == head + got;
    WindowJoins(file, at, overlapSize, got);
    var gog := MemmemSearch(searchBuf, searchLen, PUSH_HOST_GOG);
    var retail := MemmemSearch(searchBuf, searchLen, PUSH_HOST_RETAIL);
    var dlc := MemmemSearch(searchBuf, searchLen, PUSH_HOST_DLC);
    foundGog, foundRetail, foundDlc := gog >= 0, retail >= 0, dlc >= 0;
    kept := Min8(|got|);
    WindowEnd(file, at, overlapSize, |got|, kept);
    assert searchBuf[searchLen - kept..searchLen] == window[searchLen - kept..];
    kept := CopyOctets(searchBuf[searchLen - kept..searchLen], overlap, 0);
  }

  lemma WindowEnd(file: Bytes, at: nat, ov: nat, n: nat, keep: nat)
    requires ov <= at && at + n <= |file| && keep <= n
    ensures file[at - ov..at + n][ov + n - keep..] == file[at + n - keep..at + n]
  {
  }

  /** The profile for what was found, retail before DLC before GOG. */
  method SelectProfile(foundGog: bool, foundRetail: bool, foundDlc: bool, fileSize: Uint32) returns (r: Option<nat>)
    ensures r == if foundRetail then Some(ProfileOf(Retail, fileSize))
                 else if foundDlc then Some(ProfileOf(Dlc, fileSize))
                 else if foundGog then Some(ProfileOf(Gog, fileSize))
                 else None
  {
    if foundRetail {
      return Some(3);
    }
    if foundDlc {
      return Some(4);
    }
    if foundGog {
      for i := 0 to 3
        invariant forall j :: 0 <= j < i ==> PROFILES[j].exeSize != fileSize
      {
        if PROFILES[i].exeSize == fileSize {
          return Some(i);
        }
      }
      return Some(0);
    }
    return None;
  }

  /** Append octets to the first `len` of a buffer. */
  method CopyOctets(src: Bytes, dst: array<Byte>, len: nat) returns (end: nat)
    requires len + |src| <= dst.Length
    modifies dst
    ensures end == len + |src| && dst[..end] == old(dst[..len]) + src
  {
    end := len;
    for i := 0 to |src|
      invariant end == len + i && dst[..end] == old(dst[..len]) + src[..i]
    {
      dst[end] := src[i];
      end := end + 1;
    }
  }

  // ----- When the windows see everything -----

  ghost predicate Positives(sizes: seq<nat>) {
    forall k :: 0 <= k < |sizes| ==> sizes[k] > 0
  }

  /** Some window holds the pattern. */
  ghost predicate Sees(data: Bytes, at: nat, ov: nat, sizes: seq<nat>, pat: Bytes)
    requires Fits(data, at, ov, sizes)
    decreases |sizes|
  {
    sizes != [] &&
    (Occurs(data[at - ov..at + sizes[0]], pat) || Sees(data, at + sizes[0], Min8(sizes[0]), sizes[1..], pat))
  }

  /** Some window spans the five octets from i on. */
  ghost predicate Spans(at: nat, ov: nat, sizes: seq<nat>, i: int)
    requires ov <= at
    decreases |sizes|
  {
    sizes != [] &&
    ((at - ov <= i && i + 5 <= at + sizes[0]) || Spans(at + sizes[0], Min8(sizes[0]), sizes[1..], i))
  }

  lemma SliceOfSlice(data: Bytes, lo: nat, hi: nat, k: nat)
    requires lo + k + 5 <= hi <= |data|
    ensures data[lo..hi][k..k + 5] == data[lo + k..lo + k + 5]
  {
    var a, b := data[lo..hi][k..k + 5], data[lo + k..lo + k + 5];
    forall i | 0 <= i < 5 ensures a[i] == b[i] {
      assert a[i] == data[lo..hi][k + i] == data[lo + k + i];
    }
  }

  lemma {:induction false} SeesIffSpans(data: Bytes, at: nat, ov: nat, sizes: seq<nat>, pat: Pattern)
    requires Fits(data, at, ov, sizes)
    ensures Sees(data, at, ov, sizes, pat) <==> exists i :: OccursAt(data, pat, i) && Spans(at, ov, sizes, i)
    decreases |sizes|
  {
    if sizes == [] {
    } else {
      SeesIffSpans(data, at + sizes[0], Min8(sizes[0]), sizes[1..], pat);
      var window := data[at - ov..at + sizes[0]];
      if Occurs(window, pat) {
        var k :| OccursAt(window, pat, k);
        SliceOfSlice(data, at - ov, at + sizes[0], k);
        assert OccursAt(data, pat, at - ov + k) && Spans(at, ov, sizes, at - ov + k);
      }
      forall i | OccursAt(data, pat, i) && Spans(at, ov, sizes, i)
        ensures Sees(data, at, ov, sizes, pat)
      {
        if at - ov <= i && i + 5 <= at + sizes[0] {
          SliceOfSlice(data, at - ov, at + sizes[0], i - (at - ov));
          assert OccursAt(window, pat, i - (at - ov));
        }
      }
    }
  }

  /** With at least four octets in every read but the last, nothing slips between two windows. */
  lemma {:induction false} LongReadsSpan(at: nat, ov: nat, sizes: seq<nat>, i: int)
    requires ov <= at && (ov >= 4 || ov == at)
    requires forall k :: 0 < k < |sizes| - 1 ==> sizes[k] >= 4
    requires at > 0 && |sizes| > 1 ==> sizes[0] >= 4
    requires 0 <= i && at < i + 5 <= at + Sum(sizes)
    ensures Spans(at, ov, sizes, i)
    decreases |sizes|
  {
    if i + 5 <= at + sizes[0] {
    } else {
      LongReadsSpan(at + sizes[0], Min8(sizes[0]), sizes[1..], i);
    }
  }

  /** No window from here on reaches back to i. */
  lemma {:induction false} NeverReachesBack(at: nat, ov: nat, sizes: seq<nat>, i: int)
    requires ov <= at && i < at - ov
    ensures !Spans(at, ov, sizes, i)
    decreases |sizes|
  {
    if sizes == [] {
    } else {
      NeverReachesBack(at + sizes[0], Min8(sizes[0]), sizes[1..], i);
    }
  }

  /** What ends behind a short read and starts before it is in no window. */
  lemma {:induction false} ShortReadHides(at: nat, ov: nat, sizes: seq<nat>, k: nat, i: int)
    requires ov <= at && k < |sizes| && sizes[k] < 8
    requires var end := at + Sum(sizes[..k + 1]); i + 5 > end && i < end - sizes[k]
    ensures !Spans(at, ov, sizes, i)
    decreases |sizes|
  {
    assert sizes[..k + 1][1..] == sizes[1..][..k];
    if k == 0 {
      assert Sum(sizes[..1]) == sizes[0] + Sum([]);
      NeverReachesBack(at + sizes[0], Min8(sizes[0]), sizes[1..], i);
    } else {
      assert sizes[1..][..k] == sizes[1..][..k - 1 + 1];
      ShortReadHides(at + sizes[0], Min8(sizes[0]), sizes[1..], k - 1, i);
    }
  }

  /** A file of some size with the GOG pattern at one place. */
  function Planted(size: nat, i: nat): (data: Bytes)
    requires i + 5 <= size
    ensures |data| == size && OccursAt(data, PUSH_HOST_GOG, i)
  {
    var data: Bytes := seq(i, _ => 0) + PUSH_HOST_GOG + seq(size - i - 5, _ => 0);
    assert data[i..i + 5] == PUSH_HOST_GOG;
    data
  }

  lemma PlantedOnce(size: nat, i: nat, j: int)
    requires i + 5 <= size && OccursAt(Planted(size, i), PUSH_HOST_GOG, j)
    ensures j == i
  {
    var data := Planted(size, i);
    assert data[j..j + 5][0] == data[j] && PUSH_HOST_GOG[0] == 0x68;
  }

  ghost predicate Faithful(sizes: seq<nat>) {
    forall data: Bytes, pat: Pattern :: |data| == Sum(sizes) ==> (Sees(data, 0, 0, sizes, pat) <==> Occurs(data, pat))
  }

  /** No read between the first and the last is shorter than four octets. */
  ghost predicate LongBetween(sizes: seq<nat>) {
    forall k :: 0 < k < |sizes| - 1 ==> sizes[k] >= 4
  }

  /** The windowed scan agrees with a search of the whole file exactly for these read sizes. */
  lemma FaithfulIff(sizes: seq<nat>)
    requires Positives(sizes)
    ensures Faithful(sizes) <==> Sum(sizes) < 5 || LongBetween(sizes)
  {
    forall data: Bytes, pat: Pattern | |data| == Sum(sizes) && (Sum(sizes) < 5 || LongBetween(sizes))
      ensures Sees(data, 0, 0, sizes, pat) <==> Occurs(data, pat)
    {
      SeesIffSpans(data, 0, 0, sizes, pat);
      if Occurs(data, pat) {
        var i :| OccursAt(data, pat, i);
        LongReadsSpan(0, 0, sizes, i);
        assert OccursAt(data, pat, i) && Spans(0, 0, sizes, i);
      }
    }
    if Sum(sizes) >= 5 && !LongBetween(sizes) {
      var k :| 0 < k < |sizes| - 1 && sizes[k] < 4;
      ShortReadLosesPattern(sizes, k);
    }
  }

  /** Five octets that end just behind a short read in the middle and start before it. */
  lemma SpotAcrossShortRead(sizes: seq<nat>, k: nat) returns (i: nat)
    requires Positives(sizes) && Sum(sizes) >= 5 && 0 < k < |sizes| - 1 && sizes[k] < 4
    ensures var end := Sum(sizes[..k + 1]); end < i + 5 <= Sum(sizes) && i < end - sizes[k]
  {
    var front := sizes[..k + 1];
    SumSplits(sizes, k + 1);
    SumPositive(sizes[k + 1..]);
    SumSplits(front, k);
    assert front[k..] == [sizes[k]];
    SumPositive(front[..k]);
    i := if Sum(front) >= 4 then Sum(front) - 4 else 0;
  }

  lemma ShortReadLosesPattern(sizes: seq<nat>, k: nat)
    requires Positives(sizes) && Sum(sizes) >= 5 && 0 < k < |sizes| - 1 && sizes[k] < 4
    ensures !Faithful(sizes)
  {
    var i := SpotAcrossShortRead(sizes, k);
    var data := Planted(Sum(sizes), i);
    ShortReadHides(0, 0, sizes, k, i);
    SeesIffSpans(data, 0, 0, sizes, PUSH_HOST_GOG);
    forall j | OccursAt(data, PUSH_HOST_GOG, j)
      ensures j == i
    {
      PlantedOnce(Sum(sizes), i, j);
    }
    assert Occurs(data, PUSH_HOST_GOG) && !Sees(data, 0, 0, sizes, PUSH_HOST_GOG);
  }

  lemma {:induction false} SumSplits(sizes: seq<nat>, k: nat)
    requires k <= |sizes|
    ensures Sum(sizes) == Sum(sizes[..k]) + Sum(sizes[k..])
  {
    if k > 0 {
      SumSplits(sizes[1..], k - 1);
      assert sizes[1..][..k - 1] == sizes[..k][1..] && sizes[1..][k - 1..] == sizes[k..];
    } else {
      assert sizes[k..] == sizes;
    }
  }

  lemma SumPositive(sizes: seq<nat>)
    requires Positives(sizes) && sizes != []
    ensures Sum(sizes) > 0
  {
  }

  ghost predicate AnyOccurs(data: Bytes) {
    Occurs(data, PUSH_HOST_RETAIL) || Occurs(data, PUSH_HOST_DLC) || Occurs(data, PUSH_HOST_GOG)
  }

  ghost function PatternOf(f: Family): Pattern {
    match f
    case Gog => PUSH_HOST_GOG
    case Retail => PUSH_HOST_RETAIL
    case Dlc => PUSH_HOST_DLC
  }

  /** The verdict names a family whose pattern some window holds, and there is one if any does. */
  lemma {:induction false} VerdictIsSeen(data: Bytes, at: nat, ov: nat, sizes: seq<nat>)
    requires Fits(data, at, ov, sizes)
    ensures var v := Verdict(data, at, ov, sizes);
            && (v.Some? ==> Sees(data, at, ov, sizes, PatternOf(v.value)))
            && (v.None? ==> forall f :: !Sees(data, at, ov, sizes, PatternOf(f)))
    decreases |sizes|
  {
    if sizes == [] {
    } else {
      VerdictIsSeen(data, at + sizes[0], Min8(sizes[0]), sizes[1..]);
    }
  }

  lemma {:induction false} AllDelivered(file: Bytes, outcome: nat -> Outcome, at: nat, calls: nat, ov: nat)
    requires at <= |file| && ov <= 8
    requires forall k :: outcome(k).Delivers?
    ensures at + Sum(Delivered(file, outcome, at, calls, ov)) == |file|
    decreases |file| - at
  {
    var got := ReadFile(file, at, 1032 - ov, outcome(calls)).value;
    if got == [] {
    } else {
      var rest := Delivered(file, outcome, at + |got|, calls + 1, Min8(|got|));
      AllDelivered(file, outcome, at + |got|, calls + 1, Min8(|got|));
      hide Delivered, ReadFile;
      assert ([|got|] + rest)[1..] == rest;
    }
  }

  /** A planted file holds no other family's pattern. */
  lemma PlantedIsGog(size: nat, i: nat, f: Family)
    requires i + 5 <= size && f != Gog
    ensures !Occurs(Planted(size, i), PatternOf(f))
  {
    var data := Planted(size, i);
    forall j ensures !OccursAt(data, PatternOf(f), j) {
      if OccursAt(data, PatternOf(f), j) {
        OnlyOneStart(size, i, j, PatternOf(f));
      }
    }
  }

  /** A pattern with the same first octet can only stand where the planted one does, so its second octet is the planted one's. */
  lemma OnlyOneStart(size: nat, i: nat, j: int, pat: Pattern)
    requires i + 5 <= size && OccursAt(Planted(size, i), pat, j) && pat[0] == PUSH_HOST_GOG[0]
    ensures pat[1] == PUSH_HOST_GOG[1]
  {
    var data := Planted(size, i);
    assert data[j..j + 5][0] == data[j] && data[j..j + 5][1] == data[j + 1];
    assert data[i..i + 5][1] == data[i + 1];
    assert PUSH_HOST_GOG[0] == 0x68 && PUSH_HOST_GOG[1] != 0x68;
  }

  /** What the scan returns tells for all contents whether a pattern occurs, exactly for these read sizes. */
  lemma VerdictIsFaithfulIff(sizes: seq<nat>)
    requires Positives(sizes)
    ensures (forall data :: |data| == Sum(sizes) ==> (Verdict(data, 0, 0, sizes).Some? <==> AnyOccurs(data)))
        <==> Sum(sizes) < 5 || LongBetween(sizes)
  {
    hide Verdict, Occurs, Sees;
    FaithfulIff(sizes);
    if Sum(sizes) < 5 || LongBetween(sizes) {
      forall data: Bytes | |data| == Sum(sizes) ensures Verdict(data, 0, 0, sizes).Some? <==> AnyOccurs(data) {
        VerdictIsSeen(data, 0, 0, sizes);
        assert forall f :: Sees(data, 0, 0, sizes, PatternOf(f)) <==> Occurs(data, PatternOf(f));
        assert AnyOccurs(data) <==> Occurs(data, PatternOf(Retail)) || Occurs(data, PatternOf(Dlc)) || Occurs(data, PatternOf(Gog));
      }
    } else {
      var k :| 0 < k < |sizes| - 1 && sizes[k] < 4;
      var data := MissedFile(sizes, k);
      assert !(Verdict(data, 0, 0, sizes).Some? <==> AnyOccurs(data));
    }
  }

  /** A file with a pattern in it that the scan finds nothing in. */
  lemma MissedFile(sizes: seq<nat>, k: nat) returns (data: Bytes)
    requires Positives(sizes) && Sum(sizes) >= 5 && 0 < k < |sizes| - 1 && sizes[k] < 4
    ensures |data| == Sum(sizes) && AnyOccurs(data) && Verdict(data, 0, 0, sizes).None?
  {
    hide Verdict, Sees;
    var i := SpotAcrossShortRead(sizes, k);
    data := Planted(Sum(sizes), i);
    ShortReadHides(0, 0, sizes, k, i);
    VerdictIsSeen(data, 0, 0, sizes);
    forall f ensures !Sees(data, 0, 0, sizes, PatternOf(f)) {
      SeesIffSpans(data, 0, 0, sizes, PatternOf(f));
      forall j | OccursAt(data, PatternOf(f), j) ensures j == i {
        if f == Gog {
          PlantedOnce(Sum(sizes), i, j);
        } else {
          PlantedIsGog(Sum(sizes), i, f);
        }
      }
    }
  }

  /** The instruction that pushes an address: its opcode, and the address with the least significant octet first. */
  function PushOf(address: Uint32): Bytes {
    [0x68, (address % 0x100) as Byte, (address / 0x100 % 0x100) as Byte,
     (address / 0x1_0000 % 0x100) as Byte, (address / 0x100_0000) as Byte]
  }

  /**
   The profile of a family is one whose host name the family's pattern pushes; a GOG pattern
   finds the profile of the file's size if one of the first three has it, and else the first.
   */
  lemma ProfileFits(f: Family, fileSize: Uint32)
    ensures PatternOf(f) == PushOf(PROFILES[ProfileOf(f, fileSize)].hostAddress)
    ensures f == Gog && fileSize in [31596544, 31946072, 31606704] ==> PROFILES[ProfileOf(f, fileSize)].exeSize == fileSize
    ensures f == Gog && fileSize !in [31596544, 31946072, 31606704] ==> PROFILES[ProfileOf(f, fileSize)].name == "GOG"
  {
  }

  // ----- The first window with a hit decides -----

  /** The k-th window: the octets of the k-th read and up to eight of the read before. */
  ghost function WindowAt(data: Bytes, at: nat, ov: nat, sizes: seq<nat>, k: nat): Bytes
    requires Fits(data, at, ov, sizes) && k < |sizes|
    decreases |sizes|
  {
    if k == 0 then data[at - ov..at + sizes[0]]
    else WindowAt(data, at + sizes[0], if sizes[0] < 8 then sizes[0] else 8, sizes[1..], k - 1)
  }

  ghost predicate HoldsNone(window: Bytes) {
    !Occurs(window, PUSH_HOST_RETAIL) && !Occurs(window, PUSH_HOST_DLC) && !Occurs(window, PUSH_HOST_GOG)
  }

  /** The family a window with a hit gives: retail before DLC, both before GOG. */
  ghost predicate Gives(window: Bytes, f: Family) {
    && Occurs(window, PatternOf(f))
    && (f == Dlc || f == Gog ==> !Occurs(window, PUSH_HOST_RETAIL))
    && (f == Gog ==> !Occurs(window, PUSH_HOST_DLC))
  }

  /** The k-th window is the first with a hit, and gives this family. */
  ghost predicate FirstHit(data: Bytes, at: nat, ov: nat, sizes: seq<nat>, k: nat, f: Family)
    requires Fits(data, at, ov, sizes)
  {
    && k < |sizes| && Gives(WindowAt(data, at, ov, sizes, k), f)
    && forall j :: 0 <= j < k ==> HoldsNone(WindowAt(data, at, ov, sizes, j))
  }

  /** The verdict is what the first window with a hit gives; without a verdict no window has one. */
  lemma {:induction false} VerdictIsFirstHit(data: Bytes, at: nat, ov: nat, sizes: seq<nat>)
    requires Fits(data, at, ov, sizes)
    ensures var v := Verdict(data, at, ov, sizes);
      if v.None? then forall k :: 0 <= k < |sizes| ==> HoldsNone(WindowAt(data, at, ov, sizes, k))
      else exists k: nat :: FirstHit(data, at, ov, sizes, k, v.value)
    decreases |sizes|
  {
    hide Occurs;
    if |sizes| == 0 {
    } else {
      var next := if sizes[0] < 8 then sizes[0] else 8;
      VerdictIsFirstHit(data, at + sizes[0], next, sizes[1..]);
      match Verdict(data, at, ov, sizes) {
        case None =>
          forall k | 0 < k < |sizes| ensures HoldsNone(WindowAt(data, at, ov, sizes, k)) {
            assert HoldsNone(WindowAt(data, at + sizes[0], next, sizes[1..], k - 1));
          }
        case Some(f) =>
          if HoldsNone(WindowAt(data, at, ov, sizes, 0)) {
            var k: nat :| FirstHit(data, at + sizes[0], next, sizes[1..], k, f);
            HitOneLater(data, at, ov, sizes, k, f);
            var later: nat := k + 1;
            assert FirstHit(data, at, ov, sizes, later, f);
          } else {
            assert FirstHit(data, at, ov, sizes, 0, f);
          }
      }
    }
  }

  lemma HitOneLater(data: Bytes, at: nat, ov: nat, sizes: seq<nat>, k: nat, f: Family)
    requires Fits(data, at, ov, sizes) && sizes != [] && HoldsNone(WindowAt(data, at, ov, sizes, 0))
    requires FirstHit(data, at + sizes[0], if sizes[0] < 8 then sizes[0] else 8, sizes[1..], k, f)
    ensures FirstHit(data, at, ov, sizes, k + 1, f)
  {
    hide Occurs, HoldsNone, Gives;
    var next := if sizes[0] < 8 then sizes[0] else 8;
    forall j | 0 <= j < k + 1 ensures HoldsNone(WindowAt(data, at, ov, sizes, j)) {
      assert j == 0 || HoldsNone(WindowAt(data, at + sizes[0], next, sizes[1..], j - 1));
    }
  }

  /** With no failed read and no short one in between, a profile is found exactly when a pattern occurs. */
  lemma ScanFindsFamily(file: Bytes, outcome: nat -> Outcome)
    requires forall k :: outcome(k).Delivers?
    requires LongBetween(Delivered(file, outcome, 0, 0, 0))
    ensures var v := Verdict(file, 0, 0, Delivered(file, outcome, 0, 0, 0));
            (v.Some? <==> AnyOccurs(file)) && (v.Some? ==> Occurs(file, PatternOf(v.value)))
  {
    var sizes := Delivered(file, outcome, 0, 0, 0);
    AllDelivered(file, outcome, 0, 0, 0);
    FaithfulIff(sizes);
    VerdictIsSeen(file, 0, 0, sizes);
    assert forall f :: Sees(file, 0, 0, sizes, PatternOf(f)) <==> Occurs(file, PatternOf(f));
    assert AnyOccurs(file) <==> Occurs(file, PatternOf(Retail)) || Occurs(file, PatternOf(Dlc)) || Occurs(file, PatternOf(Gog));
  }
}
