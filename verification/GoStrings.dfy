/**
 The parts of Go's `strings` package that the server's codecs are built from,
 on sequences of any element type.
 */
module GoStrings {

  datatype Option<+T> = None | Some(value: T)

  /** `strings.Split` for a separator of one element: always at least one part. */
  function Split<T(==)>(s: seq<T>, sep: T): (parts: seq<seq<T>>)
    ensures |parts| > 0
  {
    if s == [] then [[]]
    else
      var rest := Split(s[1..], sep);
      if s[0] == sep then [[]] + rest else [[s[0]] + rest[0]] + rest[1..]
  }

  /** `strings.Cut` for a separator of one element: what stands before and after its first occurrence. */
  function Cut<T(==)>(s: seq<T>, sep: T): (r: Option<(seq<T>, seq<T>)>)
    ensures r.None? <==> sep !in s
    ensures r.Some? ==> sep !in r.value.0 && s == r.value.0 + [sep] + r.value.1
  {
    if s == [] then None
    else if s[0] == sep then Some(([], s[1..]))
    else
      match Cut(s[1..], sep)
      case None => None
      case Some((before, after)) => Some(([s[0]] + before, after))
  }

  /** `strings.TrimRight` for a cutset of one element. */
  function TrimRight<T(==)>(s: seq<T>, c: T): (r: seq<T>)
    ensures r <= s
    ensures r == [] || r[|r| - 1] != c
  {
    if s != [] && s[|s| - 1] == c then TrimRight(s[..|s| - 1], c) else s
  }

  /** What `TrimRight` takes off. */
  lemma {:induction false} TrimRightRest<T>(s: seq<T>, c: T)
    ensures s == TrimRight(s, c) + Repeat(c, |s| - |TrimRight(s, c)|)
  {
    if s == [] || s[|s| - 1] != c {
      assert Repeat(c, 0) == [];
    } else {
      TrimRightRest(s[..|s| - 1], c);
      var trimmed := TrimRight(s, c);
      assert Repeat(c, |s| - |trimmed|) == Repeat(c, |s| - 1 - |trimmed|) + [c];
    }
  }

  function Repeat<T>(c: T, n: nat): (r: seq<T>)
    ensures |r| == n && forall i :: 0 <= i < n ==> r[i] == c
  {
    seq(n, _ => c)
  }

  /** A part that holds no separator is split off whole. */
  lemma {:induction false} SplitAtFirst<T>(a: seq<T>, sep: T, b: seq<T>)
    requires sep !in a
    ensures Split(a + [sep] + b, sep) == [a] + Split(b, sep)
  {
    var s := a + [sep] + b;
    if a == [] {
      assert s[1..] == b;
    } else {
      SplitAtFirst(a[1..], sep, b);
      assert s[1..] == a[1..] + [sep] + b;
      assert [s[0]] + a[1..] == a;
    }
  }

  /** Without a separator there is a single part. */
  lemma {:induction false} SplitNone<T>(a: seq<T>, sep: T)
    requires sep !in a
    ensures Split(a, sep) == [a]
  {
    if a == [] {
    } else {
      SplitNone(a[1..], sep);
      assert [a[0]] + a[1..] == a;
    }
  }

  lemma {:induction false} SplitPartsLackSep<T>(s: seq<T>, sep: T)
    ensures forall i :: 0 <= i < |Split(s, sep)| ==> sep !in Split(s, sep)[i]
  {
    if s == [] {
    } else {
      SplitPartsLackSep(s[1..], sep);
    }
  }

  /** The first occurrence decides where `Cut` cuts. */
  lemma {:induction false} CutAtFirst<T>(a: seq<T>, sep: T, b: seq<T>)
    requires sep !in a
    ensures Cut(a + [sep] + b, sep) == Some((a, b))
  {
    var s := a + [sep] + b;
    if a == [] {
      assert s[1..] == b;
    } else {
      CutAtFirst(a[1..], sep, b);
      assert s[1..] == a[1..] + [sep] + b;
      assert [s[0]] + a[1..] == a;
    }
  }

  lemma {:induction false} TrimRightRepeat<T>(s: seq<T>, c: T, n: nat)
    requires s == [] || s[|s| - 1] != c
    ensures TrimRight(s + Repeat(c, n), c) == s
  {
    var padded := s + Repeat(c, n);
    if n == 0 {
      assert padded == s;
    } else {
      assert padded[..|padded| - 1] == s + Repeat(c, n - 1);
      TrimRightRepeat(s, c, n - 1);
    }
  }
}
