/**
 Cutting items off the front of a stream that arrives in reads of any size: what
 the FESL session and the locker connection have in common. A parser says of a
 buffer that it holds no whole item yet, that it ends the connection, or which
 item it starts with and what is left.
 */
module Framing {

  datatype Framed<+E, +T> = Incomplete | Failed | Complete(item: T, rest: seq<E>)

  /** One return of a read: data, an expired deadline, or the end of the connection. */
  datatype Read<+E> = Data(data: seq<E>) | Timeout | Closed

  /** The items a stream holds, what is left behind them, and whether the parser failed there. */
  datatype Drained<+E, +T> = Drained(items: seq<T>, rest: seq<E>, failed: bool)

  type Parser<!E, !T> = seq<E> -> Framed<E, T>

  /** Every item takes something off the buffer. */
  ghost predicate Progresses<E(!new), T>(parse: Parser<E, T>) {
    forall s :: parse(s).Complete? ==> |parse(s).rest| < |s|
  }

  /** More data never changes what was made of the data before it. */
  ghost predicate Incremental<E(!new), T>(parse: Parser<E, T>) {
    && Progresses(parse)
    && (forall a, b :: parse(a).Failed? ==> parse(a + b).Failed?)
    && (forall a, b :: parse(a).Complete? ==> parse(a + b) == Complete(parse(a).item, parse(a).rest + b))
  }

  function Before<E, T>(items: seq<T>, d: Drained<E, T>): Drained<E, T> {
    d.(items := items + d.items)
  }

  /** Parsing a whole stream at once. */
  ghost function Drain<E(!new), T>(parse: Parser<E, T>, stream: seq<E>): Drained<E, T>
    requires Progresses(parse)
    decreases |stream|
  {
    match parse(stream)
    case Incomplete => Drained([], stream, false)
    case Failed => Drained([], [], true)
    case Complete(item, rest) => Before([item], Drain(parse, rest))
  }

  /** Everything the connection delivered before it ended. */
  function StreamOf<E>(chunks: seq<Read<E>>): seq<E> {
    if chunks == [] then []
    else
      match chunks[0]
      case Data(data) => data + StreamOf(chunks[1..])
      case Timeout => StreamOf(chunks[1..])
      case Closed => []
  }

  /** Parsing read by read, carrying what is left over to the next read. */
  ghost function Reassembled<E(!new), T>(parse: Parser<E, T>, buf: seq<E>, chunks: seq<Read<E>>): Drained<E, T>
    requires Progresses(parse)
    decreases |chunks|
  {
    if chunks == [] then Drained([], buf, false)
    else
      match chunks[0]
      case Timeout => Reassembled(parse, buf, chunks[1..])
      case Closed => Drained([], buf, false)
      case Data(data) =>
        var d := Drain(parse, buf + data);
        if d.failed then d else Before(d.items, Reassembled(parse, d.rest, chunks[1..]))
  }

  lemma BeforeAgain<E, T>(p: seq<T>, q: seq<T>, d: Drained<E, T>)
    ensures Before(p, Before(q, d)) == Before(p + q, d)
  {
    assert p + (q + d.items) == (p + q) + d.items;
  }

  lemma BeforeNothing<E, T>(d: Drained<E, T>)
    ensures Before([], d) == d
  {
    assert [] + d.items == d.items;
  }

  /** Draining a longer stream is draining its front, then what was left with the new data. */
  lemma {:induction false} DrainSplits<E(!new), T>(parse: Parser<E, T>, a: seq<E>, b: seq<E>)
    requires Incremental(parse)
    ensures var d := Drain(parse, a);
            Drain(parse, a + b) == if d.failed then d else Before(d.items, Drain(parse, d.rest + b))
    decreases |a|
  {
    match parse(a) {
      case Incomplete =>
        BeforeNothing(Drain(parse, a + b));
      case Failed =>
      case Complete(item, rest) =>
        var tail := Drain(parse, rest);
        assert Drain(parse, a) == Before([item], tail) && Drain(parse, a + b) == Before([item], Drain(parse, rest + b));
        DrainSplits(parse, rest, b);
        if !tail.failed {
          BeforeAgain([item], tail.items, Drain(parse, tail.rest + b));
        }
    }
  }

  /** What is left holds no whole item. */
  lemma {:induction false} DrainLeavesNothingWhole<E(!new), T>(parse: Parser<E, T>, s: seq<E>)
    requires Progresses(parse)
    ensures var d := Drain(parse, s); !d.failed ==> Drain(parse, d.rest) == Drained([], d.rest, false)
    decreases |s|
  {
    if !parse(s).Complete? {
    } else {
      DrainLeavesNothingWhole(parse, parse(s).rest);
    }
  }

  /** However a stream is cut into reads, the same items come out, with the same failure at the same place. */
  lemma {:induction false} ChunkingDoesNotMatter<E(!new), T>(parse: Parser<E, T>, buf: seq<E>, chunks: seq<Read<E>>)
    requires Incremental(parse) && Drain(parse, buf) == Drained([], buf, false)
    ensures Reassembled(parse, buf, chunks) == Drain(parse, buf + StreamOf(chunks))
    decreases |chunks|
  {
    if chunks == [] || chunks[0].Closed? {
      assert buf + StreamOf(chunks) == buf;
    } else if chunks[0].Timeout? {
      ChunkingDoesNotMatter(parse, buf, chunks[1..]);
    } else {
      var data, more := chunks[0].data, StreamOf(chunks[1..]);
      var d := Drain(parse, buf + data);
      DrainSplits(parse, buf + data, more);
      assert (buf + data) + more == buf + StreamOf(chunks);
      if !d.failed {
        DrainLeavesNothingWhole(parse, buf + data);
        ChunkingDoesNotMatter(parse, d.rest, chunks[1..]);
      }
    }
  }
}
