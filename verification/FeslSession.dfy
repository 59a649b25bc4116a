/**
 The session loop (server/fesl/server.go): reads of any size are appended to a
 buffer, complete packets are taken off its front and handed to the dispatcher.
 */
module FeslSession {
  import opened FeslPacket
  import opened Framing
  import opened GoStrings
  import opened Octets

  /** What a handler returns: response bytes or an error. */
  datatype Reply = Reply(bytes: Bytes) | HandlerError

  const TXN: Bytes := [84, 88, 78]
  const MEM_CHECK: Bytes := [77, 101, 109, 67, 104, 101, 99, 107]
  const MEM_CHECK_ID: Uint32 := 0x8000_0000
  const ERROR_CODE: Bytes := [101, 114, 114, 111, 114, 67, 111, 100, 101]
  const ONE: Bytes := [49]

  // ----- Why the cuts do not matter -----

  /** A packet needs at least its header, and more bytes never change what was decoded before them. */
  lemma DecodingIsIncremental()
    ensures Incremental(Decoding)
  {
    forall a: Bytes, b: Bytes
      ensures Decoding(a).Failed? ==> Decoding(a + b).Failed?
      ensures Decoding(a).Complete? ==> Decoding(a + b) == Complete(Decoding(a).item, Decoding(a).rest + b)
    {
      DecodingGrows(a, b);
    }
  }

  lemma DecodingGrows(a: Bytes, b: Bytes)
    ensures Decoding(a).Failed? ==> Decoding(a + b).Failed?
    ensures Decoding(a).Complete? ==> Decoding(a + b) == Complete(Decoding(a).item, Decoding(a).rest + b)
  {
    if |a| >= HEADER_LEN {
      var totalLen := Uint32At(a[8..12]);
      assert (a + b)[8..12] == a[8..12] && (a + b)[4..8] == a[4..8] && (a + b)[..4] == a[..4];
      if HEADER_LEN <= totalLen <= |a| {
        assert (a + b)[12..totalLen] == a[12..totalLen];
        assert (a + b)[totalLen..] == a[totalLen..] + b;
      }
    }
  }

  /** The packets of a whole stream, decoded at once. */
  ghost function PacketsIn(stream: Bytes): (d: Drained<Byte, Packet>)
    ensures Progresses(Decoding) && d == Drain(Decoding, stream)
  {
    DecodingIsIncremental();
    Drain(Decoding, stream)
  }

  // ----- Serving -----

  function TxnOf(p: Packet): Bytes {
    var m := ParamsOf(p.params);
    if TXN in m then m[TXN] else []
  }

  function ErrorResponse(p: Packet): Bytes {
    Encoded(p.typ, p.id, [KV(TXN, TxnOf(p)), KV(ERROR_CODE, ONE)])
  }

  /** The state after one packet and what was written for it. */
  function Served<S>(state: S, p: Packet, dispatch: (S, Packet) -> (S, Reply)): (S, seq<Bytes>) {
    if TxnOf(p) == MEM_CHECK && p.id == MEM_CHECK_ID then (state, [])
    else
      var (after, reply) := dispatch(state, p);
      var resp := if reply.HandlerError? then ErrorResponse(p) else reply.bytes;
      (after, if |resp| > 0 then [resp] else [])
  }

  function ServedAll<S>(state: S, packets: seq<Packet>, dispatch: (S, Packet) -> (S, Reply)): (S, seq<Bytes>) {
    if packets == [] then (state, [])
    else
      var last := |packets| - 1;
      var (before, written) := ServedAll(state, packets[..last], dispatch);
      var (after, more) := Served(before, packets[last], dispatch);
      (after, written + more)
  }

  lemma ServedAllStep<S>(state: S, packets: seq<Packet>, p: Packet, dispatch: (S, Packet) -> (S, Reply))
    ensures var (before, written) := ServedAll(state, packets, dispatch);
            var (after, more) := Served(before, p, dispatch);
            ServedAll(state, packets + [p], dispatch) == (after, written + more)
  {
    assert (packets + [p])[..|packets|] == packets;
  }

  // ----- Serving as a fold over the dispatched packets -----

  /** The answer to a challenge, which no handler sees. */
  predicate IsMemCheckAnswer(p: Packet) {
    && Ascii("TXN") in ParamsOf(p.params) && ParamsOf(p.params)[Ascii("TXN")] == Ascii("MemCheck")
    && p.id == 0x8000_0000
  }

  function Dispatched(packets: seq<Packet>): seq<Packet> {
    if packets == [] then []
    else (if IsMemCheckAnswer(packets[0]) then [] else [packets[0]]) + Dispatched(packets[1..])
  }

  /** The state after the handlers of some packets, each started in the state that the one before left. */
  function StateAfter<S>(state: S, packets: seq<Packet>, dispatch: (S, Packet) -> (S, Reply)): S {
    if packets == [] then state else StateAfter(dispatch(state, packets[0]).0, packets[1..], dispatch)
  }

  function ErrorParams(p: Packet): seq<KV> {
    var m := ParamsOf(p.params);
    [KV(Ascii("TXN"), if Ascii("TXN") in m then m[Ascii("TXN")] else []), KV(Ascii("errorCode"), Ascii("1"))]
  }

  /** What is written for one packet's reply: nothing for no bytes, and for an error a packet of the same type and id. */
  function WrittenFor(p: Packet, reply: Reply): seq<Bytes> {
    match reply
    case Reply(bytes) => if bytes == [] then [] else [bytes]
    case HandlerError => [Encoded(p.typ, p.id, ErrorParams(p))]
  }

  function WrittenAfter<S>(state: S, packets: seq<Packet>, dispatch: (S, Packet) -> (S, Reply)): seq<Bytes> {
    if packets == [] then []
    else
      var (after, reply) := dispatch(state, packets[0]);
      WrittenFor(packets[0], reply) + WrittenAfter(after, packets[1..], dispatch)
  }

  lemma Names()
    ensures TXN == Ascii("TXN") && MEM_CHECK == Ascii("MemCheck") && ERROR_CODE == Ascii("errorCode") && ONE == Ascii("1")
  {
  }

  lemma ServedIsOneStep<S>(state: S, p: Packet, dispatch: (S, Packet) -> (S, Reply))
    ensures Served(state, p, dispatch).0 == if IsMemCheckAnswer(p) then state else dispatch(state, p).0
    ensures Served(state, p, dispatch).1 == if IsMemCheckAnswer(p) then [] else WrittenFor(p, dispatch(state, p).1)
  {
    hide Ascii, Encoded, ParamsOf;
    Names();
    MemCheckIsText();
    assert TxnOf(p) == MEM_CHECK && p.id == MEM_CHECK_ID <==> IsMemCheckAnswer(p);
    assert ErrorResponse(p) == Encoded(p.typ, p.id, ErrorParams(p));
  }

  lemma MemCheckIsText()
    ensures Ascii("MemCheck") != []
  {
  }

  lemma {:induction false} FoldOneMore<S>(state: S, packets: seq<Packet>, p: Packet, dispatch: (S, Packet) -> (S, Reply))
    ensures var (after, reply) := dispatch(StateAfter(state, packets, dispatch), p);
      && StateAfter(state, packets + [p], dispatch) == after
      && WrittenAfter(state, packets + [p], dispatch) == WrittenAfter(state, packets, dispatch) + WrittenFor(p, reply)
  {
    hide WrittenFor;
    if packets == [] {
      assert packets + [p] == [p] && [p][1..] == [];
    } else {
      FoldOneMore(dispatch(state, packets[0]).0, packets[1..], p, dispatch);
      assert (packets + [p])[1..] == packets[1..] + [p];
    }
  }

  lemma {:induction false} DispatchedOneMore(packets: seq<Packet>, p: Packet)
    ensures Dispatched(packets + [p]) == Dispatched(packets) + (if IsMemCheckAnswer(p) then [] else [p])
  {
    hide IsMemCheckAnswer;
    if packets == [] {
      assert packets + [p] == [p] && [p][1..] == [];
    } else {
      DispatchedOneMore(packets[1..], p);
      assert (packets + [p])[1..] == packets[1..] + [p];
    }
  }

  /** Serving packets is folding the handlers over those that are dispatched, and writing what they reply. */
  lemma {:induction false} ServingIsFolding<S>(state: S, packets: seq<Packet>, dispatch: (S, Packet) -> (S, Reply))
    ensures ServedAll(state, packets, dispatch).0 == StateAfter(state, Dispatched(packets), dispatch)
    ensures ServedAll(state, packets, dispatch).1 == WrittenAfter(state, Dispatched(packets), dispatch)
  {
    hide Served, IsMemCheckAnswer, WrittenFor;
    if packets == [] {
      assert Dispatched(packets) == [];
    } else {
      var n := |packets| - 1;
      ServingIsFolding(state, packets[..n], dispatch);
      ServingOneMore(state, packets[..n], packets[n], dispatch);
      assert packets[..n] + [packets[n]] == packets;
    }
  }

  lemma ServingOneMore<S>(state: S, packets: seq<Packet>, p: Packet, dispatch: (S, Packet) -> (S, Reply))
    requires ServedAll(state, packets, dispatch).0 == StateAfter(state, Dispatched(packets), dispatch)
    requires ServedAll(state, packets, dispatch).1 == WrittenAfter(state, Dispatched(packets), dispatch)
    ensures ServedAll(state, packets + [p], dispatch).0 == StateAfter(state, Dispatched(packets + [p]), dispatch)
    ensures ServedAll(state, packets + [p], dispatch).1 == WrittenAfter(state, Dispatched(packets + [p]), dispatch)
  {
    hide ServedAll, Served, IsMemCheckAnswer, WrittenFor, StateAfter, WrittenAfter, Dispatched;
    ServedAllStep(state, packets, p, dispatch);
    ServedIsOneStep(ServedAll(state, packets, dispatch).0, p, dispatch);
    DispatchedOneMore(packets, p);
    if IsMemCheckAnswer(p) {
      assert Dispatched(packets) + [] == Dispatched(packets);
    } else {
      FoldOneMore(state, Dispatched(packets), p, dispatch);
    }
  }

  /** The answer to a handler's error decodes to the request's type and id, its TXN and an error code. */
  lemma ErrorDecodes(data: Bytes)
    requires Decoding(data).Complete? && EncodedLen(ErrorParams(Decoding(data).item)) < TWO32
    ensures var p := Decoding(data).item;
      Decoding(Encoded(p.typ, p.id, ErrorParams(p))) == Complete(Packet(p.typ, p.id, ErrorParams(p)), [])
  {
    hide Decoding, Encoded, EncodedLen, ParamsOf, TransmissibleParam, Ascii;
    var p := Decoding(data).item;
    DecodedTypeFits(data);
    DecodedParamsCanBeSent(data);
    ErrorParamsCanBeSent(p);
    RoundTripIff(Packet(p.typ, p.id, ErrorParams(p)));
  }

  lemma DecodedTypeFits(data: Bytes)
    requires Decoding(data).Complete?
    ensures var typ := Decoding(data).item.typ; |typ| <= 4 && (typ == [] || typ[|typ| - 1] != NUL)
  {
  }

  lemma DecodedParamsCanBeSent(data: Bytes)
    requires Decoding(data).Complete?
    ensures forall kv :: kv in Decoding(data).item.params ==> TransmissibleParam(kv)
  {
    hide TransmissibleParam, Split, LineParams;
    var payload := data[12..Uint32At(data[8..12])];
    SplitPartsLackSep(payload, NEWLINE);
    DecodedParamsAreTransmissible(Split(payload, NEWLINE));
  }

  lemma ErrorParamsCanBeSent(p: Packet)
    requires forall kv :: kv in p.params ==> TransmissibleParam(kv)
    ensures forall i :: 0 <= i < |ErrorParams(p)| ==> TransmissibleParam(ErrorParams(p)[i])
  {
    hide ParamsOf;
    if Ascii("TXN") in ParamsOf(p.params) {
      ReadValueIsWritten(p.params, Ascii("TXN"));
    }
  }

  /** One packet: the MemCheck answer is swallowed, anything else is dispatched. */
  method ServePacket<S>(state: S, p: Packet, dispatch: (S, Packet) -> (S, Reply)) returns (after: S, written: seq<Bytes>)
    ensures (after, written) == Served(state, p, dispatch)
  {
    after, written := state, [];
    var params := ParamsMap(p.params);
    var txn := if TXN in params then params[TXN] else [];
    if txn == MEM_CHECK && p.id == MEM_CHECK_ID {
      return;
    }
    var result := dispatch(state, p);
    after := result.0;
    var resp: Bytes;
    match result.1 {
      case HandlerError =>
        resp := Encode(p.typ, p.id, [KV(TXN, txn), KV(ERROR_CODE, ONE)]);
      case Reply(bytes) =>
        resp := bytes;
    }
    if |resp| > 0 {
      written := [resp];
    }
  }

  lemma Regroup<T>(a: seq<T>, b: seq<T>, c: seq<T>)
    ensures a + (b + c) == (a + b) + c
  {
  }

  /** The inner loop: serve complete packets until the buffer holds none. */
  method ServeBuffered<S>(buf: Bytes, ghost init: S, ghost before: seq<Packet>, state: S, ghost written: seq<Bytes>,
                          dispatch: (S, Packet) -> (S, Reply))
    returns (state': S, responses: seq<Bytes>, rest: Bytes, failed: bool)
    requires (state, written) == ServedAll(init, before, dispatch)
    ensures (state', written + responses) == ServedAll(init, before + PacketsIn(buf).items, dispatch)
    ensures failed == PacketsIn(buf).failed && (!failed ==> rest == PacketsIn(buf).rest)
  {
    hide ServedAll, Served, Decoding;
    DecodingIsIncremental();
    state', responses, rest, failed := state, [], buf, false;
    assert written + [] == written;
    ghost var done: seq<Packet> := [];
    assert before + done == before;
    BeforeNothing(Drain(Decoding, buf));
    while true
      invariant (state', written + responses) == ServedAll(init, before + done, dispatch)
      invariant !failed && Drain(Decoding, buf) == Before(done, Drain(Decoding, rest))
      decreases |rest|
    {
      var d := Decode(rest);
      match d {
        case Failed =>
          failed := true;
          assert done + [] == done;
          return;
        case Incomplete =>
          assert done + [] == done;
          return;
        case Complete(p, remaining) =>
          BeforeAgain(done, [p], Drain(Decoding, remaining));
          ServedAllStep(init, before + done, p, dispatch);
          Regroup(before, done, [p]);
          var more: seq<Bytes>;
          state', more := ServePacket(state', p, dispatch);
          Regroup(written, responses, more);
          responses := responses + more;
          done, rest := done + [p], remaining;
      }
    }
  }

  /** What the session writes: the challenge, or the response to a packet. */
  datatype Output = Challenge | Response(bytes: Bytes)

  function Outputs(responses: seq<Bytes>): (r: seq<Output>)
    ensures |r| == |responses| && forall i :: 0 <= i < |r| ==> r[i] == Response(responses[i])
  {
    seq(|responses|, i requires 0 <= i < |responses| => Response(responses[i]))
  }

  function ResponsesIn(outputs: seq<Output>): seq<Bytes> {
    if outputs == [] then []
    else
      var last := outputs[|outputs| - 1];
      ResponsesIn(outputs[..|outputs| - 1]) + (if last.Response? then [last.bytes] else [])
  }

  function ChallengesIn(outputs: seq<Output>): nat {
    if outputs == [] then 0
    else ChallengesIn(outputs[..|outputs| - 1]) + (if outputs[|outputs| - 1].Challenge? then 1 else 0)
  }

  /** The expired deadlines among the first n reads that find a challenge due. */
  function DueIn(chunks: seq<Read<Byte>>, due: nat -> bool, n: nat): nat
    requires n <= |chunks|
  {
    if n == 0 then 0 else DueIn(chunks, due, n - 1) + (if chunks[n - 1].Timeout? && due(n - 1) then 1 else 0)
  }

  lemma ChallengeWritten(outputs: seq<Output>)
    ensures ResponsesIn(outputs + [Challenge]) == ResponsesIn(outputs)
    ensures ChallengesIn(outputs + [Challenge]) == ChallengesIn(outputs) + 1
  {
    assert (outputs + [Challenge])[..|outputs|] == outputs;
  }

  lemma ResponseWritten(outputs: seq<Output>, bytes: Bytes)
    ensures ResponsesIn(outputs + [Response(bytes)]) == ResponsesIn(outputs) + [bytes]
    ensures ChallengesIn(outputs + [Response(bytes)]) == ChallengesIn(outputs)
  {
    assert (outputs + [Response(bytes)])[..|outputs|] == outputs;
  }

  lemma {:induction false} ResponsesWritten(outputs: seq<Output>, responses: seq<Bytes>)
    ensures ResponsesIn(outputs + Outputs(responses)) == ResponsesIn(outputs) + responses
    ensures ChallengesIn(outputs + Outputs(responses)) == ChallengesIn(outputs)
  {
    hide ResponsesIn, ChallengesIn;
    if responses == [] {
      assert outputs + Outputs(responses) == outputs;
    } else {
      var n := |responses| - 1;
      var front, last := Outputs(responses[..n]), Response(responses[n]);
      ResponsesWritten(outputs, responses[..n]);
      ResponseWritten(outputs + front, responses[n]);
      assert outputs + Outputs(responses) == (outputs + front) + [last];
      assert responses == responses[..n] + [responses[n]];
      Regroup(ResponsesIn(outputs), responses[..n], [responses[n]]);
    }
  }

  /** A challenge stands behind the first one and so many others, and behind these responses. */
  predicate ChallengeAt(written: seq<Output>, m: nat, others: nat, responses: seq<Bytes>) {
    m < |written| && written[m] == Challenge && ChallengesIn(written[..m]) == 1 + others && ResponsesIn(written[..m]) == responses
  }

  /** The challenge due at read t stands behind the earlier ones and the responses to the packets that were read before. */
  ghost predicate Placed<S>(written: seq<Output>, chunks: seq<Read<Byte>>, due: nat -> bool, t: nat,
                                  init: S, dispatch: (S, Packet) -> (S, Reply))
    requires t <= |chunks|
  {
    exists m: nat :: ChallengeAt(written, m, DueIn(chunks, due, t),
                            ServedAll(init, PacketsIn(StreamOf(chunks[..t])).items, dispatch).1)
  }

  lemma PlacedStays<S>(written: seq<Output>, more: seq<Output>, chunks: seq<Read<Byte>>, due: nat -> bool, t: nat,
                       init: S, dispatch: (S, Packet) -> (S, Reply))
    requires t <= |chunks| && Placed(written, chunks, due, t, init, dispatch)
    ensures Placed(written + more, chunks, due, t, init, dispatch)
  {
    hide ServedAll, PacketsIn, DueIn, ResponsesIn, ChallengesIn, StreamOf;
    var c, r := DueIn(chunks, due, t), ServedAll(init, PacketsIn(StreamOf(chunks[..t])).items, dispatch).1;
    var m: nat :| ChallengeAt(written, m, c, r);
    assert (written + more)[..m] == written[..m];
    assert ChallengeAt(written + more, m, c, r);
  }

  lemma AllPlacedStay<S>(written: seq<Output>, more: seq<Output>, chunks: seq<Read<Byte>>, due: nat -> bool, n: nat,
                         init: S, dispatch: (S, Packet) -> (S, Reply))
    requires n <= |chunks|
    requires forall t :: 0 <= t < n && chunks[t].Timeout? && due(t) ==> Placed(written, chunks, due, t, init, dispatch)
    ensures forall t :: 0 <= t < n && chunks[t].Timeout? && due(t) ==> Placed(written + more, chunks, due, t, init, dispatch)
  {
    hide Placed;
    forall t | 0 <= t < n && chunks[t].Timeout? && due(t) ensures Placed(written + more, chunks, due, t, init, dispatch) {
      PlacedStays(written, more, chunks, due, t, init, dispatch);
    }
  }

  lemma PlacedNow<S>(written: seq<Output>, chunks: seq<Read<Byte>>, due: nat -> bool, t: nat,
                     init: S, dispatch: (S, Packet) -> (S, Reply))
    requires t <= |chunks| && ChallengesIn(written) == 1 + DueIn(chunks, due, t)
    requires ResponsesIn(written) == ServedAll(init, PacketsIn(StreamOf(chunks[..t])).items, dispatch).1
    ensures Placed(written + [Challenge], chunks, due, t, init, dispatch)
  {
    hide ServedAll, PacketsIn, DueIn, ResponsesIn, ChallengesIn, StreamOf;
    assert (written + [Challenge])[..|written|] == written;
    assert ChallengeAt(written + [Challenge], |written|, DueIn(chunks, due, t), ResponsesIn(written));
  }

  lemma {:induction false} StreamOfOneMore(chunks: seq<Read<Byte>>, c: Read<Byte>)
    requires forall j :: 0 <= j < |chunks| ==> !chunks[j].Closed?
    ensures StreamOf(chunks + [c]) == StreamOf(chunks) + (if c.Data? then c.data else [])
  {
    if chunks == [] {
      assert [c][1..] == [] && chunks + [c] == [c];
    } else {
      assert (chunks + [c])[1..] == chunks[1..] + [c];
      StreamOfOneMore(chunks[1..], c);
    }
  }

  /** What the packets so far are, one read on. */
  lemma PacketsSoFar(chunks: seq<Read<Byte>>, i: nat, done: seq<Packet>, buf: Bytes)
    requires i < |chunks| && forall j :: 0 <= j < i ==> !chunks[j].Closed?
    requires Progresses(Decoding) && Drain(Decoding, StreamOf(chunks[..i])) == Drained(done, buf, false)
    ensures chunks[i].Timeout? ==> Drain(Decoding, StreamOf(chunks[..i + 1])) == Drained(done, buf, false)
    ensures chunks[i].Data? ==> Drain(Decoding, StreamOf(chunks[..i + 1])) == Before(done, Drain(Decoding, buf + chunks[i].data))
  {
    hide Drain, Decoding, StreamOf;
    assert chunks[..i + 1] == chunks[..i] + [chunks[i]];
    StreamOfOneMore(chunks[..i], chunks[i]);
    var stream := StreamOf(chunks[..i]);
    assert stream + [] == stream;
    if chunks[i].Data? {
      DecodingIsIncremental();
      DrainSplits(Decoding, stream, chunks[i].data);
    }
  }

  /**
   The session: however the stream is cut into reads, it serves the packets of the stream. The
   challenge is written first and again for every expired deadline that finds it due, behind the
   responses to the packets that came before.
   */
  method Run<S>(chunks: seq<Read<Byte>>, due: nat -> bool, init: S, dispatch: (S, Packet) -> (S, Reply))
    returns (state: S, written: seq<Output>, failed: bool, ghost served: nat)
    ensures (state, ResponsesIn(written)) == ServedAll(init, PacketsIn(StreamOf(chunks)).items, dispatch)
    ensures failed == PacketsIn(StreamOf(chunks)).failed
    ensures var packets := Dispatched(PacketsIn(StreamOf(chunks)).items);
      state == StateAfter(init, packets, dispatch) && ResponsesIn(written) == WrittenAfter(init, packets, dispatch)
    ensures written != [] && written[0] == Challenge
    ensures served <= |chunks| && ChallengesIn(written) == 1 + DueIn(chunks, due, served)
    ensures served == |chunks| || failed || chunks[served].Closed?
    ensures forall t :: 0 <= t < served && chunks[t].Timeout? && due(t) ==> Placed(written, chunks, due, t, init, dispatch)
  {
    hide ServedAll, ResponsesIn, ChallengesIn, DueIn, Drain, Decoding, Outputs, StreamOf, Placed, Dispatched, StateAfter, WrittenAfter,
      PacketsIn, Incremental, Progresses;
    ServingIsFolding(init, PacketsIn(StreamOf(chunks)).items, dispatch);
    DecodingIsIncremental();
    NothingBuffered();
    ChunkingDoesNotMatter(Decoding, [], chunks);
    assert [] + StreamOf(chunks) == StreamOf(chunks);
    state, written, failed := init, [Challenge], false;
    FirstChallenge();
    ghost var done: seq<Packet> := [];
    ghost var all := Reassembled(Decoding, [], chunks);
    var buf: Bytes := [];
    assert chunks[0..] == chunks && chunks[..0] == [];
    NothingRead();
    BeforeNothing(all);
    NothingServed(init, dispatch);
    NothingDue(chunks, due);
    served := 0;
    for i := 0 to |chunks|
      invariant (state, ResponsesIn(written)) == ServedAll(init, done, dispatch)
      invariant !failed && all == Before(done, Reassembled(Decoding, buf, chunks[i..]))
      invariant written != [] && written[0] == Challenge
      invariant served == i && ChallengesIn(written) == 1 + DueIn(chunks, due, i)
      invariant forall j :: 0 <= j < i ==> !chunks[j].Closed?
      invariant Drain(Decoding, StreamOf(chunks[..i])) == Drained(done, buf, false)
      invariant forall t :: 0 <= t < i && chunks[t].Timeout? && due(t) ==> Placed(written, chunks, due, t, init, dispatch)
    {
      PacketsSoFar(chunks, i, done, buf);
      assert chunks[i..][1..] == chunks[i + 1..];
      DueStep(chunks, due, i);
      match chunks[i] {
        case Closed =>
          assert done + [] == done;
          return;
        case Timeout =>
          if due(i) {
            ChallengeWritten(written);
            PlacedNow(written, chunks, due, i, init, dispatch);
            AllPlacedStay(written, [Challenge], chunks, due, i, init, dispatch);
            written := written + [Challenge];
          }
        case Data(bytes) =>
          buf := buf + bytes;
          ghost var d := Drain(Decoding, buf);
          BeforeAgain(done, d.items, Reassembled(Decoding, d.rest, chunks[i + 1..]));
          var responses: seq<Bytes>;
          state, responses, buf, failed := ServeBuffered(buf, init, done, state, ResponsesIn(written), dispatch);
          ResponsesWritten(written, responses);
          AllPlacedStay(written, Outputs(responses), chunks, due, i, init, dispatch);
          written := written + Outputs(responses);
          done := done + d.items;
          if failed {
            served := i + 1;
            return;
          }
      }
      served := i + 1;
    }
    assert done + [] == done;
  }

  lemma NothingBuffered()
    requires Progresses(Decoding)
    ensures Drain(Decoding, []) == Drained([], [], false)
  {
  }

  lemma NothingRead()
    ensures StreamOf<Byte>([]) == []
  {
  }

  lemma FirstChallenge()
    ensures ResponsesIn([Challenge]) == [] && ChallengesIn([Challenge]) == 1
  {
    assert [Challenge][..0] == [];
  }

  lemma NothingDue(chunks: seq<Read<Byte>>, due: nat -> bool)
    ensures DueIn(chunks, due, 0) == 0
  {
  }

  lemma DueStep(chunks: seq<Read<Byte>>, due: nat -> bool, i: nat)
    requires i < |chunks|
    ensures DueIn(chunks, due, i + 1) == DueIn(chunks, due, i) + (if chunks[i].Timeout? && due(i) then 1 else 0)
  {
  }

  lemma NothingServed<S>(state: S, dispatch: (S, Packet) -> (S, Reply))
    ensures ServedAll(state, [], dispatch) == (state, [])
  {
  }

  // ----- Delivery -----

  function Sent(packets: seq<Packet>): Bytes {
    if packets == [] then []
    else Encoded(packets[0].typ, packets[0].id, packets[0].params) + Sent(packets[1..])
  }

  /** Encoded packets sent back to back, and cut anywhere, arrive as the same packets. */
  lemma SentPacketsArrive(packets: seq<Packet>, chunks: seq<Read<Byte>>)
    requires forall i :: 0 <= i < |packets| ==> Transmissible(packets[i])
    requires StreamOf(chunks) == Sent(packets)
    ensures Progresses(Decoding) && Reassembled(Decoding, [], chunks) == Drained(packets, [], false)
  {
    DecodingIsIncremental();
    ChunkingDoesNotMatter(Decoding, [], chunks);
    assert [] + StreamOf(chunks) == StreamOf(chunks);
    DrainSent(packets);
  }

  lemma {:induction false} DrainSent(packets: seq<Packet>)
    requires Progresses(Decoding) && forall i :: 0 <= i < |packets| ==> Transmissible(packets[i])
    ensures Drain(Decoding, Sent(packets)) == Drained(packets, [], false)
  {
    if packets == [] {
    } else {
      DecodeEncodedPrefix(packets[0], Sent(packets[1..]));
      DrainSent(packets[1..]);
      assert [packets[0]] + packets[1..] == packets;
    }
  }
}
