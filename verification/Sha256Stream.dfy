/**
 The client's streaming SHA-256 (client/dll/MedgeNetClient.c): a context with
 eight state words, a 64-octet buffer and a bit count split over two 32-bit
 counters, fed with data of any lengths and finished with the padding.
 */
module Sha256Stream {
  import opened FileReads
  import opened Fips180
  import opened Octets

  // The rotations as the C macros write them, with shifts.

  function Ep0Bits(b: bv32): (r: bv32)
    ensures r == BigSigma0Bits(b)
  {
    ((b >> 2) | (b << 30)) ^ ((b >> 13) | (b << 19)) ^ ((b >> 22) | (b << 10))
  }

  function Ep0(x: Word): (r: Word)
    ensures r == BigSigma0(x)
  {
    Ep0Bits(x as bv32) as Word
  }

  function Ep1Bits(b: bv32): (r: bv32)
    ensures r == BigSigma1Bits(b)
  {
    ((b >> 6) | (b << 26)) ^ ((b >> 11) | (b << 21)) ^ ((b >> 25) | (b << 7))
  }

  function Ep1(x: Word): (r: Word)
    ensures r == BigSigma1(x)
  {
    Ep1Bits(x as bv32) as Word
  }

  function Sig0Bits(b: bv32): (r: bv32)
    ensures r == SmallSigma0Bits(b)
  {
    ((b >> 7) | (b << 25)) ^ ((b >> 18) | (b << 14)) ^ (b >> 3)
  }

  function Sig0(x: Word): (r: Word)
    ensures r == SmallSigma0(x)
  {
    Sig0Bits(x as bv32) as Word
  }

  function Sig1Bits(b: bv32): (r: bv32)
    ensures r == SmallSigma1Bits(b)
  {
    ((b >> 17) | (b << 15)) ^ ((b >> 19) | (b << 13)) ^ (b >> 10)
  }

  function Sig1(x: Word): (r: Word)
    ensures r == SmallSigma1(x)
  {
    Sig1Bits(x as bv32) as Word
  }

  method Schedule(block: Bytes) returns (m: array<Word>)
    requires |block| == BLOCK
    ensures fresh(m) && m[..] == Words(block, |K|)
  {
    hide Add, Sig0, Sig1, SmallSigma0, SmallSigma1;
    m := new Word[64];
    for i := 0 to 16
      invariant m[..i] == Words(block, i)
    {
      m[i] := block[4 * i] as int * 0x100_0000 + block[4 * i + 1] as int * 0x1_0000
            + block[4 * i + 2] as int * 0x100 + block[4 * i + 3] as int;
      assert m[..i + 1] == m[..i] + [m[i]];
    }
    for i := 16 to 64
      invariant m[..i] == Words(block, i)
    {
      m[i] := Add(Add(Add(Sig1(m[i - 2]), m[i - 7]), Sig0(m[i - 15])), m[i - 16]);
      assert m[..i + 1] == m[..i] + [m[i]];
    }
  }

  method RunRounds(h: HashValue, block: Bytes) returns (v: Vars)
    requires |block| == BLOCK
    ensures v == Rounds(Start(h), Words(block, |K|), |K|)
  {
    hide Add, Words;
    var m := Schedule(block);
    ghost var w := m[..];
    var a, b, c, d, e, f, g, hh := h[0], h[1], h[2], h[3], h[4], h[5], h[6], h[7];
    for i := 0 to |K|
      invariant Vars(a, b, c, d, e, f, g, hh) == Rounds(Start(h), w, i)
    {
      var t1 := Add(Add(Add(Add(hh, Ep1(e)), Ch(e, f, g)), K[i]), m[i]);
      var t2 := Add(Ep0(a), Maj(a, b, c));
      hh, g, f, e := g, f, e, Add(d, t1);
      d, c, b, a := c, b, a, Add(t1, t2);
    }
    v := Vars(a, b, c, d, e, f, g, hh);
  }

  /** The octets after the last complete block. */
  function Tail(data: Bytes): Bytes {
    data[|data| / BLOCK * BLOCK..]
  }

  lemma TailLength(data: Bytes)
    ensures |Tail(data)| == |data| % BLOCK
  {
  }

  /** The buffer starts with the open block. */
  ghost predicate Buffered(buffer: Bytes, tail: Bytes) {
    |tail| < BLOCK == |buffer| && buffer[..|tail|] == tail
  }

  // ----- The split bit counter -----

  ghost predicate Counts(lo: Uint32, hi: Uint32, n: nat) {
    lo + TWO32 * hi == 8 * n % TWO64
  }

  /** The low counter alone gives the fill of the buffer. */
  lemma CounterIndex(lo: Uint32, hi: Uint32, n: nat)
    requires Counts(lo, hi, n)
    ensures lo / 8 % BLOCK == n % BLOCK
  {
    var q := 8 * n / TWO64;
    assert lo == 8 * (n - 0x2000_0000 * hi - 0x2000_0000_0000_0000 * q);
  }

  function AddedLo(lo: Uint32, len: Uint32): Uint32 { (lo + 8 * len % TWO32) % TWO32 }

  function AddedHi(lo: Uint32, hi: Uint32, len: Uint32): Uint32 {
    var carried := if AddedLo(lo, len) < lo then (hi + 1) % TWO32 else hi;
    (carried + len / 0x2000_0000) % TWO32
  }

  /** Adding a length keeps the two counters the 64-bit bit count. */
  lemma CounterAdds(lo: Uint32, hi: Uint32, n: nat, len: Uint32)
    requires Counts(lo, hi, n)
    ensures Counts(AddedLo(lo, len), AddedHi(lo, hi, len), n + len)
  {
    var low := 8 * len % TWO32;
    assert 8 * len == low + TWO32 * (len / 0x2000_0000);
    var carry := if lo + low >= TWO32 then 1 else 0;
    assert AddedLo(lo, len) == lo + low - TWO32 * carry;
    var high := hi + carry + len / 0x2000_0000;
    assert AddedHi(lo, hi, len) == high % TWO32 by { TwiceReduced(hi, carry, len / 0x2000_0000); }
    SplitReduced(AddedLo(lo, len), high);
    SumReduced(8 * n, 8 * len);
  }

  lemma TwiceReduced(hi: Uint32, carry: nat, more: nat)
    requires carry <= 1
    ensures ((hi + carry) % TWO32 + more) % TWO32 == (hi + carry + more) % TWO32
  {
    if hi + carry == TWO32 {
      assert (more + TWO32) % TWO32 == more % TWO32;
    }
  }

  lemma SplitReduced(lo: Uint32, high: nat)
    ensures lo + TWO32 * (high % TWO32) == (lo + TWO32 * high) % TWO64
  {
    var q := high / TWO32;
    assert lo + TWO32 * high == lo + TWO32 * (high % TWO32) + TWO64 * q;
  }

  lemma SumReduced(x: nat, y: nat)
    ensures (x % TWO64 + y) % TWO64 == (x + y) % TWO64
  {
    var q := x / TWO64;
    assert x + y == x % TWO64 + y + TWO64 * q;
  }

  // ----- The 32-bit test of the block loop -----

  /** The loop's test at its k-th index does not wrap while the open block and the data stay below 2^32 octets. */
  lemma TestDoesNotWrap(start: nat, len: nat, k: nat)
    requires 0 < start <= BLOCK && start <= len < TWO32 - (BLOCK - start) && start + BLOCK * k <= len
    ensures start + BLOCK * k + 63 < TWO32
  {
    assert BLOCK * (k + 1) <= len + (BLOCK - start) < BLOCK * 0x400_0000;
  }

  /** At its k-th index, with less than a block left, the loop goes on. */
  predicate OverrunsAt(start: nat, len: nat, k: nat) {
    var i := start + BLOCK * k;
    i <= len < i + BLOCK && (i + 63) % TWO32 < len
  }

  /** The loop reads past the data exactly when the open block and the data reach 2^32 octets. */
  lemma OverrunsIff(start: nat, len: nat)
    requires 0 < start <= BLOCK && start <= len < TWO32
    ensures (exists k: nat :: OverrunsAt(start, len, k)) <==> (BLOCK - start) + len >= TWO32
  {
    var k := (len - start) / BLOCK;
    var i := start + BLOCK * k;
    assert i <= len < i + BLOCK;
    if (BLOCK - start) + len >= TWO32 {
      assert BLOCK * (k + 1) > len - start >= BLOCK * 0x400_0000 - BLOCK;
      assert i + 63 >= TWO32;
      assert OverrunsAt(start, len, k);
    } else {
      forall j: nat | OverrunsAt(start, len, j) ensures j == k {
        assert BLOCK * j <= len - start < BLOCK * (j + 1);
      }
      TestDoesNotWrap(start, len, k);
    }
  }

  /** With 63 octets in the buffer, the longest data make the loop go on with 63 octets left. */
  lemma LongestDataOverrun()
    ensures OverrunsAt(1, TWO32 - 1, 0x3FF_FFFF)
  {
    assert 1 + BLOCK * 0x3FF_FFFF == TWO32 - 63;
  }

  // ----- The context -----

  class Sha256Ctx {
    const state: array<Word>
    var bitcountLo: Uint32
    var bitcountHi: Uint32
    const buffer: array<Byte>
    /** What has been hashed so far. */
    ghost var message: Bytes

    ghost predicate Valid()
      reads this, state, buffer
    {
      && state.Length == 8 && buffer.Length == BLOCK
      && Counts(bitcountLo, bitcountHi, |message|)
      && state[..] == Blocks(H0, message)
      && Buffered(buffer[..], Tail(message))
    }

    constructor Init()
      ensures Valid() && fresh(state) && fresh(buffer) && message == []
    {
      bitcountLo, bitcountHi := 0, 0;
      state := new Word[8];
      buffer := new Byte[64];
      message := [];
      new;
      state[0], state[1], state[2], state[3] := 0x6A09E667, 0xBB67AE85, 0x3C6EF372, 0xA54FF53A;
      state[4], state[5], state[6], state[7] := 0x510E527F, 0x9B05688C, 0x1F83D9AB, 0x5BE0CD19;
      assert state[..] == H0;
    }

    method Transform(block: Bytes)
      requires state.Length == 8 && |block| == BLOCK
      modifies state
      ensures state[..] == Compress(old(state[..]), block)
    {
      hide Add, Rounds, Words;
      var v := RunRounds(state[..], block);
      state[0], state[1], state[2], state[3] := Add(state[0], v.a), Add(state[1], v.b), Add(state[2], v.c), Add(state[3], v.d);
      state[4], state[5], state[6], state[7] := Add(state[4], v.e), Add(state[5], v.f), Add(state[6], v.g), Add(state[7], v.h);
    }

    /** Copy data into the buffer from some index on. */
    method FillBuffer(index: nat, data: Bytes)
      requires index + |data| <= buffer.Length
      modifies buffer
      ensures buffer[..index + |data|] == old(buffer[..index]) + data
    {
      for i := 0 to |data|
        invariant buffer[..index + i] == old(buffer[..index]) + data[..i]
      {
        buffer[index + i] := data[i];
      }
    }

    /** Hash the complete blocks of some data from some index on. */
    method TransformBlocks(data: Bytes, start: nat) returns (i: nat)
      requires state.Length == 8 && 0 < start <= BLOCK && start <= |data| < TWO32 - (BLOCK - start)
      modifies state
      ensures start <= i <= |data| < i + BLOCK && Whole(data[start..i])
      ensures state[..] == Blocks(old(state[..]), data[start..i])
    {
      hide Compress;
      i := start;
      ghost var k: nat := 0;
      TestDoesNotWrap(start, |data|, k);
      while (i + 63) % TWO32 < |data|
        invariant start <= i <= |data| && Whole(data[start..i])
        invariant state[..] == Blocks(old(state[..]), data[start..i])
        invariant i == start + BLOCK * k && i + 63 < TWO32
        decreases |data| - i
      {
        var block := data[i..i + BLOCK];
        BlocksAppend(old(state[..]), data[start..i], block);
        assert data[start..i] + block == data[start..i + BLOCK];
        OneBlock(state[..], block);
        Transform(block);
        i, k := i + BLOCK, k + 1;
        TestDoesNotWrap(start, |data|, k);
      }
    }

    /** Add a length to the two bit counters; the index is the fill of the buffer before it. */
    method CountBits(len: Uint32) returns (index: nat)
      requires Counts(bitcountLo, bitcountHi, |message|)
      modifies this`bitcountLo, this`bitcountHi
      ensures index == |Tail(message)|
      ensures Counts(bitcountLo, bitcountHi, |message| + len)
    {
      hide Counts, Tail;
      CounterIndex(bitcountLo, bitcountHi, |message|);
      TailLength(message);
      CounterAdds(bitcountLo, bitcountHi, |message|, len);
      index := bitcountLo / 8 % BLOCK;
      var oldLo := bitcountLo;
      bitcountLo := (bitcountLo + 8 * len % TWO32) % TWO32;
      if bitcountLo < oldLo {
        bitcountHi := (bitcountHi + 1) % TWO32;
      }
      bitcountHi := (bitcountHi + len / 0x2000_0000) % TWO32;
    }

    method Update(data: Bytes)
      requires Valid() && |Tail(message)| + |data| < TWO32
      modifies this`bitcountLo, this`bitcountHi, this`message, state, buffer
      ensures Valid() && message == old(message) + data
    {
      hide Compress, Blocks, Tail, Counts, Whole;
      var index := CountBits(|data|);
      var partLen := BLOCK - index;
      if |data| >= partLen {
        FillBuffer(index, data[..partLen]);
        assert buffer[..] == buffer[..BLOCK] == Tail(message) + data[..partLen];
        Transform(buffer[..]);
        var i := TransformBlocks(data, partLen);
        AbsorbedWhole(message, data[..partLen], data[partLen..i], data[i..]);
        assert data[..partLen] + data[partLen..i] + data[i..] == data;
        FillBuffer(0, data[i..]);
      } else {
        AbsorbedPart(message, data);
        FillBuffer(index, data);
      }
      message := message + data;
      assert buffer[..][..|Tail(message)|] == buffer[..|Tail(message)|];
    }

    /** Pad, hash the last blocks and write the digest. */
    method Final(digest: array<Byte>)
      requires Valid() && 8 * |message| < TWO64
      requires digest.Length == 32 && digest != buffer
      modifies this`bitcountLo, this`bitcountHi, this`message, state, buffer, digest
      ensures digest[..] == Sha256(old(message))
    {
      hide Blocks, Tail, Padded;
      ghost var m := message;
      var hi, lo := bitcountHi, bitcountLo;
      var bits := ShiftOctets(hi) + ShiftOctets(lo);
      CounterIndex(lo, hi, |m|);
      var index := lo / 8 % BLOCK;
      var padLen := if index < 56 then 56 - index else 120 - index;
      PaddingThenBits(m, lo, hi, padLen);
      Update(PADDING[..padLen]);
      Update(bits);
      WriteDigest(state[..], digest);
    }
  }

  const PADDING: Bytes := [0x80] + seq(63, _ => 0)

  method WriteDigest(h: HashValue, digest: array<Byte>)
    requires digest.Length == 32
    modifies digest
    ensures digest[..] == WordOctets(h, 8)
  {
    for i := 0 to 8
      invariant digest[..4 * i] == WordOctets(h, i)
    {
      var octets := ShiftOctets(h[i]);
      digest[4 * i] := octets[0];
      digest[4 * i + 1] := octets[1];
      digest[4 * i + 2] := octets[2];
      digest[4 * i + 3] := octets[3];
      assert digest[..4 * i + 4] == digest[..4 * i] + octets;
    }
    assert digest[..] == digest[..32];
  }

  /** What `Final` appends is the standard's padding. */
  lemma PaddingThenBits(m: Bytes, lo: Uint32, hi: Uint32, padLen: nat)
    requires Counts(lo, hi, |m|) && 8 * |m| < TWO64
    requires var index := |m| % BLOCK; padLen == if index < 56 then 56 - index else 120 - index
    ensures padLen <= BLOCK && Padded(m) == m + PADDING[..padLen] + (PutUint32(hi) + PutUint32(lo))
  {
    PadLength(|m|, padLen);
    assert PADDING[..padLen] == [0x80] + seq(ZeroCount(|m|), _ => 0);
    LengthParts(8 * |m|, lo, hi);
    hide ZeroCount, Length64;
    assert m + ([0x80] + seq(ZeroCount(|m|), _ => 0)) + Length64(8 * |m|) == Padded(m);
  }

  lemma PadLength(n: nat, padLen: nat)
    requires var index := n % BLOCK; padLen == if index < 56 then 56 - index else 120 - index
    ensures padLen == 1 + ZeroCount(n)
  {
    var q := n / BLOCK;
    assert 55 - n == 55 - n % BLOCK - BLOCK * q;
  }

  lemma LengthParts(bits: nat, lo: Uint32, hi: Uint32)
    requires bits < TWO64 && lo + TWO32 * hi == bits % TWO64
    ensures Length64(bits) == PutUint32(hi) + PutUint32(lo)
  {
    hide PutUint32;
    assert bits / TWO32 == hi && bits % TWO32 == lo;
  }

  /** The four octets of a word, as the C shifts take them. */
  function ShiftOctets(n: Uint32): (r: Bytes)
    ensures r == PutUint32(n)
  {
    var n1 := n / 0x100;
    var n2 := n1 / 0x100;
    assert n / 0x1_0000 == n2 && n / 0x100_0000 == n2 / 0x100;
    [(n / 0x100_0000) as Byte, (n / 0x1_0000 % 0x100) as Byte, (n / 0x100 % 0x100) as Byte, (n % 0x100) as Byte]
  }

  // ----- Why the message may be cut anywhere -----

  lemma OneBlock(h: HashValue, block: Bytes)
    requires |block| == BLOCK
    ensures Blocks(h, block) == Compress(h, block)
  {
    hide Compress;
    assert block[..BLOCK] == block && block[BLOCK..] == [];
  }

  lemma OneBlockIsWhole(block: Bytes)
    requires |block| == BLOCK
    ensures Whole(block)
  {
  }

  lemma WholeAppend(a: Bytes, b: Bytes)
    requires Whole(a) && Whole(b)
    ensures Whole(a + b)
  {
    var p, q := |a| / BLOCK, |b| / BLOCK;
    assert |a + b| == BLOCK * (p + q);
  }

  /** A message is complete blocks, then its tail; the tail does not reach the hash value. */
  lemma WholeAndTail(whole: Bytes, tail: Bytes)
    requires Whole(whole) && |tail| < BLOCK
    ensures Tail(whole + tail) == tail && Blocks(H0, whole + tail) == Blocks(H0, whole)
  {
    hide Compress;
    assert |whole + tail| / BLOCK == |whole| / BLOCK;
    BlocksAppend(H0, whole, tail);
  }

  lemma WholeOf(m: Bytes) returns (whole: Bytes)
    ensures m == whole + Tail(m) && Whole(whole) && |Tail(m)| < BLOCK && Blocks(H0, m) == Blocks(H0, whole)
  {
    hide Blocks;
    whole := m[..|m| / BLOCK * BLOCK];
    assert m == whole + Tail(m);
    WholeAndTail(whole, Tail(m));
  }

  /** Closing the open block, hashing it and the complete blocks behind it hashes the longer message. */
  lemma AbsorbedWhole(m: Bytes, first: Bytes, middle: Bytes, last: Bytes)
    requires |Tail(m) + first| == BLOCK && Whole(middle) && |last| < BLOCK
    ensures Blocks(H0, m + (first + middle + last)) == Blocks(Compress(Blocks(H0, m), Tail(m) + first), middle)
    ensures Tail(m + (first + middle + last)) == last
  {
    hide Compress, Blocks, Tail, Whole;
    var whole := WholeOf(m);
    var open := Tail(m) + first;
    OneBlockIsWhole(open);
    BlocksAppend(H0, whole, open);
    OneBlock(Blocks(H0, whole), open);
    WholeAppend(whole, open);
    BlocksAppend(H0, whole + open, middle);
    WholeAppend(whole + open, middle);
    WholeAndTail(whole + open + middle, last);
    Regroup(whole, Tail(m), first, middle, last);
  }

  lemma Regroup(a: Bytes, b: Bytes, c: Bytes, d: Bytes, e: Bytes)
    ensures a + b + (c + d + e) == a + (b + c) + d + e
  {
  }

  lemma AbsorbedPart(m: Bytes, data: Bytes)
    requires |Tail(m) + data| < BLOCK
    ensures Blocks(H0, m + data) == Blocks(H0, m) && Tail(m + data) == Tail(m) + data
  {
    hide Compress, Blocks, Tail, Whole;
    var whole := WholeOf(m);
    WholeAndTail(whole, Tail(m) + data);
    assert m + data == whole + (Tail(m) + data);
  }

  // ----- Hashing a file -----

  /** Unless a read fails, the digest of the file's content, however it was delivered. */
  method HashFile(file: Bytes, outcome: nat -> Outcome, digest: array<Byte>) returns (ok: bool)
    requires 8 * |file| < TWO64 && digest.Length == 32
    modifies digest
    ensures ok ==> digest[..] == Sha256(file)
    ensures !ok ==> digest[..] == old(digest[..]) && exists k :: outcome(k).Fails?
  {
    var ctx := new Sha256Ctx.Init();
    var at, calls := 0, 0;
    while true
      invariant at <= |file| && ctx.Valid() && ctx.message == file[..at]
      invariant fresh(ctx) && fresh(ctx.state) && fresh(ctx.buffer)
      invariant digest[..] == old(digest[..])
      decreases |file| - at
    {
      match ReadFile(file, at, 1024, outcome(calls)) {
        case None =>
          return false;
        case Some(buffer) =>
          if |buffer| == 0 {
            break;
          }
          ctx.Update(buffer);
          assert file[..at] + buffer == file[..at + |buffer|];
          at, calls := at + |buffer|, calls + 1;
      }
    }
    assert file[..at] == file;
    ctx.Final(digest);
    ok := true;
  }
}
