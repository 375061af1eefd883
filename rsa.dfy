/**
 * Block chunking and buffer sizing of the RSA wrapper (crypto/rsa.cpp).
 *
 * Each encode/decode routine splits the source into blocks sized by the key
 * and the padding, hands every block to OpenSSL and adds up the per-block
 * output lengths. The key size reported by RSA_size is a parameter, and each
 * OpenSSL call is an oracle `op` that maps the block it is given (offset and
 * length within the source) to the length it reports; a negative length is
 * a failure.
 */
module Rsa {
  import opened Errors

  /** The padding modes the routines switch on; any other value is "unknown". */
  datatype Padding = Pkcs1 | NoPadding | X931 | OtherPadding(code: int)

  /** What the routines see of an Rsa object: RSA_size of each key and the padding in use. */
  datatype KeyPair = KeyPair(pubSize: int, priSize: int, padding: Padding)

  /** A key size RSA_size can report: the decode routines cut by it, so it must be positive. */
  predicate KeySizeOk(k: int) {
    k > 0
  }

  /** The result of a raw-pointer routine: a byte count or an error status. */
  datatype Reply = Bytes(count: int) | Error(status: Status)

  /** A call to OpenSSL: `len` source bytes starting at `offset`. */
  datatype Block = Block(offset: nat, len: nat)

  type Oracle = Block -> int

  /**
   * Largest plaintext block for key size k: RFC 8017 section 7.2.1 allows at
   * most k-11 octets under PKCS#1 v1.5; raw RSA takes k, X9.31 takes k-2.
   */
  function PlainBlockSize(k: int, padding: Padding): (r: Option<int>)
    ensures r.None? <==> padding.OtherPadding?
    ensures padding == Pkcs1 ==> r == Some(k - 11)
    ensures padding == NoPadding ==> r == Some(k)
    ensures padding == X931 ==> r == Some(k - 2)
    ensures r.Some? ==> r.value <= k
  {
    match padding
    case Pkcs1 => Some(k - 11)
    case NoPadding => Some(k)
    case X931 => Some(k - 2)
    case OtherPadding(_) => None
  }

  /**
   * The encode routines cut by the plaintext block size, so it must be
   * positive: k > 11 under PKCS#1, k > 2 under X9.31, k > 0 raw. An unknown
   * padding is rejected before any cut.
   */
  predicate BlockSizeOk(k: int, padding: Padding) {
    padding.OtherPadding? || PlainBlockSize(k, padding).value > 0
  }

  /** Ceiling division, computed as the source does: quotient plus one when there is a remainder. */
  function CeilDiv(n: nat, d: nat): (r: nat)
    requires d > 0
    ensures (r - 1) * d < n <= r * d
    ensures n == 0 <==> r == 0
  {
    n / d + (if n % d != 0 then 1 else 0)
  }

  /** x * d < 0 with d > 0 forces x < 0. */
  lemma MulNegative(x: int, d: int)
    requires d > 0 && x * d < 0
    ensures x < 0
  {
  }

  lemma CeilDivUnique(n: nat, d: nat, r1: int, r2: int)
    requires d > 0
    requires (r1 - 1) * d < n <= r1 * d
    requires (r2 - 1) * d < n <= r2 * d
    ensures r1 == r2
  {
    assert (r1 - 1 - r2) * d == (r1 - 1) * d - r2 * d;
    assert (r2 - 1 - r1) * d == (r2 - 1) * d - r1 * d;
    MulNegative(r1 - 1 - r2, d);
    MulNegative(r2 - 1 - r1, d);
  }

  // ---------------------------------------------------------------------
  // The block sequence a routine feeds to OpenSSL
  // ---------------------------------------------------------------------

  /**
   * The blocks of `n` source bytes from `offset`: full blocks of `size` while
   * more than `size` bytes remain, then one final block with the rest.
   */
  function Chunks(offset: nat, n: nat, size: nat): (bs: seq<Block>)
    requires size > 0 && n > 0
    ensures |bs| > 0 && bs[0].offset == offset
    ensures bs[|bs| - 1].offset + bs[|bs| - 1].len == offset + n
    decreases n
  {
    if n > size then [Block(offset, size)] + Chunks(offset + size, n - size, size)
    else [Block(offset, n)]
  }

  function Last<T>(s: seq<T>): T
    requires |s| > 0
  {
    s[|s| - 1]
  }

  /** Total number of source bytes the blocks cover. */
  function SumLen(bs: seq<Block>): nat {
    if bs == [] then 0 else bs[0].len + SumLen(bs[1..])
  }

  /** Sum of the lengths the oracle reports for the blocks. */
  function SumOut(bs: seq<Block>, op: Oracle): int {
    if bs == [] then 0 else op(bs[0]) + SumOut(bs[1..], op)
  }

  /**
   * Every block but the last is exactly `size` bytes, the last is 1..size
   * bytes, the blocks are contiguous from `offset` and end at `offset + n`.
   */
  predicate Shaped(bs: seq<Block>, offset: nat, n: nat, size: nat) {
    && |bs| > 0
    && bs[0].offset == offset
    && (forall i | 0 <= i < |bs| - 1 :: bs[i].len == size && bs[i + 1].offset == bs[i].offset + size)
    && 0 < Last(bs).len <= size
    && Last(bs).offset + Last(bs).len == offset + n
  }

  /** The blocks `Chunks` cuts have the shape of the source loop. */
  lemma {:induction false} ChunksShape(offset: nat, n: nat, size: nat)
    requires size > 0 && n > 0
    ensures Shaped(Chunks(offset, n, size), offset, n, size)
    decreases n
  {
    if n > size {
      ChunksShape(offset + size, n - size, size);
      ShapedCons(offset, n, size, Chunks(offset + size, n - size, size));
    }
  }

  /** A full block in front of the shape of the remaining bytes gives the shape of them all. */
  lemma ShapedCons(offset: nat, n: nat, size: nat, rest: seq<Block>)
    requires n > size && Shaped(rest, offset + size, n - size, size)
    ensures Shaped([Block(offset, size)] + rest, offset, n, size)
  {
    var bs := [Block(offset, size)] + rest;
    assert Last(bs) == Last(rest);
    forall i | 0 <= i < |bs| - 1
      ensures bs[i].len == size && bs[i + 1].offset == bs[i].offset + size
    {
      if i > 0 {
        assert bs[i] == rest[i - 1] && bs[i + 1] == rest[i];
      }
    }
  }

  /** The block lengths add up to the number of source bytes. */
  lemma {:induction false} ChunksCoverSource(offset: nat, n: nat, size: nat)
    requires size > 0 && n > 0
    ensures SumLen(Chunks(offset, n, size)) == n
    decreases n
  {
    if n > size {
      ChunksCoverSource(offset + size, n - size, size);
      var bs := Chunks(offset, n, size);
      assert bs[1..] == Chunks(offset + size, n - size, size);
    }
  }

  /** Taking one block off n > size bytes takes one off the ceiling. */
  lemma CeilDivStep(n: nat, size: nat, r: nat)
    requires size > 0 && n > size && r == CeilDiv(n - size, size)
    ensures r + 1 == CeilDiv(n, size)
  {
    assert (r + 1 - 1) * size == (r - 1) * size + size;
    assert (r + 1) * size == r * size + size;
    CeilDivUnique(n, size, r + 1, CeilDiv(n, size));
  }

  /** There are ceil(n / size) blocks. */
  lemma {:induction false} ChunksCount(offset: nat, n: nat, size: nat)
    requires size > 0 && n > 0
    ensures |Chunks(offset, n, size)| == CeilDiv(n, size)
    decreases n
  {
    if n > size {
      ChunksCount(offset + size, n - size, size);
      var r := CeilDiv(n - size, size);
      assert |Chunks(offset, n, size)| == r + 1 by {
        assert Chunks(offset, n, size) == [Block(offset, size)] + Chunks(offset + size, n - size, size);
      }
      CeilDivStep(n, size, r);
    }
  }

  // ---------------------------------------------------------------------
  // Feeding the blocks to OpenSSL
  // ---------------------------------------------------------------------

  /**
   * The total the routines return for a block sequence: the sum of the
   * reported lengths, or None (UNKNOWN_ERROR) at the first negative one.
   */
  function Feed(bs: seq<Block>, op: Oracle): (t: Option<int>)
    ensures t.None? ==> bs != []
    ensures t.Some? && bs != [] ==> op(bs[0]) >= 0
  {
    if bs == [] then Some(0)
    else if op(bs[0]) < 0 then None
    else Shift(Feed(bs[1..], op), op(bs[0]))
  }

  /** Adds `d` to a total; a failure stays a failure. */
  function Shift(t: Option<int>, d: int): Option<int> {
    match t
    case None => None
    case Some(v) => Some(d + v)
  }

  /** The calls the routines make: every block up to and including the first failing one. */
  function Attempted(bs: seq<Block>, op: Oracle): seq<Block> {
    if bs == [] then []
    else if op(bs[0]) < 0 then [bs[0]]
    else [bs[0]] + Attempted(bs[1..], op)
  }

  predicate AllSucceed(bs: seq<Block>, op: Oracle) {
    forall i | 0 <= i < |bs| :: op(bs[i]) >= 0
  }

  /** Feeding succeeds exactly when no block fails, and then returns the sum of the outputs. */
  lemma {:induction false} FeedSucceeds(bs: seq<Block>, op: Oracle)
    ensures Feed(bs, op).Some? <==> AllSucceed(bs, op)
    ensures Feed(bs, op).Some? ==> Feed(bs, op).value == SumOut(bs, op)
  {
    if bs != [] {
      FeedSucceeds(bs[1..], op);
      if AllSucceed(bs, op) {
        assert forall i | 0 <= i < |bs[1..]| :: bs[1..][i] == bs[i + 1];
      } else {
        var j :| 0 <= j < |bs| && op(bs[j]) < 0;
        if j > 0 {
          assert bs[1..][j - 1] == bs[j];
        }
      }
    }
  }

  /**
   * When feeding fails, the calls made are a prefix of the blocks that ends
   * at the first failing block: nothing after it is attempted.
   */
  lemma {:induction false} FeedStopsAtFirstFailure(bs: seq<Block>, op: Oracle)
    requires Feed(bs, op).None?
    ensures StopsAtFirstFailure(bs, Attempted(bs, op), op)
  {
    if op(bs[0]) >= 0 {
      FeedStopsAtFirstFailure(bs[1..], op);
      assert Attempted(bs, op) == [bs[0]] + Attempted(bs[1..], op);
      assert bs == [bs[0]] + bs[1..];
      StopsAtFirstFailureCons(bs[0], bs[1..], Attempted(bs[1..], op), op);
    }
  }

  /** `calls` is a prefix of `bs` whose last block fails and whose other blocks succeed. */
  predicate StopsAtFirstFailure(bs: seq<Block>, calls: seq<Block>, op: Oracle) {
    && 0 < |calls| <= |bs|
    && calls == bs[..|calls|]
    && op(Last(calls)) < 0
    && AllSucceed(calls[..|calls| - 1], op)
  }

  /** A succeeding block in front of both sequences keeps the prefix stopping at the first failure. */
  lemma StopsAtFirstFailureCons(b: Block, tail: seq<Block>, rest: seq<Block>, op: Oracle)
    requires StopsAtFirstFailure(tail, rest, op) && op(b) >= 0
    ensures StopsAtFirstFailure([b] + tail, [b] + rest, op)
  {
    var calls := [b] + rest;
    assert calls[..|calls| - 1] == [b] + rest[..|rest| - 1];
    assert ([b] + tail)[..|calls|] == [b] + tail[..|rest|];
  }

  lemma ShiftShift(t: Option<int>, a: int, b: int)
    ensures Shift(Shift(t, a), b) == Shift(t, b + a)
  {
  }

  /**
   * The block sequence with its final block stretched to `size` bytes: what
   * privateEncode feeds to OpenSSL as written (crypto/rsa.cpp:273).
   */
  function StretchLast(bs: seq<Block>, size: nat): (r: seq<Block>)
    requires |bs| > 0
  {
    bs[..|bs| - 1] + [Block(Last(bs).offset, size)]
  }

  /** The blocks the shared loop feeds for `n` bytes from `offset`. */
  function Schedule(offset: nat, n: nat, size: nat, stretchLast: bool): seq<Block>
    requires size > 0 && n > 0
  {
    if stretchLast then StretchLast(Chunks(offset, n, size), size) else Chunks(offset, n, size)
  }

  /** One turn of the loop peels one full block off the schedule. */
  lemma ScheduleStep(offset: nat, n: nat, size: nat, stretchLast: bool)
    requires size > 0 && n > size
    ensures Schedule(offset, n, size, stretchLast)
      == [Block(offset, size)] + Schedule(offset + size, n - size, size, stretchLast)
  {
    var rest := Chunks(offset + size, n - size, size);
    assert Chunks(offset, n, size) == [Block(offset, size)] + rest;
    if stretchLast {
      assert ([Block(offset, size)] + rest)[..|rest|] == [Block(offset, size)] + rest[..|rest| - 1];
    }
  }

  /**
   * The state of the shared loop: the total of the whole schedule is `sum`
   * plus the total of what remains, and its calls are `done` followed by
   * the calls still to come.
   */
  predicate Progress(whole: seq<Block>, done: seq<Block>, sum: int, from: nat, remaining: nat, size: nat, stretchLast: bool, op: Oracle) {
    && size > 0 && remaining > 0
    && Feed(whole, op) == Shift(Feed(Schedule(from, remaining, size, stretchLast), op), sum)
    && Attempted(whole, op) == done + Attempted(Schedule(from, remaining, size, stretchLast), op)
  }

  /** A failing full-block call in the loop: the whole schedule fails there. */
  lemma LoopFails(whole: seq<Block>, done: seq<Block>, sum: int, from: nat, remaining: nat, size: nat, stretchLast: bool, op: Oracle)
    requires Progress(whole, done, sum, from, remaining, size, stretchLast, op) && remaining > size
    requires op(Block(from, size)) < 0
    ensures Feed(whole, op) == None && Attempted(whole, op) == done + [Block(from, size)]
  {
    ScheduleStep(from, remaining, size, stretchLast);
  }

  /** A succeeding full-block call in the loop: the block joins the calls made and its output the sum. */
  lemma LoopSucceeds(whole: seq<Block>, done: seq<Block>, sum: int, from: nat, remaining: nat, size: nat, stretchLast: bool, op: Oracle)
    requires Progress(whole, done, sum, from, remaining, size, stretchLast, op) && remaining > size
    requires op(Block(from, size)) >= 0
    ensures Progress(whole, done + [Block(from, size)], sum + op(Block(from, size)), from + size, remaining - size, size, stretchLast, op)
  {
    var b := Block(from, size);
    var rest := Schedule(from + size, remaining - size, size, stretchLast);
    ScheduleStep(from, remaining, size, stretchLast);
    assert ([b] + rest)[1..] == rest;
    ShiftShift(Feed(rest, op), op(b), sum);
    assert done + ([b] + Attempted(rest, op)) == (done + [b]) + Attempted(rest, op);
  }

  /** The call after the loop is the schedule's last block. */
  lemma LoopFinal(whole: seq<Block>, done: seq<Block>, sum: int, from: nat, remaining: nat, size: nat, stretchLast: bool, op: Oracle)
    requires Progress(whole, done, sum, from, remaining, size, stretchLast, op) && remaining <= size
    ensures var b := Block(from, if stretchLast then size else remaining);
      && Feed(whole, op) == (if op(b) < 0 then None else Some(sum + op(b)))
      && Attempted(whole, op) == done + [b]
  {
    var b := Block(from, if stretchLast then size else remaining);
    assert Schedule(from, remaining, size, stretchLast) == [b];
    assert [b][1..] == [];
    assert Attempted([b], op) == [b] by {
      assert [b] + Attempted([], op) == [b];
    }
  }

  /**
   * The loop shared by the four routines: call the oracle on a full block
   * while more than `size` bytes remain, then once on the remainder (or, when
   * `stretchLast`, on `size` bytes again). Aborts at the first failure.
   */
  method FeedBlocks(srcLen: nat, size: nat, op: Oracle, stretchLast: bool)
    returns (total: Option<int>, ghost calls: seq<Block>)
    requires srcLen > 0 && size > 0
    ensures total == Feed(Schedule(0, srcLen, size, stretchLast), op)
    ensures calls == Attempted(Schedule(0, srcLen, size, stretchLast), op)
  {
    ghost var whole := Schedule(0, srcLen, size, stretchLast);
    var from: nat := 0;
    var remaining: nat := srcLen;
    var sum := 0;
    calls := [];
    while remaining > size
      invariant Progress(whole, calls, sum, from, remaining, size, stretchLast, op)
      decreases remaining
    {
      var b := Block(from, size);
      var len := op(b);
      if len < 0 {
        LoopFails(whole, calls, sum, from, remaining, size, stretchLast, op);
        return None, calls + [b];
      }
      LoopSucceeds(whole, calls, sum, from, remaining, size, stretchLast, op);
      sum := sum + len;
      calls := calls + [b];
      from := from + size;
      remaining := remaining - size;
    }
    var b := Block(from, if stretchLast then size else remaining);
    LoopFinal(whole, calls, sum, from, remaining, size, stretchLast, op);
    var len := op(b);
    calls := calls + [b];
    total := if len < 0 then None else Some(sum + len);
  }

  function ToReply(t: Option<int>): Reply {
    match t
    case None => Error(UnknownError)
    case Some(n) => Bytes(n)
  }

  /** The argument check every raw-pointer routine makes first. */
  predicate BadArgs(out: bool, src: bool, srcLen: uint32) {
    !out || !src || srcLen == 0
  }

  // ---------------------------------------------------------------------
  // The four raw-pointer routines. `out` and `src` say whether the pointer
  // is non-null.
  // ---------------------------------------------------------------------

  /** Blocks publicEncode feeds to RSA_public_encrypt. */
  function EncodeChunks(k: int, padding: Padding, srcLen: uint32): seq<Block>
    requires BlockSizeOk(k, padding) && !padding.OtherPadding? && srcLen > 0
  {
    Chunks(0, srcLen, PlainBlockSize(k, padding).value)
  }

  /** Blocks a decode routine feeds to RSA_*_decrypt: key-size blocks and a final 1..k remainder, whatever the padding. */
  function DecodeChunks(k: int, srcLen: uint32): seq<Block>
    requires KeySizeOk(k) && srcLen > 0
  {
    Chunks(0, srcLen, k)
  }

  method PublicEncode(keys: KeyPair, out: bool, src: bool, srcLen: uint32, op: Oracle)
    returns (r: Reply, ghost calls: seq<Block>)
    requires BlockSizeOk(keys.pubSize, keys.padding)
    ensures BadArgs(out, src, srcLen) ==> r == Error(InvalidParam)
    ensures BadArgs(out, src, srcLen) ==> calls == []
    ensures !BadArgs(out, src, srcLen) && keys.padding.OtherPadding? ==> r == Error(UnknownError)
    ensures !BadArgs(out, src, srcLen) && keys.padding.OtherPadding? ==> calls == []
    ensures !BadArgs(out, src, srcLen) && !keys.padding.OtherPadding? ==>
      var bs := EncodeChunks(keys.pubSize, keys.padding, srcLen);
      r == ToReply(Feed(bs, op))
    ensures !BadArgs(out, src, srcLen) && !keys.padding.OtherPadding? ==>
      var bs := EncodeChunks(keys.pubSize, keys.padding, srcLen);
      calls == Attempted(bs, op)
  {
    if BadArgs(out, src, srcLen) {
      return Error(InvalidParam), [];
    }
    var realLen := PlainBlockSize(keys.pubSize, keys.padding);
    if realLen.None? {
      return Error(UnknownError), [];
    }
    var total;
    total, calls := FeedBlocks(srcLen, realLen.value, op, false);
    r := ToReply(total);
  }

  method PublicDecode(keys: KeyPair, out: bool, src: bool, srcLen: uint32, op: Oracle)
    returns (r: Reply, ghost calls: seq<Block>)
    requires KeySizeOk(keys.pubSize)
    ensures BadArgs(out, src, srcLen) ==> r == Error(InvalidParam)
    ensures BadArgs(out, src, srcLen) ==> calls == []
    ensures !BadArgs(out, src, srcLen) ==>
      var bs := DecodeChunks(keys.pubSize, srcLen);
      r == ToReply(Feed(bs, op))
    ensures !BadArgs(out, src, srcLen) ==>
      var bs := DecodeChunks(keys.pubSize, srcLen);
      calls == Attempted(bs, op)
  {
    if BadArgs(out, src, srcLen) {
      return Error(InvalidParam), [];
    }
    var total;
    total, calls := FeedBlocks(srcLen, keys.pubSize, op, false);
    r := ToReply(total);
  }

  /** privateEncode as written: its final call passes a whole block of `metaSize` bytes. */
  method PrivateEncodeAsWritten(keys: KeyPair, out: bool, src: bool, srcLen: uint32, op: Oracle)
    returns (r: Reply, ghost calls: seq<Block>)
    requires BlockSizeOk(keys.priSize, keys.padding)
    ensures BadArgs(out, src, srcLen) ==> r == Error(InvalidParam)
    ensures BadArgs(out, src, srcLen) ==> calls == []
    ensures !BadArgs(out, src, srcLen) && keys.padding.OtherPadding? ==> r == Error(UnknownError)
    ensures !BadArgs(out, src, srcLen) && keys.padding.OtherPadding? ==> calls == []
    ensures !BadArgs(out, src, srcLen) && !keys.padding.OtherPadding? ==>
      var metaSize := PlainBlockSize(keys.priSize, keys.padding).value;
      var bs := Schedule(0, srcLen, metaSize, true);
      r == ToReply(Feed(bs, op))
    ensures !BadArgs(out, src, srcLen) && !keys.padding.OtherPadding? ==>
      var metaSize := PlainBlockSize(keys.priSize, keys.padding).value;
      var bs := Schedule(0, srcLen, metaSize, true);
      calls == Attempted(bs, op)
  {
    if BadArgs(out, src, srcLen) {
      return Error(InvalidParam), [];
    }
    var metaSize := PlainBlockSize(keys.priSize, keys.padding);
    if metaSize.None? {
      return Error(UnknownError), [];
    }
    var total;
    total, calls := FeedBlocks(srcLen, metaSize.value, op, true);
    r := ToReply(total);
  }

  /** privateEncode with its final call given the remaining bytes, as publicEncode does. */
  method PrivateEncode(keys: KeyPair, out: bool, src: bool, srcLen: uint32, op: Oracle)
    returns (r: Reply, ghost calls: seq<Block>)
    requires BlockSizeOk(keys.priSize, keys.padding)
    ensures BadArgs(out, src, srcLen) ==> r == Error(InvalidParam)
    ensures BadArgs(out, src, srcLen) ==> calls == []
    ensures !BadArgs(out, src, srcLen) && keys.padding.OtherPadding? ==> r == Error(UnknownError)
    ensures !BadArgs(out, src, srcLen) && keys.padding.OtherPadding? ==> calls == []
    ensures !BadArgs(out, src, srcLen) && !keys.padding.OtherPadding? ==>
      var bs := EncodeChunks(keys.priSize, keys.padding, srcLen);
      r == ToReply(Feed(bs, op))
    ensures !BadArgs(out, src, srcLen) && !keys.padding.OtherPadding? ==>
      var bs := EncodeChunks(keys.priSize, keys.padding, srcLen);
      calls == Attempted(bs, op)
  {
    if BadArgs(out, src, srcLen) {
      return Error(InvalidParam), [];
    }
    var metaSize := PlainBlockSize(keys.priSize, keys.padding);
    if metaSize.None? {
      return Error(UnknownError), [];
    }
    var total;
    total, calls := FeedBlocks(srcLen, metaSize.value, op, false);
    r := ToReply(total);
  }

  method PrivateDecode(keys: KeyPair, out: bool, src: bool, srcLen: uint32, op: Oracle)
    returns (r: Reply, ghost calls: seq<Block>)
    requires KeySizeOk(keys.priSize)
    ensures BadArgs(out, src, srcLen) ==> r == Error(InvalidParam)
    ensures BadArgs(out, src, srcLen) ==> calls == []
    ensures !BadArgs(out, src, srcLen) ==>
      var bs := DecodeChunks(keys.priSize, srcLen);
      r == ToReply(Feed(bs, op))
    ensures !BadArgs(out, src, srcLen) ==>
      var bs := DecodeChunks(keys.priSize, srcLen);
      calls == Attempted(bs, op)
  {
    if BadArgs(out, src, srcLen) {
      return Error(InvalidParam), [];
    }
    var total;
    total, calls := FeedBlocks(srcLen, keys.priSize, op, false);
    r := ToReply(total);
  }

  /** In a shaped block sequence from 0, block i starts at i * size. */
  lemma ChunkOffsets(bs: seq<Block>, size: nat)
    requires |bs| > 0 && bs[0].offset == 0
    requires forall i | 0 <= i < |bs| - 1 :: bs[i].len == size && bs[i + 1].offset == bs[i].offset + size
    ensures forall i | 0 <= i < |bs| :: bs[i].offset == i * size
  {
    forall i | 0 <= i < |bs|
      ensures bs[i].offset == i * size
    {
      ChunkOffsetAt(bs, size, i);
    }
  }

  lemma {:induction false} ChunkOffsetAt(bs: seq<Block>, size: nat, i: nat)
    requires i < |bs| && bs[0].offset == 0
    requires forall j | 0 <= j < |bs| - 1 :: bs[j].len == size && bs[j + 1].offset == bs[j].offset + size
    ensures bs[i].offset == i * size
    decreases i
  {
    if i > 0 {
      ChunkOffsetAt(bs, size, i - 1);
      assert bs[i].offset == bs[i - 1].offset + size;
      assert (i - 1) * size + size == i * size;
    }
  }

  lemma MulZero(x: int, d: int)
    requires d > 0 && -d < x * d <= 0
    ensures x == 0
  {
  }

  lemma ModOfMultiple(q: nat, d: nat)
    requires d > 0
    ensures (q * d) % d == 0
  {
    var n := q * d;
    var x := n / d - q;
    assert d * x == d * (n / d) - d * q;
    MulZero(x, d);
  }

  /** A schedule from 0 whose last block is full covers a whole number of blocks. */
  lemma LastFullMeansMultiple(n: nat, size: nat)
    requires size > 0 && n > 0
    ensures Last(Chunks(0, n, size)).len == size ==> n % size == 0
  {
    var bs := Chunks(0, n, size);
    ChunksShape(0, n, size);
    ChunkOffsets(bs, size);
    var m := |bs| - 1;
    assert Last(bs).offset == m * size;
    if Last(bs).len == size {
      assert n == (m + 1) * size;
      ModOfMultiple(m + 1, size);
    }
  }

  /** Every block lies within [lo, hi). */
  predicate Inside(bs: seq<Block>, lo: nat, hi: nat) {
    forall i | 0 <= i < |bs| :: lo <= bs[i].offset && bs[i].offset + bs[i].len <= hi
  }

  lemma {:induction false} ChunksInside(offset: nat, n: nat, size: nat)
    requires size > 0 && n > 0
    ensures Inside(Chunks(offset, n, size), offset, offset + n)
    decreases n
  {
    if n > size {
      ChunksInside(offset + size, n - size, size);
      var rest := Chunks(offset + size, n - size, size);
      var bs := Chunks(offset, n, size);
      assert bs == [Block(offset, size)] + rest;
      forall i | 0 <= i < |bs|
        ensures offset <= bs[i].offset && bs[i].offset + bs[i].len <= offset + n
      {
        if i > 0 {
          assert bs[i] == rest[i - 1];
        }
      }
    }
  }

  /**
   * The over-read of privateEncode as written: whenever the source is not a
   * whole number of blocks, its last call reaches past the end of the source,
   * while every block of the corrected schedule stays inside it.
   */
  lemma PrivateEncodeOverreads(keys: KeyPair, srcLen: uint32)
    requires BlockSizeOk(keys.priSize, keys.padding) && !keys.padding.OtherPadding? && srcLen > 0
    requires srcLen % PlainBlockSize(keys.priSize, keys.padding).value != 0
    ensures var metaSize := PlainBlockSize(keys.priSize, keys.padding).value;
      var bs := Schedule(0, srcLen, metaSize, true);
      Last(bs).offset + Last(bs).len > srcLen
    ensures Inside(EncodeChunks(keys.priSize, keys.padding, srcLen), 0, srcLen)
  {
    var metaSize := PlainBlockSize(keys.priSize, keys.padding).value;
    ChunksShape(0, srcLen, metaSize);
    LastFullMeansMultiple(srcLen, metaSize);
    ChunksInside(0, srcLen, metaSize);
  }

  /** A concrete input that exposes the over-read: one byte under a 128-byte PKCS#1 key. */
  lemma PrivateEncodeOverreadExample()
    ensures var bs := Schedule(0, 1, 117, true);
      bs == [Block(0, 117)] && Last(bs).offset + Last(bs).len > 1
  {
  }

  // ---------------------------------------------------------------------
  // Buffer sizing
  // ---------------------------------------------------------------------

  /**
   * Space for decoding `len` bytes: one plaintext block per key-size block
   * of ciphertext, using the private key's size when `priKeyDecode`, taken
   * modulo 2^32 as the uint32 return does; 0 for an unknown padding.
   */
  function GetDecodeSpaceByDataLen(keys: KeyPair, len: uint32, priKeyDecode: bool): (r: uint32)
    requires KeySizeOk(if priKeyDecode then keys.priSize else keys.pubSize)
    ensures keys.padding.OtherPadding? ==> r == 0
  {
    var metaSize := if priKeyDecode then keys.priSize else keys.pubSize;
    match PlainBlockSize(metaSize, keys.padding)
    case None => 0
    case Some(realLen) => (realLen * CeilDiv(len, metaSize)) % TwoTo32
  }

  /**
   * Space for encoding `len` bytes: one key-size output block per plaintext
   * block. As written, the flag picks the PUBLIC key's size when
   * `priKeyEncode` and the private key's otherwise (crypto/rsa.cpp:457-461).
   */
  function GetEncodeSpaceByDataLen(keys: KeyPair, len: uint32, priKeyEncode: bool): (r: uint32)
    requires BlockSizeOk(if priKeyEncode then keys.pubSize else keys.priSize, keys.padding)
    ensures keys.padding.OtherPadding? ==> r == 0
  {
    var metaSize := if priKeyEncode then keys.pubSize else keys.priSize;
    match PlainBlockSize(metaSize, keys.padding)
    case None => 0
    case Some(realMetaSize) => (metaSize * CeilDiv(len, realMetaSize)) % TwoTo32
  }

  /** The encode space is one key-size block per plaintext chunk (when no wrap occurs). */
  lemma EncodeSpaceCountsChunks(keys: KeyPair, len: uint32)
    requires BlockSizeOk(keys.priSize, keys.padding) && !keys.padding.OtherPadding? && len > 0
    requires keys.priSize * |EncodeChunks(keys.priSize, keys.padding, len)| < TwoTo32
    ensures GetEncodeSpaceByDataLen(keys, len, false) == keys.priSize * |EncodeChunks(keys.priSize, keys.padding, len)|
  {
    ChunksCount(0, len, PlainBlockSize(keys.priSize, keys.padding).value);
  }

  /** The key choice in GetEncodeSpaceByDataLen is swapped: the "private" flag reads the public key's size. */
  lemma EncodeSpaceKeySwap(keys: KeyPair, len: uint32)
    requires BlockSizeOk(keys.pubSize, keys.padding) && BlockSizeOk(keys.priSize, keys.padding)
    ensures GetEncodeSpaceByDataLen(keys, len, true) == GetEncodeSpaceByDataLen(KeyPair(keys.pubSize, keys.pubSize, keys.padding), len, false)
    ensures GetEncodeSpaceByDataLen(keys, len, false) == GetEncodeSpaceByDataLen(KeyPair(keys.priSize, keys.priSize, keys.padding), len, true)
  {
  }

  lemma {:induction false} SumOutConst(bs: seq<Block>, op: Oracle, k: int)
    requires forall i | 0 <= i < |bs| :: op(bs[i]) == k
    ensures SumOut(bs, op) == k * |bs|
  {
    if bs != [] {
      assert forall i | 0 <= i < |bs[1..]| :: bs[1..][i] == bs[i + 1];
      SumOutConst(bs[1..], op, k);
    }
  }

  lemma {:induction false} SumOutBounded(bs: seq<Block>, op: Oracle, k: int)
    requires forall i | 0 <= i < |bs| :: op(bs[i]) <= k
    ensures SumOut(bs, op) <= k * |bs|
  {
    if bs != [] {
      assert forall i | 0 <= i < |bs[1..]| :: bs[1..][i] == bs[i + 1];
      SumOutBounded(bs[1..], op, k);
    }
  }

  /**
   * If every block encrypts to exactly k bytes and both keys have size k,
   * publicEncode's total is what getEncodeSpaceByDataLen reserved.
   */
  lemma EncodeTotalMatchesSpace(keys: KeyPair, srcLen: uint32, op: Oracle)
    requires BlockSizeOk(keys.pubSize, keys.padding) && keys.pubSize == keys.priSize
    requires !keys.padding.OtherPadding? && srcLen > 0
    requires forall b: Block :: op(b) == keys.pubSize
    requires keys.pubSize * |EncodeChunks(keys.pubSize, keys.padding, srcLen)| < TwoTo32
    ensures ToReply(Feed(EncodeChunks(keys.pubSize, keys.padding, srcLen), op))
      == Bytes(GetEncodeSpaceByDataLen(keys, srcLen, false))
  {
    var bs := EncodeChunks(keys.pubSize, keys.padding, srcLen);
    FeedSucceeds(bs, op);
    SumOutConst(bs, op, keys.pubSize);
    EncodeSpaceCountsChunks(keys, srcLen);
  }

  /**
   * If every block decrypts to at most one plaintext block, publicDecode's
   * total fits in what getDecodeSpaceByDataLen reserved (when no wrap occurs).
   */
  lemma DecodeTotalWithinSpace(keys: KeyPair, srcLen: uint32, op: Oracle)
    requires KeySizeOk(keys.pubSize)
    requires !keys.padding.OtherPadding? && srcLen > 0
    requires forall b: Block :: op(b) <= PlainBlockSize(keys.pubSize, keys.padding).value
    requires PlainBlockSize(keys.pubSize, keys.padding).value * |DecodeChunks(keys.pubSize, srcLen)| < TwoTo32
    ensures var t := Feed(DecodeChunks(keys.pubSize, srcLen), op);
      t.Some? ==> t.value <= GetDecodeSpaceByDataLen(keys, srcLen, false)
  {
    var bs := DecodeChunks(keys.pubSize, srcLen);
    var realLen := PlainBlockSize(keys.pubSize, keys.padding).value;
    FeedSucceeds(bs, op);
    SumOutBounded(bs, op, realLen);
    ChunksCount(0, srcLen, keys.pubSize);
  }

  // ---------------------------------------------------------------------
  // The BufferPtr overloads. How ByteBuffer allocates is not part of this
  // model: `storage` says whether the new buffer's data() is non-null.
  // ---------------------------------------------------------------------

  /**
   * A returned BufferPtr: null, or a buffer resized to `requested` whose data
   * size was set to `dataSize`. The request is the reserved space plus one,
   * added in uint32 arithmetic, so it wraps to 0 when the space is 2^32 - 1.
   */
  datatype BufferReply = NullBuffer | Buffer(requested: uint32, dataSize: Reply)

  /** Error statuses are negative integers, so "size > 0" holds exactly of a positive byte count. */
  predicate Positive(r: Reply) {
    r.Bytes? && r.count > 0
  }

  method PublicEncodeToBuffer(keys: KeyPair, from: bool, fromLen: uint32, storage: bool, op: Oracle)
    returns (p: BufferReply)
    requires BlockSizeOk(keys.pubSize, keys.padding) && BlockSizeOk(keys.priSize, keys.padding)
    ensures !from || fromLen == 0 ==> p == NullBuffer
    ensures from && fromLen > 0 ==>
      var r := if !storage then Error(InvalidParam)
        else if keys.padding.OtherPadding? then Error(UnknownError)
        else ToReply(Feed(EncodeChunks(keys.pubSize, keys.padding, fromLen), op));
      p == if Positive(r) then Buffer((GetEncodeSpaceByDataLen(keys, fromLen, false) + 1) % TwoTo32, r) else NullBuffer
  {
    if !from || fromLen == 0 {
      return NullBuffer;
    }
    var requested := (GetEncodeSpaceByDataLen(keys, fromLen, false) + 1) % TwoTo32;
    var r, _ := PublicEncode(keys, storage, from, fromLen, op);
    p := if Positive(r) then Buffer(requested, r) else NullBuffer;
  }

  method PublicDecodeToBuffer(keys: KeyPair, from: bool, fromLen: uint32, storage: bool, op: Oracle)
    returns (p: BufferReply)
    requires KeySizeOk(keys.pubSize)
    ensures !from || fromLen == 0 ==> p == NullBuffer
    ensures from && fromLen > 0 ==>
      var r := if !storage then Error(InvalidParam) else ToReply(Feed(DecodeChunks(keys.pubSize, fromLen), op));
      p == Buffer((GetDecodeSpaceByDataLen(keys, fromLen, false) + 1) % TwoTo32, r)
  {
    if !from || fromLen == 0 {
      return NullBuffer;
    }
    var requested := (GetDecodeSpaceByDataLen(keys, fromLen, false) + 1) % TwoTo32;
    var r, _ := PublicDecode(keys, storage, from, fromLen, op);
    p := Buffer(requested, r);
  }
}
