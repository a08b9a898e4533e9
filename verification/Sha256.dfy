/**
  Streaming SHA-256 (src/platform/sha256.c) against FIPS 180-4: section 5.3.3 (initial value), 5.1.1
  (padding) and 6.2.2 (the hash computation), and the streaming context.
 */
module Sha256 {
  import opened Sha256Constants
  import opened Sha256Round

  type byte = bv8

  const TWO_TO_THE_64 := 0x1_0000_0000_0000_0000

  // ---- the standard ----

  function RoundConstants(): (k: seq<word>)
    ensures |k| == 64
  {
    seq(64, t requires 0 <= t < 64 => RoundConstant(t) as word)
  }

  function InitialState(): (h: seq<word>)
    ensures |h| == 8
  {
    seq(8, t requires 0 <= t < 8 => InitialWord(t) as word)
  }

  function BigEndianWord(b0: byte, b1: byte, b2: byte, b3: byte): word {
    ((b0 as word) << 24) | ((b1 as word) << 16) | ((b2 as word) << 8) | (b3 as word)
  }

  /** The message schedule, step 1 of section 6.2.2. */
  function W(block: seq<byte>, t: nat): word
    requires |block| == 64
  {
    if t < 16 then BigEndianWord(block[4 * t], block[4 * t + 1], block[4 * t + 2], block[4 * t + 3])
    else Scheduled(W(block, t - 2), W(block, t - 7), W(block, t - 15), W(block, t - 16))
  }

  function Rounds(v: Vars, block: seq<byte>, t: nat): Vars
    requires |block| == 64 && t <= 64
  {
    if t == 0 then v else Round(Rounds(v, block, t - 1), RoundConstants()[t - 1], W(block, t - 1))
  }

  function Load(state: seq<word>): Vars
    requires |state| == 8
  {
    Vars(state[0], state[1], state[2], state[3], state[4], state[5], state[6], state[7])
  }

  /** Steps 2 to 4 of section 6.2.2. */
  function Compress(state: seq<word>, block: seq<byte>): (next: seq<word>)
    requires |state| == 8 && |block| == 64
    ensures |next| == 8
  {
    AddVars(state, Rounds(Load(state), block, 64))
  }

  /** The hash value after all the blocks of `m`. */
  function HashBlocks(m: seq<byte>): (state: seq<word>)
    requires |m| % 64 == 0
    ensures |state| == 8
  {
    if m == [] then InitialState() else Compress(HashBlocks(m[..|m| - 64]), m[|m| - 64..])
  }

  /** The number of zero bytes in the padding: the smallest that makes l + 1 + k congruent to 56. */
  function ZeroCount(length: nat): (k: nat)
    ensures k < 64 && (length + 1 + k) % 64 == 56
  {
    (119 - length % 64) % 64
  }

  lemma PaddingFills(length: nat)
    ensures (length + 1 + ZeroCount(length) + 8) % 64 == 0
  {
  }

  function Zeros(k: nat): (z: seq<byte>)
    ensures |z| == k && forall i | 0 <= i < k :: z[i] == 0
  {
    seq(k, _ => 0)
  }

  function Power256(k: nat): (p: nat)
    ensures p > 0
  {
    if k == 0 then 1 else 256 * Power256(k - 1)
  }

  function ByteOf(n: nat, k: nat): byte {
    (n / Power256(k) % 256) as byte
  }

  /** A 64-bit big-endian count. */
  function LengthBytes(bits: nat): (s: seq<byte>)
    ensures |s| == 8
  {
    seq(8, i requires 0 <= i < 8 => ByteOf(bits, 7 - i))
  }

  /** Section 5.1.1 for whole bytes. */
  function Padded(m: seq<byte>): (p: seq<byte>)
    ensures |p| % 64 == 0
  {
    PaddingFills(|m|);
    m + [0x80] + Zeros(ZeroCount(|m|)) + LengthBytes(8 * |m| % TWO_TO_THE_64)
  }

  function WordBytes(w: word): (s: seq<byte>)
    ensures |s| == 4
  {
    [((w >> 24) & 0xFF) as byte, ((w >> 16) & 0xFF) as byte, ((w >> 8) & 0xFF) as byte, (w & 0xFF) as byte]
  }

  function Bytes(state: seq<word>): (s: seq<byte>)
    ensures |s| == 4 * |state|
  {
    if state == [] then [] else Bytes(state[..|state| - 1]) + WordBytes(state[|state| - 1])
  }

  lemma BytesOfNothing()
    ensures Bytes([]) == []
  {
  }

  lemma BytesSnoc(state: seq<word>, w: word)
    ensures Bytes(state + [w]) == Bytes(state) + WordBytes(w)
  {
    hide WordBytes;
    assert (state + [w])[..|state|] == state;
  }

  function Digest(m: seq<byte>): (d: seq<byte>)
    ensures |d| == 32
  {
    Bytes(HashBlocks(Padded(m)))
  }

  // ---- one block ----

  method LoadWords(w: array<word>, block: array<byte>, at: nat)
    requires w.Length == 64 && at + 64 <= block.Length
    modifies w
    ensures forall t | 0 <= t < 16 :: w[t] == W(block[at..at + 64], t)
  {
    hide Scheduled, BigEndianWord;
    ghost var m := block[at..at + 64];
    for i := 0 to 16
      invariant forall t | 0 <= t < i :: w[t] == W(m, t)
    {
      assert m[4 * i] == block[at + 4 * i] && m[4 * i + 1] == block[at + 4 * i + 1];
      assert m[4 * i + 2] == block[at + 4 * i + 2] && m[4 * i + 3] == block[at + 4 * i + 3];
      w[i] := BigEndianWord(block[at + 4 * i], block[at + 4 * i + 1], block[at + 4 * i + 2], block[at + 4 * i + 3]);
    }
  }

  method ExtendSchedule(w: array<word>, ghost m: seq<byte>)
    requires w.Length == 64 && |m| == 64
    requires forall t | 0 <= t < 16 :: w[t] == W(m, t)
    modifies w
    ensures forall t | 0 <= t < 64 :: w[t] == W(m, t)
  {
    hide Scheduled, BigEndianWord;
    for i := 16 to 64
      invariant forall t | 0 <= t < i :: w[t] == W(m, t)
    {
      assert W(m, i) == Scheduled(W(m, i - 2), W(m, i - 7), W(m, i - 15), W(m, i - 16));
      w[i] := ScheduleWord(w[i - 16], w[i - 15], w[i - 7], w[i - 2]);
    }
  }

  method FillSchedule(block: array<byte>, at: nat) returns (w: array<word>)
    requires at + 64 <= block.Length
    ensures fresh(w) && w.Length == 64
    ensures forall t | 0 <= t < 64 :: w[t] == W(block[at..at + 64], t)
  {
    hide W;
    w := new word[64];
    LoadWords(w, block, at);
    ExtendSchedule(w, block[at..at + 64]);
  }

  method CompressBlock(state: array<word>, block: array<byte>, at: nat)
    requires state.Length == 8 && at + 64 <= block.Length
    modifies state
    ensures state[..] == Compress(old(state[..]), block[at..at + 64])
  {
    hide Round, AddVars, RoundConstants;
    var w := FillSchedule(block, at);
    ghost var m := block[at..at + 64];
    var v := Vars(state[0], state[1], state[2], state[3], state[4], state[5], state[6], state[7]);
    ghost var v0 := v;
    assert v0 == Load(state[..]);
    var k := RoundConstants();
    for i := 0 to 64
      invariant state[..] == old(state[..])
      invariant forall t | 0 <= t < 64 :: w[t] == W(m, t)
      invariant v == Rounds(v0, m, i)
    {
      v := OneRound(v, k[i], w[i]);
    }
    AddInto(state, v);
  }

  method StoreInitial(state: array<word>)
    requires state.Length == 8
    modifies state
    ensures state[..] == InitialState()
  {
    hide InitialWord;
    for i := 0 to 8
      invariant forall t | 0 <= t < i :: state[t] == InitialState()[t]
    {
      state[i] := InitialWord(i) as word;
    }
  }

  // ---- what a context stands for ----

  /** Whole blocks of `m` are folded into `state`; `tail` is the rest of it. */
  ghost predicate Encodes(state: seq<word>, tail: seq<byte>, m: seq<byte>) {
    && |tail| <= |m| && (|m| - |tail|) % 64 == 0
    && tail == m[|m| - |tail|..]
    && state == HashBlocks(m[..|m| - |tail|])
  }

  lemma EncodesEmpty()
    ensures Encodes(InitialState(), [], [])
  {
    hide InitialState;
  }

  lemma EncodesMore(state: seq<word>, tail: seq<byte>, m: seq<byte>, more: seq<byte>)
    requires Encodes(state, tail, m)
    ensures Encodes(state, tail + more, m + more)
  {
    hide HashBlocks;
    var whole := |m| - |tail|;
    assert (m + more)[..whole] == m[..whole];
    assert (m + more)[whole..] == tail + more;
  }

  lemma EncodesFold(state: seq<word>, block: seq<byte>, m: seq<byte>)
    requires Encodes(state, block, m) && |block| == 64
    ensures |state| == 8 && Encodes(Compress(state, block), [], m)
  {
    hide Compress;
    assert m[..|m|] == m;
    assert m[|m|..] == [];
  }

  lemma MoreBits(bytes: nat, more: nat)
    ensures (8 * bytes % TWO_TO_THE_64 + more * 8) % TWO_TO_THE_64 == 8 * (bytes + more) % TWO_TO_THE_64
  {
  }

  /** One more whole block of `data` after the first `at` bytes. */
  lemma EncodesBlock(state: seq<word>, m: seq<byte>, data: seq<byte>, at: nat)
    requires at + 64 <= |data| && Encodes(state, [], m + data[..at])
    ensures |state| == 8 && Encodes(Compress(state, data[at..at + 64]), [], m + data[..at + 64])
  {
    hide Encodes, Compress;
    var block := data[at..at + 64];
    EncodesMore(state, [], m + data[..at], block);
    assert m + data[..at] + block == m + data[..at + 64];
    assert [] + block == block;
    EncodesFold(state, block, m + data[..at + 64]);
  }

  /** The bytes after the first `at` of `data`. */
  lemma EncodesRest(state: seq<word>, m: seq<byte>, data: seq<byte>, at: nat)
    requires at <= |data| && Encodes(state, [], m + data[..at])
    ensures Encodes(state, data[at..], m + data)
  {
    hide Encodes;
    EncodesMore(state, [], m + data[..at], data[at..]);
    assert m + data[..at] + data[at..] == m + data;
    assert [] + data[at..] == data[at..];
  }

  class Context {
    const state: array<word>
    var bitCount: nat
    const buffer: array<byte>
    var buffered: nat

    /** Everything fed to the context since it was initialised. */
    ghost var message: seq<byte>

    ghost predicate Shape()
      reads this
    {
      state.Length == 8 && buffer.Length == 64 && buffered <= 64
    }

    ghost predicate Valid()
      reads this, state, buffer
    {
      && Shape() && buffered < 64
      && Encodes(state[..], buffer[..buffered], message)
      && bitCount == 8 * |message| % TWO_TO_THE_64
    }

    constructor ()
      ensures Valid() && message == []
      ensures fresh(this.state) && fresh(this.buffer)
    {
      hide Encodes, InitialState;
      state := new word[8];
      buffer := new byte[64];
      bitCount, buffered := 0, 0;
      message := [];
      new;
      StoreInitial(state);
      EncodesEmpty();
      assert buffer[..0] == [];
    }

    /** memcpy to the end of the buffered bytes. */
    method Buffer(data: array<byte>, from: nat, count: nat)
      requires Shape() && data != buffer
      requires from + count <= data.Length && buffered + count <= 64
      modifies buffer, this`buffered
      ensures buffered == old(buffered) + count
      ensures buffer[..buffered] == old(buffer[..buffered]) + data[from..from + count]
    {
      for i := 0 to count
        invariant buffered == old(buffered)
        invariant buffer[..buffered + i] == old(buffer[..buffered]) + data[from..from + i]
      {
        buffer[buffered + i] := data[from + i];
      }
      buffered := buffered + count;
    }

    /** Folds a full buffer into the state. */
    method FoldBuffer(ghost m: seq<byte>)
      requires Shape() && buffered == 64 && Encodes(state[..], buffer[..buffered], m)
      modifies this`buffered, state
      ensures Shape() && buffered == 0 && Encodes(state[..], buffer[..buffered], m)
    {
      hide Encodes, Compress;
      assert buffer[0..64] == buffer[..buffered];
      EncodesFold(state[..], buffer[..buffered], m);
      CompressBlock(state, buffer, 0);
      buffered := 0;
      assert buffer[..0] == [];
    }

    /** Tops up a partial block; the context then stands for that much more of the message. */
    method TopUp(data: array<byte>, ghost m: seq<byte>) returns (take: nat)
      requires Shape() && buffered < 64 && data != buffer
      requires Encodes(state[..], buffer[..buffered], m)
      modifies this`buffered, state, buffer
      ensures Shape() && take <= data.Length
      ensures buffered < 64 && Encodes(state[..], buffer[..buffered], m + data[..take])
      ensures take == data.Length || buffered == 0
    {
      hide Encodes, Compress;
      var need := 64 - buffered;
      take := if data.Length < need then data.Length else need;
      assert data[0..take] == data[..take];
      EncodesMore(state[..], buffer[..buffered], m, data[0..take]);
      Buffer(data, 0, take);
      assert state[..] == old(state[..]);
      if buffered == 64 {
        FoldBuffer(m + data[..take]);
      }
    }

    /** Whole blocks straight from the caller's bytes. */
    method TakeBlocks(data: array<byte>, start: nat, ghost m: seq<byte>) returns (cursor: nat)
      requires Shape() && buffered == 0 && data != buffer && start <= data.Length
      requires Encodes(state[..], [], m + data[..start])
      modifies state
      ensures start <= cursor <= data.Length < cursor + 64
      ensures Encodes(state[..], [], m + data[..cursor])
    {
      hide Encodes, Compress;
      cursor := start;
      while data.Length - cursor >= 64
        invariant start <= cursor <= data.Length
        invariant Encodes(state[..], [], m + data[..cursor])
      {
        ghost var upto := data[..cursor + 64];
        assert upto[..cursor] == data[..cursor] && upto[cursor..cursor + 64] == data[cursor..cursor + 64];
        assert upto[..cursor + 64] == upto;
        EncodesBlock(state[..], m, upto, cursor);
        CompressBlock(state, data, cursor);
        cursor := cursor + 64;
      }
    }

    /** What is left is less than a block, and is buffered. */
    method KeepRest(data: array<byte>, cursor: nat, ghost m: seq<byte>)
      requires Shape() && buffered == 0 && data != buffer && cursor <= data.Length < cursor + 64
      requires Encodes(state[..], [], m + data[..cursor])
      modifies this`buffered, buffer
      ensures Shape() && buffered < 64 && Encodes(state[..], buffer[..buffered], m + data[..])
    {
      hide Encodes;
      assert data[..][..cursor] == data[..cursor] && data[..][cursor..] == data[cursor..data.Length];
      EncodesRest(state[..], m, data[..], cursor);
      assert buffer[..0] == [];
      if cursor < data.Length {
        Buffer(data, cursor, data.Length - cursor);
        assert [] + data[cursor..data.Length] == data[cursor..data.Length];
      } else {
        assert data[cursor..data.Length] == [];
      }
    }

    /** usbs_sha256_update. */
    method Update(data: array<byte>)
      requires Valid() && data != buffer
      modifies this`bitCount, this`buffered, this`message, state, buffer
      ensures Valid() && message == old(message) + data[..]
    {
      hide Encodes;
      ghost var m := message;
      bitCount := (bitCount + data.Length * 8) % TWO_TO_THE_64;
      var cursor := 0;
      if buffered > 0 {
        cursor := TopUp(data, m);
      } else {
        assert m + data[..0] == m;
      }
      if buffered == 0 {
        assert buffer[..0] == [];
        cursor := TakeBlocks(data, cursor, m);
        KeepRest(data, cursor, m);
      } else {
        assert data[..data.Length] == data[..];
      }
      message := message + data[..];
      MoreBits(|m|, data.Length);
    }

    method ZeroFill(count: nat, ghost m: seq<byte>)
      requires Shape() && buffered + count <= 64 && Encodes(state[..], buffer[..buffered], m)
      modifies this`buffered, buffer
      ensures Shape() && buffered == old(buffered) + count
      ensures Encodes(state[..], buffer[..buffered], m + Zeros(count))
    {
      hide Encodes, HashBlocks;
      EncodesMore(state[..], buffer[..buffered], m, Zeros(count));
      for i := 0 to count
        invariant buffered == old(buffered)
        invariant buffer[..buffered + i] == old(buffer[..buffered]) + Zeros(count)[..i]
      {
        buffer[buffered + i] := 0;
      }
      assert Zeros(count)[..count] == Zeros(count);
      buffered := buffered + count;
    }

    method PutOne(ghost m: seq<byte>)
      requires Shape() && buffered < 64 && Encodes(state[..], buffer[..buffered], m)
      modifies this`buffered, buffer
      ensures Shape() && buffered == old(buffered) + 1
      ensures Encodes(state[..], buffer[..buffered], m + [0x80])
    {
      hide Encodes, HashBlocks;
      EncodesMore(state[..], buffer[..buffered], m, [0x80]);
      buffer[buffered] := 0x80;
      buffered := buffered + 1;
      assert buffer[..buffered] == old(buffer[..buffered]) + [0x80];
    }

    method PutLength(bits: nat, ghost m: seq<byte>)
      requires Shape() && buffered == 56 && Encodes(state[..], buffer[..buffered], m)
      modifies this`buffered, buffer
      ensures Shape() && buffered == 64
      ensures Encodes(state[..], buffer[..buffered], m + LengthBytes(bits))
    {
      hide Encodes, HashBlocks, ByteOf;
      EncodesMore(state[..], buffer[..buffered], m, LengthBytes(bits));
      for i := 0 to 8
        invariant buffered == 56
        invariant buffer[..56 + i] == old(buffer[..buffered]) + LengthBytes(bits)[..i]
      {
        buffer[56 + i] := ByteOf(bits, 7 - i);
      }
      assert LengthBytes(bits)[..8] == LengthBytes(bits);
      buffered := 64;
    }

    method StoreDigest(digest: array<byte>)
      requires Shape() && digest.Length == 32 && digest != buffer
      modifies digest
      ensures digest[..] == Bytes(state[..])
    {
      hide WordBytes, Bytes;
      BytesOfNothing();
      for i := 0 to 8
        invariant digest[..4 * i] == Bytes(state[..i])
      {
        var w := WordBytes(state[i]);
        digest[4 * i], digest[4 * i + 1], digest[4 * i + 2], digest[4 * i + 3] := w[0], w[1], w[2], w[3];
        assert state[..i + 1] == state[..i] + [state[i]];
        BytesSnoc(state[..i], state[i]);
        assert digest[..4 * (i + 1)] == digest[..4 * i] + w;
      }
      assert state[..8] == state[..];
      assert digest[..32] == digest[..];
    }

    method Wipe()
      requires Shape()
      modifies this`bitCount, this`buffered, this`message, state, buffer
      ensures bitCount == 0 && buffered == 0 && message == []
      ensures (forall i | 0 <= i < 64 :: buffer[i] == 0) && (forall i | 0 <= i < 8 :: state[i] == 0)
    {
      bitCount, buffered, message := 0, 0, [];
      forall i | 0 <= i < 64 {
        buffer[i] := 0;
      }
      forall i | 0 <= i < 8 {
        state[i] := 0;
      }
    }

    /** usbs_sha256_final: the digest of everything fed, and a context wiped afterwards. */
    method Final(digest: array<byte>)
      requires Valid() && digest.Length == 32 && digest != buffer
      modifies this`bitCount, this`buffered, this`message, state, buffer, digest
      ensures digest[..] == Digest(old(message))
      ensures bitCount == 0 && buffered == 0 && message == []
      ensures (forall i | 0 <= i < 64 :: buffer[i] == 0) && (forall i | 0 <= i < 8 :: state[i] == 0)
    {
      hide Encodes, HashBlocks, Bytes, LengthBytes;
      ghost var m := message;
      var bits := bitCount;
      assert buffered == |m| % 64 by { TailLength(state[..], buffer[..buffered], m); }
      PutOne(m);
      ghost var p := m + [0x80];
      ghost var zeros := 0;
      if buffered > 56 {
        zeros := 64 - buffered;
        ZeroFill(64 - buffered, p);
        FoldBuffer(p + Zeros(zeros));
      } else {
        assert p + Zeros(0) == p;
      }
      ghost var more := 56 - buffered;
      ZeroFill(56 - buffered, p + Zeros(zeros));
      assert zeros + more == ZeroCount(|m|);
      assert p + Zeros(zeros) + Zeros(more) == p + Zeros(ZeroCount(|m|));
      PutLength(bits, p + Zeros(ZeroCount(|m|)));
      FoldBuffer(Padded(m));
      assert buffer[..0] == [];
      AllFolded(state[..], Padded(m));
      StoreDigest(digest);
      Wipe();
    }
  }

  lemma TailLength(state: seq<word>, tail: seq<byte>, m: seq<byte>)
    requires Encodes(state, tail, m) && |tail| < 64
    ensures |tail| == |m| % 64
  {
    hide HashBlocks;
  }

  lemma AllFolded(state: seq<word>, m: seq<byte>)
    requires |m| % 64 == 0 && Encodes(state, [], m)
    ensures state == HashBlocks(m)
  {
    hide HashBlocks;
    assert m[..|m|] == m;
  }

  function Flatten(chunks: seq<seq<byte>>): seq<byte> {
    if chunks == [] then [] else Flatten(chunks[..|chunks| - 1]) + chunks[|chunks| - 1]
  }

  /** Where the i-th piece of a message begins that is cut at `cuts`; the last one ends where the message does. */
  function Cut(m: seq<byte>, cuts: seq<nat>, i: nat): nat {
    if i == 0 then 0 else if i <= |cuts| then cuts[i - 1] else |m|
  }

  ghost predicate ArePieces(m: seq<byte>, cuts: seq<nat>, chunks: seq<seq<byte>>) {
    && |chunks| == |cuts| + 1
    && forall i | 0 <= i <= |cuts| :: IsPiece(m, cuts, i, chunks[i])
  }

  ghost predicate IsPiece(m: seq<byte>, cuts: seq<nat>, i: nat, chunk: seq<byte>) {
    Cut(m, cuts, i) <= Cut(m, cuts, i + 1) <= |m| && chunk == m[Cut(m, cuts, i)..Cut(m, cuts, i + 1)]
  }

  lemma {:induction false} PiecesUpTo(m: seq<byte>, cuts: seq<nat>, chunks: seq<seq<byte>>, n: nat)
    requires ArePieces(m, cuts, chunks) && n <= |chunks|
    ensures Cut(m, cuts, n) <= |m| && Flatten(chunks[..n]) == m[..Cut(m, cuts, n)]
    decreases n
  {
    hide Cut;
    if n == 0 {
      NoCut(m, cuts);
    } else {
      PiecesUpTo(m, cuts, chunks, n - 1);
      var from, to := Cut(m, cuts, n - 1), Cut(m, cuts, n);
      assert IsPiece(m, cuts, n - 1, chunks[n - 1]) && n - 1 + 1 == n;
      assert chunks[..n][..n - 1] == chunks[..n - 1];
      assert m[..from] + m[from..to] == m[..to];
    }
  }

  lemma NoCut(m: seq<byte>, cuts: seq<nat>)
    ensures Cut(m, cuts, 0) == 0 && Cut(m, cuts, |cuts| + 1) == |m|
  {
  }

  /** The pieces put together are the message. */
  lemma PiecesAreWhole(m: seq<byte>, cuts: seq<nat>, chunks: seq<seq<byte>>)
    requires ArePieces(m, cuts, chunks)
    ensures Flatten(chunks) == m
  {
    hide Cut, Flatten;
    PiecesUpTo(m, cuts, chunks, |chunks|);
    NoCut(m, cuts);
    assert chunks[..|chunks|] == chunks && m[..|m|] == m;
  }

  /** However a message is cut into pieces, hashing the pieces hashes the message. */
  method HashChunks(chunks: seq<seq<byte>>) returns (digest: array<byte>)
    ensures digest.Length == 32 && digest[..] == Digest(Flatten(chunks))
  {
    hide Digest;
    var ctx := new Context();
    for i := 0 to |chunks|
      invariant ctx.Valid() && fresh(ctx) && fresh(ctx.state) && fresh(ctx.buffer)
      invariant ctx.message == Flatten(chunks[..i])
    {
      var piece := new byte[|chunks[i]|](j requires 0 <= j < |chunks[i]| => chunks[i][j]);
      assert piece[..] == chunks[i];
      assert chunks[..i + 1][..i] == chunks[..i];
      ctx.Update(piece);
    }
    assert chunks[..|chunks|] == chunks;
    digest := new byte[32];
    ctx.Final(digest);
  }
}
