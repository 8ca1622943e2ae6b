/**
 * The byte format of internal/knowledge/archive.go: a magic header, then frames of a 16-byte big-endian header
 * (raw length, stored length) and a stored block.
 */
module ArchiveFormat {
  import opened Text

  type Byte = x: int | 0 <= x < 256
  type Bytes = seq<Byte>

  /** "HMKBZST1". */
  const MAGIC: Bytes := [72, 77, 75, 66, 90, 83, 84, 49]

  const MAX_FRAME_BYTES: nat := 512 * 1024 * 1024

  /** zstd and AES-GCM, as functions of which only the laws below are used. */
  datatype Codec = Codec(
    compress: Bytes -> Bytes, decompress: Bytes -> Option<Bytes>,
    encrypted: bool, nonceSize: nat, seal: (Bytes, Bytes) -> Bytes, open: (Bytes, Bytes) -> Option<Bytes>)

  ghost predicate LawfulCodec(c: Codec) {
    && (forall raw :: c.decompress(c.compress(raw)) == Some(raw))
    && (forall raw :: c.compress(raw) != [])
    && (forall nonce, plain :: c.open(nonce, c.seal(nonce, plain)) == Some(plain))
    && (forall nonce, plain :: c.seal(nonce, plain) != [])
  }

  /** A flushed block: its NDJSON bytes and the bytes stored for them. */
  datatype Block = Block(raw: Bytes, stored: Bytes)

  /** What `flushLocked` stores for a raw block. */
  function Store(c: Codec, nonce: Bytes, raw: Bytes): Bytes {
    if c.encrypted then nonce + c.seal(nonce, c.compress(raw)) else c.compress(raw)
  }

  /** What the readers make of a stored block. */
  function Unstore(c: Codec, stored: Bytes): Option<Bytes> {
    if !c.encrypted then c.decompress(stored)
    else if |stored| <= c.nonceSize then None
    else
      match c.open(stored[..c.nonceSize], stored[c.nonceSize..])
      case None => None
      case Some(plain) => c.decompress(plain)
  }

  lemma UnstoreStore(c: Codec, nonce: Bytes, raw: Bytes)
    requires LawfulCodec(c) && |nonce| == c.nonceSize
    ensures Unstore(c, Store(c, nonce, raw)) == Some(raw) && Store(c, nonce, raw) != []
  {
    var compressed := c.compress(raw);
    assert c.decompress(compressed) == Some(raw);
    if c.encrypted {
      var sealed := c.seal(nonce, compressed);
      assert c.open(nonce, sealed) == Some(compressed);
      assert (nonce + sealed)[..c.nonceSize] == nonce && (nonce + sealed)[c.nonceSize..] == sealed;
    }
  }

  // ---------------------------------------------------------------- big-endian numbers

  function Pow256(width: nat): nat {
    if width == 0 then 1 else 256 * Pow256(width - 1)
  }

  function PutBE(n: nat, width: nat): (b: Bytes)
    ensures |b| == width
  {
    if width == 0 then [] else PutBE(n / 256, width - 1) + [n % 256]
  }

  function GetBE(b: Bytes): nat {
    if b == [] then 0 else 256 * GetBE(b[..|b| - 1]) + b[|b| - 1]
  }

  lemma {:induction false} GetPut(n: nat, width: nat)
    requires n < Pow256(width)
    ensures GetBE(PutBE(n, width)) == n
  {
    if width > 0 {
      GetPut(n / 256, width - 1);
      assert PutBE(n, width)[..width - 1] == PutBE(n / 256, width - 1);
    }
  }

  const POW64: nat := 0x1_0000_0000_0000_0000

  lemma GetPut64(n: nat)
    requires n < POW64
    ensures GetBE(PutBE(n, 8)) == n
  {
    assert Pow256(8) == POW64 by {
      assert Pow256(4) == 0x1_0000_0000;
      assert Pow256(6) == 0x1_0000_0000_0000;
    }
    GetPut(n, 8);
  }

  // ---------------------------------------------------------------- frames

  function Frame(b: Block): Bytes {
    PutBE(|b.raw|, 8) + PutBE(|b.stored|, 8) + b.stored
  }

  function Frames(blocks: seq<Block>): Bytes {
    if blocks == [] then [] else Frame(blocks[0]) + Frames(blocks[1..])
  }

  function FileOf(blocks: seq<Block>): Bytes {
    MAGIC + Frames(blocks)
  }

  /** Where frame `j` starts; `Offset(blocks, |blocks|)` is the length of the file. */
  function Offset(blocks: seq<Block>, j: nat): nat
    requires j <= |blocks|
  {
    if j == 0 then |MAGIC| else Offset(blocks, j - 1) + 16 + |blocks[j - 1].stored|
  }

  /** The block decodes to its raw bytes, and its lengths fit the header fields, as every Go slice length does. */
  ghost predicate GoodBlock(c: Codec, b: Block) {
    && Unstore(c, b.stored) == Some(b.raw) && b.stored != []
    && |b.raw| < POW64 && |b.stored| < POW64
  }

  ghost predicate GoodBlocks(c: Codec, blocks: seq<Block>) {
    forall i :: 0 <= i < |blocks| ==> GoodBlock(c, blocks[i])
  }

  lemma {:induction false} FramesSnoc(blocks: seq<Block>, b: Block)
    ensures Frames(blocks + [b]) == Frames(blocks) + Frame(b)
  {
    if blocks == [] {
      assert [b][1..] == [];
    } else {
      FramesSnoc(blocks[1..], b);
      assert (blocks + [b])[1..] == blocks[1..] + [b];
      assert Frame(blocks[0]) + (Frames(blocks[1..]) + Frame(b)) == Frame(blocks[0]) + Frames(blocks[1..]) + Frame(b);
    }
  }

  lemma {:induction false} OffsetOfTail(blocks: seq<Block>, j: nat)
    requires 0 < j <= |blocks|
    ensures Offset(blocks, j) == 16 + |blocks[0].stored| + Offset(blocks[1..], j - 1)
  {
    if j > 1 {
      OffsetOfTail(blocks, j - 1);
    }
  }

  lemma {:induction false} FileLength(blocks: seq<Block>)
    ensures |FileOf(blocks)| == Offset(blocks, |blocks|)
  {
    if blocks != [] {
      FileLength(blocks[1..]);
      OffsetOfTail(blocks, |blocks|);
    }
  }

  // ---------------------------------------------------------------- reading frames

  datatype ReadError = ShortHeader | BadMagic | Truncated | BadFrameSize | BadBlock | BadRecord

  function RawLength(rest: Bytes): nat
    requires |rest| >= 16
  {
    GetBE(rest[..8])
  }

  function StoredLength(rest: Bytes): nat
    requires |rest| >= 16
  {
    GetBE(rest[8..16])
  }

  predicate BadSize(n: nat) {
    n == 0 || n > MAX_FRAME_BYTES
  }

  /** The frame loop of `forEachRecordLocked`: the raw blocks, or the first error. */
  function ReadFrames(c: Codec, rest: Bytes): Result<seq<Bytes>, ReadError>
    decreases |rest|
  {
    if rest == [] then Ok([])
    else if |rest| < 16 then Err(Truncated)
    else
      var n := StoredLength(rest);
      if BadSize(n) then Err(BadFrameSize)
      else if |rest| < 16 + n then Err(Truncated)
      else
        match Unstore(c, rest[16..16 + n])
        case None => Err(BadBlock)
        case Some(raw) =>
          AddRaw(raw, ReadFrames(c, rest[16 + n..]))
  }

  /** The loop of `countBlocksLocked`, which skips the blocks unread. */
  function CountFrames(rest: Bytes): Result<nat, ReadError>
    decreases |rest|
  {
    if rest == [] then Ok(0)
    else if |rest| < 16 then Err(Truncated)
    else
      var n := StoredLength(rest);
      if BadSize(n) then Err(BadFrameSize)
      else if |rest| < 16 + n then Err(Truncated)
      else
        AddOne(CountFrames(rest[16 + n..]))
  }

  function Raws(blocks: seq<Block>): seq<Bytes> {
    seq(|blocks|, i requires 0 <= i < |blocks| => blocks[i].raw)
  }

  lemma HeaderOfFrame(b: Block, rest: Bytes)
    requires |b.raw| < POW64 && |b.stored| < POW64
    requires |rest| >= 16 && rest[..16] == Frame(b)[..16]
    ensures RawLength(rest) == |b.raw| && StoredLength(rest) == |b.stored|
  {
    GetPut64(|b.raw|);
    GetPut64(|b.stored|);
    assert rest[..8] == rest[..16][..8] == Frame(b)[..8] == PutBE(|b.raw|, 8);
    assert rest[8..16] == rest[..16][8..] == Frame(b)[8..16] == PutBE(|b.stored|, 8);
  }

  ghost predicate FitsUpTo(blocks: seq<Block>, j: nat) {
    j <= |blocks| && forall i :: 0 <= i < j ==> |blocks[i].stored| <= MAX_FRAME_BYTES
  }

  /** Cut `k` of the file falls on the boundary after frame `j`, and no frame before it is oversized. */
  ghost predicate CleanCut(blocks: seq<Block>, k: nat, j: nat) {
    FitsUpTo(blocks, j) && Offset(blocks, j) == k
  }

  ghost predicate Boundary(blocks: seq<Block>, k: nat) {
    exists j: nat :: CleanCut(blocks, k, j)
  }

  lemma CleanCutOfTail(blocks: seq<Block>, k: nat, j: nat)
    requires blocks != [] && k >= 16 + |blocks[0].stored|
    ensures |blocks[0].stored| <= MAX_FRAME_BYTES && CleanCut(blocks[1..], k - 16 - |blocks[0].stored|, j) ==>
              CleanCut(blocks, k, j + 1)
    ensures j > 0 && CleanCut(blocks, k, j) ==> CleanCut(blocks[1..], k - 16 - |blocks[0].stored|, j - 1)
  {
    if j + 1 <= |blocks| {
      OffsetOfTail(blocks, j + 1);
    }
    if 0 < j <= |blocks| {
      OffsetOfTail(blocks, j);
    }
    assert forall i :: 0 <= i < |blocks| - 1 ==> blocks[1..][i] == blocks[i + 1];
  }

  lemma {:induction false} OffsetsGrow(blocks: seq<Block>, i: nat, j: nat)
    requires i <= j <= |blocks|
    ensures Offset(blocks, i) <= Offset(blocks, j)
    ensures i < j ==> Offset(blocks, i) + 16 + |blocks[i].stored| <= Offset(blocks, j)
  {
    if i < j {
      OffsetsGrow(blocks, i, j - 1);
    }
  }

  /** A cut inside the first frame, header or block, is an error for both readers. */
  lemma CutInsideFirstFrame(c: Codec, blocks: seq<Block>, k: nat)
    requires blocks != [] && GoodBlock(c, blocks[0])
    requires 0 < k < |Frame(blocks[0])|
    ensures ReadFrames(c, Frames(blocks)[..k]).Err? && CountFrames(Frames(blocks)[..k]).Err?
  {
    var rest := Frames(blocks)[..k];
    if k >= 16 {
      assert rest[..16] == Frame(blocks[0])[..16];
      HeaderOfFrame(blocks[0], rest);
    }
  }

  /** The pieces into which the readers split a cut behind the first frame. */
  lemma PiecesOfFirstFrame(blocks: seq<Block>, k: nat)
    requires blocks != [] && |Frame(blocks[0])| <= k <= |Frames(blocks)|
    ensures var rest, n := Frames(blocks)[..k], |blocks[0].stored|;
            && |rest| >= 16 + n && rest[..16] == Frame(blocks[0])[..16]
            && rest[16..16 + n] == blocks[0].stored
            && k - 16 - n <= |Frames(blocks[1..])| && rest[16 + n..] == Frames(blocks[1..])[..k - 16 - n]
  {
    var first, others, n := Frame(blocks[0]), Frames(blocks[1..]), |blocks[0].stored|;
    assert |first| == 16 + n && first[16..] == blocks[0].stored;
    assert (first + others)[..k] == first + others[..k - 16 - n];
  }

  function AddRaw(raw: Bytes, rest: Result<seq<Bytes>, ReadError>): Result<seq<Bytes>, ReadError> {
    match rest
    case Err(e) => Err(e)
    case Ok(raws) => Ok([raw] + raws)
  }

  function AddOne(rest: Result<nat, ReadError>): Result<nat, ReadError> {
    match rest
    case Err(e) => Err(e)
    case Ok(count) => Ok(count + 1)
  }

  /** After the whole first frame the readers go on with the rest. */
  lemma CutAfterFirstFrame(c: Codec, blocks: seq<Block>, k: nat)
    requires blocks != [] && GoodBlock(c, blocks[0])
    requires |Frame(blocks[0])| <= k <= |Frames(blocks)|
    ensures k - |Frame(blocks[0])| <= |Frames(blocks[1..])|
    ensures var tail := Frames(blocks[1..])[..k - |Frame(blocks[0])|];
            if |blocks[0].stored| > MAX_FRAME_BYTES
            then ReadFrames(c, Frames(blocks)[..k]).Err? && CountFrames(Frames(blocks)[..k]).Err?
            else ReadFrames(c, Frames(blocks)[..k]) == AddRaw(blocks[0].raw, ReadFrames(c, tail))
                 && CountFrames(Frames(blocks)[..k]) == AddOne(CountFrames(tail))
  {
    PiecesOfFirstFrame(blocks, k);
    HeaderOfFrame(blocks[0], Frames(blocks)[..k]);
  }

  /**
   * Reading a prefix of the frames succeeds exactly when the cut falls on a frame boundary and no complete frame is
   * oversized; then the readers return, and count, precisely the blocks before the cut.
   */
  lemma {:induction false} PrefixReadsExactly(c: Codec, blocks: seq<Block>, k: nat, j: nat)
    requires GoodBlocks(c, blocks) && k <= |Frames(blocks)|
    ensures CleanCut(blocks, |MAGIC| + k, j) ==>
              ReadFrames(c, Frames(blocks)[..k]) == Ok(Raws(blocks[..j])) && CountFrames(Frames(blocks)[..k]) == Ok(j)
    ensures ReadFrames(c, Frames(blocks)[..k]).Ok? ==> Boundary(blocks, |MAGIC| + k)
    ensures CountFrames(Frames(blocks)[..k]).Ok? ==> Boundary(blocks, |MAGIC| + k)
    decreases |blocks|, 1
  {
    if k == 0 {
      assert CleanCut(blocks, |MAGIC|, 0);
      if CleanCut(blocks, |MAGIC|, j) {
        OffsetsGrow(blocks, 0, j);
        assert Raws(blocks[..j]) == [];
      }
    } else if k < |Frame(blocks[0])| {
      assert GoodBlock(c, blocks[0]);
      CutInsideFirstFrame(c, blocks, k);
      assert Offset(blocks, 0) == |MAGIC| && Offset(blocks, 1) == |MAGIC| + |Frame(blocks[0])|;
      if j <= |blocks| {
        OffsetsGrow(blocks, if j == 0 then 0 else 1, j);
      }
    } else {
      assert GoodBlock(c, blocks[0]);
      if CleanCut(blocks, |MAGIC| + k, j) {
        BoundaryReads(c, blocks, k, j);
      }
      if ReadFrames(c, Frames(blocks)[..k]).Ok? || CountFrames(Frames(blocks)[..k]).Ok? {
        ReadsOnlyAtBoundary(c, blocks, k);
      }
    }
  }

  lemma {:induction false} BoundaryReads(c: Codec, blocks: seq<Block>, k: nat, j: nat)
    requires GoodBlocks(c, blocks) && blocks != [] && |Frame(blocks[0])| <= k <= |Frames(blocks)|
    requires CleanCut(blocks, |MAGIC| + k, j)
    ensures ReadFrames(c, Frames(blocks)[..k]) == Ok(Raws(blocks[..j]))
    ensures CountFrames(Frames(blocks)[..k]) == Ok(j)
    decreases |blocks|, 0
  {
    CutAfterFirstFrame(c, blocks, k);
    CleanCutOfTail(blocks, |MAGIC| + k, j);
    PrefixReadsExactly(c, blocks[1..], k - |Frame(blocks[0])|, j - 1);
    RawsOfTail(blocks, j);
  }

  lemma RawsOfTail(blocks: seq<Block>, j: nat)
    requires 0 < j <= |blocks|
    ensures Raws(blocks[..j]) == [blocks[0].raw] + Raws(blocks[1..][..j - 1])
  {
  }

  lemma {:induction false} ReadsOnlyAtBoundary(c: Codec, blocks: seq<Block>, k: nat)
    requires GoodBlocks(c, blocks) && blocks != [] && |Frame(blocks[0])| <= k <= |Frames(blocks)|
    requires ReadFrames(c, Frames(blocks)[..k]).Ok? || CountFrames(Frames(blocks)[..k]).Ok?
    ensures Boundary(blocks, |MAGIC| + k)
    decreases |blocks|, 0
  {
    var n := |blocks[0].stored|;
    CutAfterFirstFrame(c, blocks, k);
    PrefixReadsExactly(c, blocks[1..], k - |Frame(blocks[0])|, 0);
    var i: nat :| CleanCut(blocks[1..], |MAGIC| + k - 16 - n, i);
    CleanCutOfTail(blocks, |MAGIC| + k, i);
    assert CleanCut(blocks, |MAGIC| + k, i + 1);
  }
}
