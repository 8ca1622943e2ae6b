/**
 * Records in the blocks of the knowledge archive: one JSON line each, read back with a line scanner, as in
 * `Append` and `forEachRecordLocked` of internal/knowledge/archive.go.
 */
module ArchiveRecords {
  import opened Text
  import opened ArchiveFormat

  /** The fields `Append` looks at; `details` stands for the others. Time 0 is Go's zero time. */
  datatype Record = Record(
    schemaVersion: int, tenant: string, timestamp: int, kind: string, text: string, payload: string,
    project: string, repository: string, branch: string, commit: string, agent: string, model: string,
    contentHash: string, sensitive: bool, details: string)

  const NEWLINE: Byte := 10
  const RETURN: Byte := 13

  /** encoding/json: marshalling may fail, and what was marshalled reads back on a line of its own. */
  datatype Json = Json(encode: Record -> Option<Bytes>, decode: Bytes -> Option<Record>)

  ghost predicate LawfulLine(json: Json, r: Record, line: Bytes) {
    json.decode(line) == Some(r) && NEWLINE !in line && line != [] && line[|line| - 1] != RETURN
  }

  ghost predicate LawfulJson(json: Json) {
    forall r, line :: json.encode(r) == Some(line) ==> LawfulLine(json, r, line)
  }

  predicate Encodable(json: Json, rs: seq<Record>) {
    forall i :: 0 <= i < |rs| ==> json.encode(rs[i]).Some?
  }

  function Line(json: Json, r: Record): Bytes
    requires json.encode(r).Some?
  {
    json.encode(r).value + [NEWLINE]
  }

  /** The raw block for a batch of records. */
  function Lines(json: Json, rs: seq<Record>): Bytes
    requires Encodable(json, rs)
  {
    if rs == [] then [] else Line(json, rs[0]) + Lines(json, rs[1..])
  }

  /** No line, with its newline, is longer than the 512 MiB to which the scanner's buffer may grow. */
  predicate LinesFit(json: Json, rs: seq<Record>)
    requires Encodable(json, rs)
  {
    forall i :: 0 <= i < |rs| ==> |Line(json, rs[i])| <= 536_870_912
  }

  // ---------------------------------------------------------------- scanning

  function NewlineAt(raw: Bytes): (i: nat)
    ensures i <= |raw| && NEWLINE !in raw[..i] && (i < |raw| ==> raw[i] == NEWLINE)
  {
    if raw == [] || raw[0] == NEWLINE then 0 else 1 + NewlineAt(raw[1..])
  }

  function DropReturn(line: Bytes): Bytes {
    if line != [] && line[|line| - 1] == RETURN then line[..|line| - 1] else line
  }

  function Prepend(first: seq<Record>, rest: Result<seq<Record>, ReadError>): Result<seq<Record>, ReadError> {
    match rest
    case Err(e) => Err(e)
    case Ok(rs) => Ok(first + rs)
  }

  /** The line scanner over one block: a last line without newline counts, and an overlong line is an error. */
  function ScanRecords(json: Json, raw: Bytes): Result<seq<Record>, ReadError>
    decreases |raw|
  {
    if raw == [] then Ok([])
    else
      var i := NewlineAt(raw);
      if i >= MAX_FRAME_BYTES then Err(BadRecord)
      else
        match json.decode(DropReturn(raw[..i]))
        case None => Err(BadRecord)
        case Some(r) => Prepend([r], ScanRecords(json, if i < |raw| then raw[i + 1..] else []))
  }

  function ScanBlocks(json: Json, raws: seq<Bytes>): Result<seq<Record>, ReadError> {
    if raws == [] then Ok([])
    else
      match ScanRecords(json, raws[0])
      case Err(e) => Err(e)
      case Ok(rs) => Prepend(rs, ScanBlocks(json, raws[1..]))
  }

  /** The loop of `forEachRecordLocked` behind the header: every record in order, or the first error. */
  function ReadFrom(c: Codec, json: Json, rest: Bytes): Result<seq<Record>, ReadError>
    decreases |rest|
  {
    if rest == [] then Ok([])
    else if |rest| < 16 then Err(Truncated)
    else
      var n := StoredLength(rest);
      if BadSize(n) then Err(BadFrameSize)
      else if |rest| < 16 + n then Err(Truncated)
      else
        match Unstore(c, rest[16..16 + n])
        case None => Err(BadBlock)
        case Some(raw) =>
          match ScanRecords(json, raw)
          case Err(e) => Err(e)
          case Ok(rs) => Prepend(rs, ReadFrom(c, json, rest[16 + n..]))
  }

  /** `forEachRecordLocked` skips the header without comparing it. */
  function ReadArchive(c: Codec, json: Json, file: Bytes): Result<seq<Record>, ReadError> {
    if |file| < |MAGIC| then Err(ShortHeader) else ReadFrom(c, json, file[|MAGIC|..])
  }

  /** The records one block hands to the callback before its scanner ends or fails. */
  function ScannedOf(json: Json, raw: Bytes): seq<Record>
    decreases |raw|
  {
    if raw == [] then []
    else
      var i := NewlineAt(raw);
      if i >= MAX_FRAME_BYTES then []
      else
        match json.decode(DropReturn(raw[..i]))
        case None => []
        case Some(r) => [r] + ScannedOf(json, if i < |raw| then raw[i + 1..] else [])
  }

  function DeliveredFrom(c: Codec, json: Json, rest: Bytes): seq<Record>
    decreases |rest|
  {
    if |rest| < 16 then []
    else
      var n := StoredLength(rest);
      if BadSize(n) || |rest| < 16 + n then []
      else
        match Unstore(c, rest[16..16 + n])
        case None => []
        case Some(raw) =>
          match ScanRecords(json, raw)
          case Err(_) => ScannedOf(json, raw)
          case Ok(rs) => rs + DeliveredFrom(c, json, rest[16 + n..])
  }

  /** The records `forEachRecordLocked` hands to its callback, all of them or those before the first error. */
  function Delivered(c: Codec, json: Json, file: Bytes): seq<Record> {
    if |file| < |MAGIC| then [] else DeliveredFrom(c, json, file[|MAGIC|..])
  }

  /** `countBlocksLocked` does compare it. */
  function CountBlocks(file: Bytes): Result<nat, ReadError> {
    if |file| < |MAGIC| then Err(ShortHeader)
    else if file[..|MAGIC|] != MAGIC then Err(BadMagic)
    else CountFrames(file[|MAGIC|..])
  }

  // ---------------------------------------------------------------- what was written is read

  lemma {:induction false} NewlineEndsLine(line: Bytes, rest: Bytes)
    requires NEWLINE !in line
    ensures NewlineAt(line + [NEWLINE] + rest) == |line|
  {
    if line != [] {
      NewlineEndsLine(line[1..], rest);
      assert (line + [NEWLINE] + rest)[1..] == line[1..] + [NEWLINE] + rest;
    }
  }

  lemma ScanFirstLine(json: Json, r: Record, rest: Bytes)
    requires LawfulJson(json) && json.encode(r).Some?
    ensures ScanRecords(json, Line(json, r) + rest) ==
            if |Line(json, r)| > MAX_FRAME_BYTES then Err(BadRecord) else Prepend([r], ScanRecords(json, rest))
  {
    var line := json.encode(r).value;
    var raw := Line(json, r) + rest;
    assert LawfulLine(json, r, line);
    NewlineEndsLine(line, rest);
    assert raw[..|line|] == line && raw[|line| + 1..] == rest;
  }

  lemma FirstLineFits(json: Json, rs: seq<Record>)
    requires Encodable(json, rs) && rs != []
    ensures LinesFit(json, rs) <==> |Line(json, rs[0])| <= MAX_FRAME_BYTES && LinesFit(json, rs[1..])
  {
  }

  /** Scanning a block returns the batch it was made of, exactly when every line fits the scanner. */
  lemma {:induction false} ScanLinesExactly(json: Json, rs: seq<Record>)
    requires LawfulJson(json) && Encodable(json, rs)
    ensures ScanRecords(json, Lines(json, rs)) == if LinesFit(json, rs) then Ok(rs) else Err(BadRecord)
  {
    if rs != [] {
      ScanLinesExactly(json, rs[1..]);
      ScanFirstLine(json, rs[0], Lines(json, rs[1..]));
      FirstLineFits(json, rs);
      assert [rs[0]] + rs[1..] == rs;
    }
  }

  lemma {:induction false} LinesSnoc(json: Json, rs: seq<Record>, r: Record)
    requires Encodable(json, rs + [r])
    ensures Encodable(json, rs) && json.encode(r).Some?
    ensures Lines(json, rs + [r]) == Lines(json, rs) + Line(json, r)
  {
    assert (rs + [r])[|rs|] == r;
    assert forall i :: 0 <= i < |rs| ==> rs[i] == (rs + [r])[i];
    if rs == [] {
      assert Lines(json, [r]) == Line(json, r) + Lines(json, [r][1..]);
    } else {
      assert (rs + [r])[1..] == rs[1..] + [r];
      LinesSnoc(json, rs[1..], r);
    }
  }

  // ---------------------------------------------------------------- a whole archive

  function Flatten(batches: seq<seq<Record>>): seq<Record> {
    if batches == [] then [] else batches[0] + Flatten(batches[1..])
  }

  ghost predicate BlockHolds(c: Codec, json: Json, b: Block, batch: seq<Record>) {
    batch != [] && Encodable(json, batch) && b.raw == Lines(json, batch) && GoodBlock(c, b)
  }

  /** Block i is the flush of batch i. */
  ghost predicate Holds(c: Codec, json: Json, blocks: seq<Block>, batches: seq<seq<Record>>) {
    |blocks| == |batches| && forall i :: 0 <= i < |blocks| ==> BlockHolds(c, json, blocks[i], batches[i])
  }

  ghost predicate BatchesFit(json: Json, batches: seq<seq<Record>>) {
    forall i :: 0 <= i < |batches| ==> Encodable(json, batches[i]) && LinesFit(json, batches[i])
  }

  /** The reader fails where the frame loop fails, and otherwise scans the blocks it returns. */
  lemma {:induction false} ReadFromSplits(c: Codec, json: Json, rest: Bytes)
    ensures ReadFrames(c, rest).Err? ==> ReadFrom(c, json, rest).Err?
    ensures ReadFrames(c, rest).Ok? ==> ReadFrom(c, json, rest) == ScanBlocks(json, ReadFrames(c, rest).value)
    decreases |rest|
  {
    if |rest| >= 16 {
      var n := StoredLength(rest);
      if !BadSize(n) && |rest| >= 16 + n && Unstore(c, rest[16..16 + n]).Some? {
        ReadFromSplits(c, json, rest[16 + n..]);
      }
    }
  }

  lemma FirstBatchFits(json: Json, batches: seq<seq<Record>>)
    requires batches != [] && Encodable(json, batches[0])
    ensures BatchesFit(json, batches) <==> LinesFit(json, batches[0]) && BatchesFit(json, batches[1..])
  {
  }

  lemma HoldsTail(c: Codec, json: Json, blocks: seq<Block>, batches: seq<seq<Record>>)
    requires Holds(c, json, blocks, batches) && blocks != []
    ensures BlockHolds(c, json, blocks[0], batches[0]) && Holds(c, json, blocks[1..], batches[1..])
  {
  }

  lemma {:induction false} ScanBlocksExactly(c: Codec, json: Json, blocks: seq<Block>, batches: seq<seq<Record>>)
    requires LawfulJson(json) && Holds(c, json, blocks, batches)
    ensures ScanBlocks(json, Raws(blocks)) == if BatchesFit(json, batches) then Ok(Flatten(batches)) else Err(BadRecord)
  {
    if blocks != [] {
      HoldsTail(c, json, blocks, batches);
      ScanLinesExactly(json, batches[0]);
      ScanBlocksExactly(c, json, blocks[1..], batches[1..]);
      assert Raws(blocks)[1..] == Raws(blocks[1..]);
      FirstBatchFits(json, batches);
    }
  }

  /**
   * Truncation safety. Reading the first `k` bytes of an archive succeeds exactly when `k` is a frame boundary with no
   * oversized frame and no overlong line before it, and then returns precisely the records of the frames before the
   * cut; the block count is then the number of those frames.
   */
  lemma TruncationExactly(c: Codec, json: Json, blocks: seq<Block>, batches: seq<seq<Record>>, k: nat, j: nat)
    requires LawfulJson(json) && Holds(c, json, blocks, batches) && k <= |FileOf(blocks)|
    ensures CleanCut(blocks, k, j) ==>
              && ReadArchive(c, json, FileOf(blocks)[..k]) ==
                 (if BatchesFit(json, batches[..j]) then Ok(Flatten(batches[..j])) else Err(BadRecord))
              && CountBlocks(FileOf(blocks)[..k]) == Ok(j)
    ensures ReadArchive(c, json, FileOf(blocks)[..k]).Ok? ==> Boundary(blocks, k)
    ensures CountBlocks(FileOf(blocks)[..k]).Ok? ==> Boundary(blocks, k)
  {
    if CleanCut(blocks, k, j) {
      CleanCutReads(c, json, blocks, batches, j);
    }
    if k >= |MAGIC| {
      HoldsGood(c, json, blocks, batches);
      CutBehindMagic(c, json, blocks, k - |MAGIC|);
      PrefixReadsExactly(c, blocks, k - |MAGIC|, 0);
      ReadFromSplits(c, json, Frames(blocks)[..k - |MAGIC|]);
    }
  }

  lemma HoldsGood(c: Codec, json: Json, blocks: seq<Block>, batches: seq<seq<Record>>)
    requires Holds(c, json, blocks, batches)
    ensures GoodBlocks(c, blocks)
  {
  }

  lemma HoldsPrefix(c: Codec, json: Json, blocks: seq<Block>, batches: seq<seq<Record>>, j: nat)
    requires Holds(c, json, blocks, batches) && j <= |blocks|
    ensures Holds(c, json, blocks[..j], batches[..j])
  {
  }

  /** Behind the magic both readers go on with the frames. */
  lemma CutBehindMagic(c: Codec, json: Json, blocks: seq<Block>, k: nat)
    requires k <= |Frames(blocks)|
    ensures ReadArchive(c, json, FileOf(blocks)[..|MAGIC| + k]) == ReadFrom(c, json, Frames(blocks)[..k])
    ensures CountBlocks(FileOf(blocks)[..|MAGIC| + k]) == CountFrames(Frames(blocks)[..k])
  {
    var cut := FileOf(blocks)[..|MAGIC| + k];
    assert cut[|MAGIC|..] == Frames(blocks)[..k] && cut[..|MAGIC|] == MAGIC;
  }

  /** At a clean cut the frame loop returns the blocks before it. */
  lemma CleanCutFrames(c: Codec, json: Json, blocks: seq<Block>, j: nat)
    requires GoodBlocks(c, blocks) && j <= |blocks| && FitsUpTo(blocks, j)
    ensures Offset(blocks, j) <= |FileOf(blocks)|
    ensures var cut := FileOf(blocks)[..Offset(blocks, j)];
            ReadArchive(c, json, cut) == ScanBlocks(json, Raws(blocks[..j])) && CountBlocks(cut) == Ok(j)
  {
    FileLength(blocks);
    OffsetsGrow(blocks, 0, j);
    OffsetsGrow(blocks, j, |blocks|);
    var k := Offset(blocks, j) - |MAGIC|;
    CutBehindMagic(c, json, blocks, k);
    assert CleanCut(blocks, |MAGIC| + k, j);
    PrefixReadsExactly(c, blocks, k, j);
    ReadFromSplits(c, json, Frames(blocks)[..k]);
  }

  lemma CleanCutReads(c: Codec, json: Json, blocks: seq<Block>, batches: seq<seq<Record>>, j: nat)
    requires LawfulJson(json) && Holds(c, json, blocks, batches) && j <= |blocks| && FitsUpTo(blocks, j)
    ensures Offset(blocks, j) <= |FileOf(blocks)|
    ensures var cut := FileOf(blocks)[..Offset(blocks, j)];
            && ReadArchive(c, json, cut) ==
               (if BatchesFit(json, batches[..j]) then Ok(Flatten(batches[..j])) else Err(BadRecord))
            && CountBlocks(cut) == Ok(j)
  {
    HoldsGood(c, json, blocks, batches);
    CleanCutFrames(c, json, blocks, j);
    HoldsPrefix(c, json, blocks, batches, j);
    ScanBlocksExactly(c, json, blocks[..j], batches[..j]);
  }

  /**
   * Round trip. The whole file reads back as exactly the records of its batches, in order, if and only if no stored
   * block is oversized and no line overlong.
   */
  lemma RoundTripExactly(c: Codec, json: Json, blocks: seq<Block>, batches: seq<seq<Record>>)
    requires LawfulJson(json) && Holds(c, json, blocks, batches)
    ensures ReadArchive(c, json, FileOf(blocks)).Ok? <==>
            FitsUpTo(blocks, |blocks|) && BatchesFit(json, batches)
    ensures ReadArchive(c, json, FileOf(blocks)).Ok? ==> ReadArchive(c, json, FileOf(blocks)) == Ok(Flatten(batches))
    ensures CountBlocks(FileOf(blocks)).Ok? ==> CountBlocks(FileOf(blocks)) == Ok(|blocks|)
    ensures CountBlocks(FileOf(blocks)).Ok? <==> FitsUpTo(blocks, |blocks|)
  {
    var k := |FileOf(blocks)|;
    FileLength(blocks);
    assert FileOf(blocks)[..k] == FileOf(blocks) && batches[..|blocks|] == batches;
    TruncationExactly(c, json, blocks, batches, k, |blocks|);
    assert CleanCut(blocks, k, |blocks|) <==> FitsUpTo(blocks, |blocks|);
    if Boundary(blocks, k) {
      var j: nat :| CleanCut(blocks, k, j);
      OffsetsGrow(blocks, j, |blocks|);
      assert j == |blocks|;
    }
  }

  // ---------------------------------------------------------------- what an interrupted reading has delivered

  lemma ScansFirst(json: Json, rest: Bytes, i: nat, r: Record)
    requires rest != [] && i == NewlineAt(rest) < MAX_FRAME_BYTES && json.decode(DropReturn(rest[..i])) == Some(r)
    ensures var next := if i < |rest| then rest[i + 1..] else [];
            && ScannedOf(json, rest) == [r] + ScannedOf(json, next)
            && ScanRecords(json, rest) == Prepend([r], ScanRecords(json, next))
  {
  }

  lemma ReadsFirst(c: Codec, json: Json, rest: Bytes, n: nat, raw: Bytes)
    requires |rest| >= 16 && n == StoredLength(rest) && !BadSize(n) && |rest| >= 16 + n
    requires Unstore(c, rest[16..16 + n]) == Some(raw)
    ensures ReadFrom(c, json, rest) ==
            match ScanRecords(json, raw) {
              case Err(e) => Err(e)
              case Ok(rs) => Prepend(rs, ReadFrom(c, json, rest[16 + n..]))
            }
  {
  }

  lemma DeliversFirst(c: Codec, json: Json, rest: Bytes, n: nat, raw: Bytes)
    requires |rest| >= 16 && n == StoredLength(rest) && !BadSize(n) && |rest| >= 16 + n
    requires Unstore(c, rest[16..16 + n]) == Some(raw)
    ensures DeliveredFrom(c, json, rest) ==
            match ScanRecords(json, raw) {
              case Err(_) => ScannedOf(json, raw)
              case Ok(rs) => rs + DeliveredFrom(c, json, rest[16 + n..])
            }
  {
  }

  /** A reading that succeeds has delivered what it returns. */
  lemma {:induction false} DeliveredAll(c: Codec, json: Json, rest: Bytes)
    ensures ReadFrom(c, json, rest).Ok? ==> ReadFrom(c, json, rest) == Ok(DeliveredFrom(c, json, rest))
    decreases |rest|
  {
    if ReadFrom(c, json, rest).Ok? && rest != [] {
      DeliveredAll(c, json, rest[16 + StoredLength(rest)..]);
    }
  }

  lemma FirstScanned(json: Json, r: Record, rest: Bytes)
    requires LawfulJson(json) && json.encode(r).Some?
    ensures ScannedOf(json, Line(json, r) + rest) ==
            if |Line(json, r)| > MAX_FRAME_BYTES then [] else [r] + ScannedOf(json, rest)
  {
    var line := json.encode(r).value;
    var raw := Line(json, r) + rest;
    assert LawfulLine(json, r, line);
    NewlineEndsLine(line, rest);
    assert raw[..|line|] == line && raw[|line| + 1..] == rest;
  }

  lemma {:induction false} ScannedPrefix(json: Json, rs: seq<Record>)
    requires LawfulJson(json) && Encodable(json, rs)
    ensures ScannedOf(json, Lines(json, rs)) <= rs
  {
    if rs != [] {
      ScannedPrefix(json, rs[1..]);
      FirstScanned(json, rs[0], Lines(json, rs[1..]));
      assert rs == [rs[0]] + rs[1..];
    }
  }

  lemma ScannedBatch(c: Codec, json: Json, b: Block, batch: seq<Record>)
    requires LawfulJson(json) && BlockHolds(c, json, b, batch)
    ensures ScannedOf(json, b.raw) <= batch
    ensures ScanRecords(json, b.raw).Ok? ==> ScanRecords(json, b.raw) == Ok(batch)
  {
    ScannedPrefix(json, batch);
    ScanLinesExactly(json, batch);
  }

  lemma FirstDelivered(c: Codec, json: Json, blocks: seq<Block>)
    requires GoodBlocks(c, blocks) && blocks != []
    ensures DeliveredFrom(c, json, Frames(blocks)) ==
            if BadSize(|blocks[0].stored|) then []
            else
              match ScanRecords(json, blocks[0].raw) {
                case Err(_) => ScannedOf(json, blocks[0].raw)
                case Ok(rs) => rs + DeliveredFrom(c, json, Frames(blocks[1..]))
              }
  {
    var rest := Frames(blocks);
    assert GoodBlock(c, blocks[0]);
    PiecesOfFirstFrame(blocks, |rest|);
    assert rest[..|rest|] == rest && Frames(blocks[1..])[..|Frames(blocks[1..])|] == Frames(blocks[1..]);
    HeaderOfFrame(blocks[0], rest);
    if !BadSize(|blocks[0].stored|) {
      DeliversFirst(c, json, rest, |blocks[0].stored|, blocks[0].raw);
    }
  }

  /** Whatever stops a reading of an archive, it has delivered its first records, in order. */
  lemma {:induction false} DeliveredPrefix(c: Codec, json: Json, blocks: seq<Block>, batches: seq<seq<Record>>)
    requires LawfulJson(json) && Holds(c, json, blocks, batches)
    ensures DeliveredFrom(c, json, Frames(blocks)) <= Flatten(batches)
  {
    if blocks != [] {
      HoldsGood(c, json, blocks, batches);
      HoldsTail(c, json, blocks, batches);
      FirstDelivered(c, json, blocks);
      ScannedBatch(c, json, blocks[0], batches[0]);
      DeliveredPrefix(c, json, blocks[1..], batches[1..]);
    }
  }
}
