/**
 * What an archive holds, apart from its bytes: the batches already flushed and the records still pending. The class
 * in KnowledgeArchive.dfy keeps its file, buffer, index and counter in step with this log.
 */
module ArchiveLog {
  import opened Text
  import opened ArchiveFormat
  import opened ArchiveRecords
  import opened ArchiveIndex
  import opened ArchiveCompaction

  /** `nonceAt(n)` is the n-th nonce drawn from the random source. */
  datatype Env = Env(
    codec: Codec, json: Json, tok: Tokenizer, settings: Settings, blockBytes: nat, nonceAt: nat -> Bytes)

  const POW62: nat := 0x4000_0000_0000_0000

  /** The laws of the parts left abstract; no line is as long as 2^62 bytes, so that lengths fit the frame header. */
  ghost predicate Lawful(e: Env) {
    && LawfulCodec(e.codec) && LawfulJson(e.json) && LawfulSettings(e.settings)
    && 0 < e.blockBytes < POW62
    && (forall n: nat :: |e.nonceAt(n)| == e.codec.nonceSize)
    && (forall r :: e.json.encode(r).Some? ==> |e.json.encode(r).value| < POW62)
    && (forall nonce, raw :: |nonce| == e.codec.nonceSize && |raw| < 2 * POW62 ==> |Store(e.codec, nonce, raw)| < POW64)
  }

  /** The laws ask for nothing impossible: for every record there is an environment with a key that marshals it. */
  lemma KeyedEnvironmentExists(sample: Record) returns (e: Env)
    ensures Lawful(e) && e.codec.encrypted && e.json.encode(sample).Some?
  {
    var wrap: Bytes -> Bytes := b => [1] + b;
    var unwrap: Bytes -> Option<Bytes> := b => if b == [] then None else Some(b[1..]);
    var codec := Codec(wrap, unwrap, true, 12, (nonce, plain) => wrap(plain), (nonce, stored) => unwrap(stored));
    var json := Json(r => if r == sample then Some([65]) else None,
                     line => if line == [65] then Some(sample) else None);
    var settings := Settings("", "", "", "", "", "", x => x, (kind, text, payload) => "hash");
    e := Env(codec, json, raw => [], settings, 4096, n => seq(12, i => 0));
    assert LawfulCodec(codec) by {
      assert forall b :: wrap(b)[1..] == b;
    }
  }

  datatype Log = Log(batches: seq<seq<Record>>, open: seq<Record>)

  const EMPTY_LOG := Log([], [])

  /** Every record appended, in order. */
  function All(log: Log): seq<Record> {
    Flatten(log.batches) + log.open
  }

  function FlushLog(log: Log): Log {
    if log.open == [] then log else Log(log.batches + [log.open], [])
  }

  function AppendLog(e: Env, log: Log, r: Record): Log
    requires Encodable(e.json, log.open) && e.json.encode(r).Some?
  {
    var added := Log(log.batches, log.open + [r]);
    if |Lines(e.json, log.open + [r])| >= e.blockBytes then FlushLog(added) else added
  }

  /** The log of a new archive after appending `rs`. */
  function AppendAll(e: Env, rs: seq<Record>): (log: Log)
    requires Encodable(e.json, rs)
    ensures Encodable(e.json, log.open)
  {
    if rs == [] then EMPTY_LOG else AppendLog(e, AppendAll(e, rs[..|rs| - 1]), rs[|rs| - 1])
  }

  /** The same after closing it. */
  function LogOf(e: Env, rs: seq<Record>): Log
    requires Encodable(e.json, rs)
  {
    FlushLog(AppendAll(e, rs))
  }

  predicate Normals(e: Env, rs: seq<Record>) {
    forall i :: 0 <= i < |rs| ==> IsNormal(e.settings, rs[i])
  }

  /** A flushed batch: without its last record it was still below the block size. */
  predicate GoodBatch(e: Env, batch: seq<Record>) {
    && batch != [] && Encodable(e.json, batch) && Normals(e, batch)
    && |Lines(e.json, batch[..|batch| - 1])| < e.blockBytes
  }

  predicate GoodOpen(e: Env, open: seq<Record>) {
    Encodable(e.json, open) && Normals(e, open) && |Lines(e.json, open)| < e.blockBytes
  }

  predicate Tidy(e: Env, log: Log) {
    GoodOpen(e, log.open) && forall i :: 0 <= i < |log.batches| ==> GoodBatch(e, log.batches[i])
  }

  lemma {:induction false} FlattenSnoc(batches: seq<seq<Record>>, batch: seq<Record>)
    ensures Flatten(batches + [batch]) == Flatten(batches) + batch
  {
    if batches == [] {
      assert [batch][1..] == [];
    } else {
      FlattenSnoc(batches[1..], batch);
      assert (batches + [batch])[1..] == batches[1..] + [batch];
    }
  }

  lemma FlushKeepsAll(log: Log)
    ensures All(FlushLog(log)) == All(log)
    ensures FlushLog(log).open == []
  {
    FlattenSnoc(log.batches, log.open);
  }

  /** Appending adds exactly the record at the end, whether or not it fills the block. */
  lemma AppendAddsOne(e: Env, log: Log, r: Record)
    requires Encodable(e.json, log.open) && e.json.encode(r).Some?
    ensures All(AppendLog(e, log, r)) == All(log) + [r]
  {
    FlushKeepsAll(Log(log.batches, log.open + [r]));
  }

  /** An append flushes exactly if the pending bytes reach the block size with it. */
  lemma FlushesExactly(e: Env, log: Log, r: Record)
    requires Encodable(e.json, log.open) && e.json.encode(r).Some?
    ensures var pending := |Lines(e.json, log.open)| + |e.json.encode(r).value| + 1;
            AppendLog(e, log, r) ==
            if pending >= e.blockBytes then Log(log.batches + [log.open + [r]], [])
            else Log(log.batches, log.open + [r])
  {
    LinesSnoc(e.json, log.open, r);
  }

  lemma {:induction false} AppendAllAdds(e: Env, rs: seq<Record>)
    requires Encodable(e.json, rs)
    ensures All(AppendAll(e, rs)) == rs
  {
    if rs != [] {
      var init, last := rs[..|rs| - 1], rs[|rs| - 1];
      AppendAllAdds(e, init);
      AppendAddsOne(e, AppendAll(e, init), last);
      assert init + [last] == rs;
    }
  }

  lemma AppendAllSnoc(e: Env, rs: seq<Record>, r: Record)
    requires Encodable(e.json, rs) && e.json.encode(r).Some?
    ensures Encodable(e.json, rs + [r]) && AppendAll(e, rs + [r]) == AppendLog(e, AppendAll(e, rs), r)
  {
    assert (rs + [r])[..|rs|] == rs;
  }

  lemma EmptyIsGood(e: Env)
    requires Lawful(e)
    ensures GoodOpen(e, []) && Lines(e.json, []) == []
  {
  }

  lemma {:induction false} LinesGrow(e: Env, open: seq<Record>)
    requires Encodable(e.json, open) && open != []
    ensures Lines(e.json, open) == Lines(e.json, open[..|open| - 1]) + Line(e.json, open[|open| - 1])
    ensures Lines(e.json, open) != []
  {
    assert open == open[..|open| - 1] + [open[|open| - 1]];
    LinesSnoc(e.json, open[..|open| - 1], open[|open| - 1]);
  }

  lemma PendingIsOpen(e: Env, open: seq<Record>)
    requires Encodable(e.json, open)
    ensures Lines(e.json, open) == [] <==> open == []
  {
  }

  /** What is about to be flushed: an open batch, or one whose last record reached the block size. */
  lemma OpenIsGoodBatch(e: Env, open: seq<Record>)
    requires open != [] && GoodOpen(e, open)
    ensures GoodBatch(e, open)
  {
    LinesGrow(e, open);
  }

  lemma AddedIsGood(e: Env, open: seq<Record>, r: Record)
    requires GoodOpen(e, open) && e.json.encode(r).Some? && IsNormal(e.settings, r)
    ensures Lines(e.json, open + [r]) == Lines(e.json, open) + Line(e.json, r)
    ensures GoodBatch(e, open + [r])
  {
    var added := open + [r];
    assert added[..|added| - 1] == open && added[|open|] == r;
    LinesSnoc(e.json, open, r);
  }

  /** A block is never larger than the block size and its last line together. */
  lemma BlocksAreBounded(e: Env, batch: seq<Record>)
    requires GoodBatch(e, batch)
    ensures |Lines(e.json, batch)| < e.blockBytes + |Line(e.json, batch[|batch| - 1])|
  {
    LinesGrow(e, batch);
  }

  lemma {:induction false} FlattenIsGood(e: Env, batches: seq<seq<Record>>)
    requires forall i :: 0 <= i < |batches| ==> GoodBatch(e, batches[i])
    ensures Encodable(e.json, Flatten(batches)) && Normals(e, Flatten(batches))
  {
    if batches != [] {
      assert forall i :: 0 <= i < |batches| - 1 ==> batches[1..][i] == batches[i + 1];
      FlattenIsGood(e, batches[1..]);
      assert GoodBatch(e, batches[0]);
    }
  }

  /** Records that all have a tenant survive compaction unchanged, so they marshal again. */
  lemma NamedRecordsMarshalAgain(e: Env, ctx: string, tenant: string, before: int, rs: seq<Record>)
    requires Encodable(e.json, rs) && AllNamed(rs)
    ensures Compacted(ctx, tenant, before, rs) == Kept(tenant, before, rs)
    ensures Encodable(e.json, Compacted(ctx, tenant, before, rs))
  {
    KeptNamed(tenant, before, rs);
    RelabelNamed(ctx, Kept(tenant, before, rs));
    var pick := KeptIsExact(tenant, before, rs);
  }

  // ---------------------------------------------------------------- bytes and log in step

  /** The flush of one batch keeps file, blocks and batches in step. */
  lemma FlushedBlockHolds(e: Env, batch: seq<Record>, n: nat)
    requires Lawful(e) && GoodBatch(e, batch)
    ensures var raw := Lines(e.json, batch);
            BlockHolds(e.codec, e.json, Block(raw, Store(e.codec, e.nonceAt(n), raw)), batch)
  {
    var raw := Lines(e.json, batch);
    BlocksAreBounded(e, batch);
    assert e.json.encode(batch[|batch| - 1]).Some?;
    assert |raw| < 2 * POW62;
    UnstoreStore(e.codec, e.nonceAt(n), raw);
  }

  lemma FileSnoc(blocks: seq<Block>, b: Block)
    ensures FileOf(blocks + [b]) == FileOf(blocks) + PutBE(|b.raw|, 8) + PutBE(|b.stored|, 8) + b.stored
  {
    FramesSnoc(blocks, b);
    assert MAGIC + (Frames(blocks) + (PutBE(|b.raw|, 8) + PutBE(|b.stored|, 8) + b.stored)) ==
           MAGIC + Frames(blocks) + PutBE(|b.raw|, 8) + PutBE(|b.stored|, 8) + b.stored;
  }

  function CountNewlines(raw: Bytes): nat {
    if raw == [] then 0 else (if raw[0] == NEWLINE then 1 else 0) + CountNewlines(raw[1..])
  }

  lemma {:induction false} CountNewlinesOfLine(line: Bytes, rest: Bytes)
    requires NEWLINE !in line
    ensures CountNewlines(line + [NEWLINE] + rest) == 1 + CountNewlines(rest)
  {
    if line == [] {
      assert (line + [NEWLINE] + rest)[1..] == rest;
    } else {
      CountNewlinesOfLine(line[1..], rest);
      assert (line + [NEWLINE] + rest)[1..] == line[1..] + [NEWLINE] + rest;
    }
  }

  /** The newlines a flush adds to the record counter are the records of the batch. */
  lemma {:induction false} NewlinesAreRecords(json: Json, batch: seq<Record>)
    requires LawfulJson(json) && Encodable(json, batch)
    ensures CountNewlines(Lines(json, batch)) == |batch|
  {
    if batch != [] {
      NewlinesAreRecords(json, batch[1..]);
      var line := json.encode(batch[0]).value;
      assert LawfulLine(json, batch[0], line);
      CountNewlinesOfLine(line, Lines(json, batch[1..]));
    }
  }

  // ---------------------------------------------------------------- whole runs

  datatype Op = Add(record: Record) | FlushNow

  /** Appends, of which one that fails to marshal does nothing, and flushes. */
  function Run(e: Env, ops: seq<Op>): (log: Log)
    ensures Encodable(e.json, log.open)
  {
    if ops == [] then EMPTY_LOG
    else
      var before := Run(e, ops[..|ops| - 1]);
      match ops[|ops| - 1]
      case FlushNow => FlushLog(before)
      case Add(r) => if e.json.encode(r) == None then before else AppendLog(e, before, r)
  }

  /** The records that were appended, in order. */
  function Appended(json: Json, ops: seq<Op>): seq<Record> {
    if ops == [] then []
    else
      Appended(json, ops[..|ops| - 1]) +
      match ops[|ops| - 1] { case FlushNow => [] case Add(r) => if json.encode(r) == None then [] else [r] }
  }

  ghost predicate AddsNormals(e: Env, ops: seq<Op>) {
    forall i :: 0 <= i < |ops| && ops[i].Add? ==> IsNormal(e.settings, ops[i].record)
  }

  lemma {:induction false} RunHoldsAppended(e: Env, ops: seq<Op>)
    requires Lawful(e) && AddsNormals(e, ops)
    ensures All(Run(e, ops)) == Appended(e.json, ops) && Tidy(e, Run(e, ops))
  {
    if ops == [] {
      EmptyIsGood(e);
    } else {
      var before, op := Run(e, ops[..|ops| - 1]), ops[|ops| - 1];
      RunHoldsAppended(e, ops[..|ops| - 1]);
      match op {
        case FlushNow =>
          FlushKeepsAll(before);
          FlushIsTidy(e, before);
        case Add(r) =>
          if e.json.encode(r).Some? {
            AppendAddsOne(e, before, r);
            AddedIsGood(e, before.open, r);
            EmptyIsGood(e);
          }
      }
    }
  }

  lemma FlushIsTidy(e: Env, log: Log)
    requires Lawful(e) && Tidy(e, log)
    ensures Tidy(e, FlushLog(log))
  {
    EmptyIsGood(e);
    if log.open != [] {
      OpenIsGoodBatch(e, log.open);
    }
  }

  /** No stored block is oversized, and with its newline every appended line leaves room for a block beside it. */
  ghost predicate Moderate(e: Env, blocks: seq<Block>, rs: seq<Record>)
    requires Encodable(e.json, rs)
  {
    && e.blockBytes <= MAX_FRAME_BYTES
    && (forall i :: 0 <= i < |rs| ==> |Line(e.json, rs[i])| + e.blockBytes <= MAX_FRAME_BYTES)
    && (forall j :: 0 <= j < |blocks| ==> |blocks[j].stored| <= MAX_FRAME_BYTES)
  }

  /**
   * After any sequence of appends and flushes and a final flush, the file reads back as exactly the records appended,
   * in order, if and only if stored blocks and lines fit, wherever the block boundaries fell; then the block count is
   * the number of flushed batches. If lines stay a block size below the limit, everything fits, for the index too.
   */
  lemma ArchiveOfRun(e: Env, ops: seq<Op>, blocks: seq<Block>)
    requires Lawful(e) && AddsNormals(e, ops)
    requires Holds(e.codec, e.json, blocks, FlushLog(Run(e, ops)).batches)
    ensures var batches, read := FlushLog(Run(e, ops)).batches, ReadArchive(e.codec, e.json, FileOf(blocks));
            && Encodable(e.json, Appended(e.json, ops))
            && (read.Ok? <==> FitsUpTo(blocks, |blocks|) && BatchesFit(e.json, batches))
            && (read.Ok? ==> read == Ok(Appended(e.json, ops)) && CountBlocks(FileOf(blocks)) == Ok(|batches|))
            && (Moderate(e, blocks, Appended(e.json, ops)) ==> read.Ok? && Indexable(blocks, 0))
  {
    var log := FlushLog(Run(e, ops));
    RunHoldsAppended(e, ops);
    FlushKeepsAll(Run(e, ops));
    FlushIsTidy(e, Run(e, ops));
    assert All(log) == Flatten(log.batches);
    FlattenIsGood(e, log.batches);
    RoundTripExactly(e.codec, e.json, blocks, log.batches);
    if Moderate(e, blocks, Flatten(log.batches)) {
      forall i | 0 <= i < |blocks|
        ensures LinesFit(e.json, log.batches[i]) && !BadSize(|blocks[i].raw|) && !BadSize(|blocks[i].stored|)
      {
        BatchFits(e, blocks, log.batches, i);
      }
    }
  }

  lemma BatchFits(e: Env, blocks: seq<Block>, batches: seq<seq<Record>>, i: nat)
    requires Holds(e.codec, e.json, blocks, batches) && i < |batches| && GoodBatch(e, batches[i])
    requires Encodable(e.json, Flatten(batches)) && Moderate(e, blocks, Flatten(batches))
    ensures LinesFit(e.json, batches[i]) && !BadSize(|blocks[i].raw|) && !BadSize(|blocks[i].stored|)
  {
    var batch := batches[i];
    assert BlockHolds(e.codec, e.json, blocks[i], batch);
    forall k | 0 <= k < |batch|
      ensures |Line(e.json, batch[k])| + e.blockBytes <= MAX_FRAME_BYTES
    {
      var p := PlaceInFlatten(batches, i, k);
    }
    BlocksAreBounded(e, batch);
    LinesGrow(e, batch);
  }

  lemma {:induction false} PlaceInFlatten(batches: seq<seq<Record>>, i: nat, k: nat) returns (p: nat)
    requires i < |batches| && k < |batches[i]|
    ensures p < |Flatten(batches)| && Flatten(batches)[p] == batches[i][k]
  {
    if i == 0 {
      p := k;
    } else {
      var q := PlaceInFlatten(batches[1..], i - 1, k);
      p := |batches[0]| + q;
    }
  }
}
