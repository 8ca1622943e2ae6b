/** The archive object of internal/knowledge/archive.go, on a fresh file, with file writes that succeed. */
module KnowledgeArchive {
  import opened Text
  import opened ArchiveFormat
  import opened ArchiveRecords
  import opened ArchiveIndex
  import opened ArchiveCompaction
  import opened ArchiveLog

  ghost function EntriesAfter(e: Env, stale: seq<IndexEntry>, blocks: seq<Block>): seq<IndexEntry> {
    if e.codec.encrypted then [] else stale + EntriesOf(e.tok, blocks)
  }

  /** Blocks, file, index and counter belong to the flushed batches. */
  ghost predicate Stored(e: Env, blocks: seq<Block>, batches: seq<seq<Record>>, stale: seq<IndexEntry>,
                         file: Bytes, index: seq<IndexEntry>, records: nat)
  {
    && Holds(e.codec, e.json, blocks, batches) && GoodBatches(e, batches)
    && file == FileOf(blocks) && index == EntriesAfter(e, stale, blocks) && records == |Flatten(batches)|
  }

  /** The bytes of one more frame. */
  function WithFrame(file: Bytes, raw: Bytes, stored: Bytes): Bytes {
    file + PutBE(|raw|, 8) + PutBE(|stored|, 8) + stored
  }

  function WithEntry(e: Env, index: seq<IndexEntry>, offset: nat, raw: Bytes, stored: Bytes): seq<IndexEntry> {
    if e.codec.encrypted then index
    else index + [IndexEntry(offset, offset + 16 + |stored|, TermsOf(e.tok(raw)))]
  }

  /** One flushed batch keeps blocks, batches, file, index and counter in step. */
  lemma FlushStep(e: Env, blocks: seq<Block>, batches: seq<seq<Record>>, stale: seq<IndexEntry>,
                  file: Bytes, index: seq<IndexEntry>, records: nat, batch: seq<Record>, n: nat)
    requires Lawful(e) && Stored(e, blocks, batches, stale, file, index, records) && GoodBatch(e, batch)
    ensures var raw := Lines(e.json, batch);
            var stored := Store(e.codec, e.nonceAt(n), raw);
            Stored(e, blocks + [Block(raw, stored)], batches + [batch], stale,
                   WithFrame(file, raw, stored), WithEntry(e, index, |file|, raw, stored), records + CountNewlines(raw))
  {
    var raw := Lines(e.json, batch);
    var b := Block(raw, Store(e.codec, e.nonceAt(n), raw));
    FlushedBlockHolds(e, batch, n);
    BatchesStep(e, blocks, batches, b, batch);
    BytesStep(e, blocks, stale, b);
    FlattenSnoc(batches, batch);
    NewlinesAreRecords(e.json, batch);
  }

  ghost predicate GoodBatches(e: Env, batches: seq<seq<Record>>) {
    forall i :: 0 <= i < |batches| ==> GoodBatch(e, batches[i])
  }

  lemma BatchesStep(e: Env, blocks: seq<Block>, batches: seq<seq<Record>>, b: Block, batch: seq<Record>)
    requires Holds(e.codec, e.json, blocks, batches) && GoodBatches(e, batches)
    requires BlockHolds(e.codec, e.json, b, batch) && GoodBatch(e, batch)
    ensures Holds(e.codec, e.json, blocks + [b], batches + [batch]) && GoodBatches(e, batches + [batch])
  {
  }

  lemma BytesStep(e: Env, blocks: seq<Block>, stale: seq<IndexEntry>, b: Block)
    ensures FileOf(blocks + [b]) == WithFrame(FileOf(blocks), b.raw, b.stored)
    ensures EntriesAfter(e, stale, blocks + [b]) ==
            WithEntry(e, EntriesAfter(e, stale, blocks), |FileOf(blocks)|, b.raw, b.stored)
  {
    FileSnoc(blocks, b);
    EntriesSnoc(e.tok, blocks, b);
  }

  /** The blocks read back, and the records to be written marshal. */
  ghost predicate CanRewrite(e: Env, blocks: seq<Block>, batches: seq<seq<Record>>, target: seq<Record>) {
    FitsUpTo(blocks, |blocks|) && BatchesFit(e.json, batches) && Encodable(e.json, target)
  }

  /** With `rs` behind it, a loop that delivers `all` and ends with `end` goes on with `more` and `rest`. */
  ghost predicate Continues(all: seq<Record>, end: Result<seq<Record>, ReadError>, rs: seq<Record>,
                            more: seq<Record>, rest: Result<seq<Record>, ReadError>)
  {
    all == rs + more && end == Prepend(rs, rest)
  }

  lemma ContinuesStart(all: seq<Record>, end: Result<seq<Record>, ReadError>)
    ensures Continues(all, end, [], all, end)
  {
    if end.Ok? {
      assert [] + end.value == end.value;
    }
  }

  lemma ContinuesStep(all: seq<Record>, end: Result<seq<Record>, ReadError>, rs: seq<Record>, next: seq<Record>,
                      more: seq<Record>, rest: Result<seq<Record>, ReadError>)
    ensures Continues(all, end, rs, next + more, Prepend(next, rest)) ==> Continues(all, end, rs + next, more, rest)
  {
    assert rs + (next + more) == rs + next + more;
    if rest.Ok? {
      assert rs + (next + rest.value) == rs + next + rest.value;
    }
  }

  /** The records a compaction appends to its copy, unless something stops it. */
  ghost function ToCopy(e: Env, ctx: string, tenant: string, before: int, file: Bytes): seq<Record> {
    Compacted(ctx, tenant, before, Delivered(e.codec, e.json, file))
  }

  class Archive {
    const env: Env
    var file: Bytes
    var pending: Bytes
    var index: seq<IndexEntry>
    /** The index file that a failed compaction left under the temporary name. */
    var leftover: seq<IndexEntry>
    var records: nat
    var nonces: nat
    ghost var blocks: seq<Block>
    ghost var log: Log
    /** Index entries that do not stem from the flushes of this file. */
    ghost var stale: seq<IndexEntry>

    ghost predicate Valid()
      reads this
    {
      && Stored(env, blocks, log.batches, stale, file, index, records)
      && GoodOpen(env, log.open) && pending == Lines(env.json, log.open)
    }

    /** `Open` on a new path; its index file may already hold entries. */
    constructor (env: Env, nonces: nat, found: seq<IndexEntry>)
      requires Lawful(env)
      ensures Valid() && this.env == env && log == EMPTY_LOG && leftover == [] && this.nonces == nonces
      ensures stale == (if env.codec.encrypted then [] else found)
    {
      this.env := env;
      file, pending, records := MAGIC, [], 0;
      index := if env.codec.encrypted then [] else found;
      leftover, this.nonces := [], nonces;
      blocks, log := [], EMPTY_LOG;
      stale := if env.codec.encrypted then [] else found;
    }

    method Append(ctx: string, now: int, given: Record) returns (ok: bool)
      requires Lawful(env) && Valid() && now != 0
      modifies this`file, this`pending, this`index, this`records, this`nonces, this`blocks, this`log
      ensures Valid()
      ensures var r := Normalise(env.settings, ctx, now, given);
              && ok == env.json.encode(r).Some?
              && log == (if ok then AppendLog(env, old(log), r) else old(log))
    {
      var record := Prepare(ctx, now, given);
      var line := env.json.encode(record);
      if line == None { return false; }
      NormaliseIsNormal(env.settings, ctx, now, given);
      AddedIsGood(env, log.open, record);
      pending := pending + (line.value + [NEWLINE]);
      ghost var added := log.open + [record];
      if |pending| >= env.blockBytes {
        WriteBlock(added);
      } else {
        log := Log(log.batches, added);
      }
      return true;
    }

    /** The assignments of `Append` to its copy of the record. */
    method Prepare(ctx: string, now: int, given: Record) returns (record: Record)
      ensures record == Normalise(env.settings, ctx, now, given)
    {
      var s := env.settings;
      record := given.(schemaVersion := if given.schemaVersion == 0 then 1 else given.schemaVersion);
      record := record.(tenant := OrElse(record.tenant, ctx));
      record := record.(timestamp := if record.timestamp == 0 then now else record.timestamp);
      record := record.(project := OrElse(record.project, s.project));
      record := record.(repository := OrElse(record.repository, s.repository));
      record := record.(branch := OrElse(record.branch, s.branch));
      record := record.(commit := OrElse(record.commit, s.commit));
      record := record.(agent := OrElse(record.agent, s.agent));
      record := record.(model := OrElse(record.model, s.model));
      record := record.(contentHash := OrElse(record.contentHash, s.hash(record.kind, record.text, record.payload)));
      var redactedText := s.redact(record.text);
      if redactedText != record.text { record := record.(sensitive := true, text := redactedText); }
      if |record.payload| > 0 {
        var redactedPayload := s.redact(record.payload);
        if redactedPayload != record.payload {
          record := record.(sensitive := true, payload := redactedPayload);
        }
      }
    }

    method Flush()
      requires Lawful(env) && Valid()
      modifies this`file, this`pending, this`index, this`records, this`nonces, this`blocks, this`log
      ensures Valid()
      ensures log == FlushLog(old(log))
    {
      PendingIsOpen(env, log.open);
      if pending == [] { return; }
      OpenIsGoodBatch(env, log.open);
      WriteBlock(log.open);
    }

    /** `flushLocked` with something pending. */
    method WriteBlock(ghost batch: seq<Record>)
      requires Lawful(env) && Stored(env, blocks, log.batches, stale, file, index, records)
      requires GoodBatch(env, batch) && pending == Lines(env.json, batch)
      modifies this`file, this`pending, this`index, this`records, this`nonces, this`blocks, this`log
      ensures Valid()
      ensures log == Log(old(log.batches) + [batch], [])
    {
      var raw := pending;
      FlushStep(env, blocks, log.batches, stale, file, index, records, batch, nonces);
      EmptyIsGood(env);
      var stored := Seal(raw);
      WriteFrame(raw, stored);
      pending := [];
      records := records + CountNewlines(raw);
      blocks := blocks + [Block(raw, stored)];
      log := Log(log.batches + [batch], []);
    }

    /** The frame goes to the end of the file, and its entry to the end of the index. */
    method WriteFrame(raw: Bytes, stored: Bytes)
      modifies this`file, this`index
      ensures file == WithFrame(old(file), raw, stored)
      ensures index == WithEntry(env, old(index), |old(file)|, raw, stored)
    {
      var offset := |file|;
      file := file + PutBE(|raw|, 8) + PutBE(|stored|, 8);
      file := file + stored;
      if !env.codec.encrypted {
        var terms := IndexTerms(env.tok, raw);
        index := index + [IndexEntry(offset, offset + 16 + |stored|, terms)];
      }
    }

    /** Compression and, with a key, encryption under the next nonce. */
    method Seal(raw: Bytes) returns (stored: Bytes)
      modifies this`nonces
      ensures stored == Store(env.codec, env.nonceAt(old(nonces)), raw)
    {
      stored := env.codec.compress(raw);
      if env.codec.encrypted {
        var nonce := env.nonceAt(nonces);
        stored := nonce + env.codec.seal(nonce, stored);
        nonces := nonces + 1;
      }
    }

    /** `forEachRecordLocked`: the records it delivers, and the error it ends with, if any. */
    method ForEachRecord() returns (rs: seq<Record>, err: Option<ReadError>)
      ensures rs == Delivered(env.codec, env.json, file)
      ensures err == None ==> ReadArchive(env.codec, env.json, file) == Ok(rs)
      ensures err != None ==> ReadArchive(env.codec, env.json, file).Err?
    {
      rs := [];
      if |file| < |MAGIC| { return rs, Some(ShortHeader); }
      var rest := file[|MAGIC|..];
      ContinuesStart(DeliveredFrom(env.codec, env.json, rest), ReadFrom(env.codec, env.json, rest));
      while rest != []
        invariant Reading(file[|MAGIC|..], rs, rest)
        decreases |rest|
      {
        if |rest| < 16 { return rs, Some(Truncated); }
        var n := StoredLength(rest);
        if n == 0 || n > MAX_FRAME_BYTES { return rs, Some(BadFrameSize); }
        if |rest| < 16 + n { return rs, Some(Truncated); }
        var raw := Unstore(env.codec, rest[16..16 + n]);
        if raw == None { return rs, Some(BadBlock); }
        var found, bad := ScanBlock(raw.value);
        ReadingStep(file[|MAGIC|..], rs, rest, n, raw.value);
        rs := rs + found;
        if bad { return rs, Some(BadRecord); }
        rest := rest[16 + n..];
      }
      return rs, None;
    }

    /** With `rs` delivered, reading `whole` goes on with `rest`. */
    ghost predicate Reading(whole: Bytes, rs: seq<Record>, rest: Bytes) {
      Continues(DeliveredFrom(env.codec, env.json, whole), ReadFrom(env.codec, env.json, whole), rs,
                DeliveredFrom(env.codec, env.json, rest), ReadFrom(env.codec, env.json, rest))
    }

    lemma ReadingStep(whole: Bytes, rs: seq<Record>, rest: Bytes, n: nat, raw: Bytes)
      requires Reading(whole, rs, rest)
      requires |rest| >= 16 && n == StoredLength(rest) && !BadSize(n) && |rest| >= 16 + n
      requires Unstore(env.codec, rest[16..16 + n]) == Some(raw)
      ensures match ScanRecords(env.json, raw)
              case Err(_) =>
                && DeliveredFrom(env.codec, env.json, whole) == rs + ScannedOf(env.json, raw)
                && ReadFrom(env.codec, env.json, whole).Err?
              case Ok(found) => Reading(whole, rs + found, rest[16 + n..])
    {
      DeliversFirst(env.codec, env.json, rest, n, raw);
      ReadsFirst(env.codec, env.json, rest, n, raw);
      if ScanRecords(env.json, raw).Ok? {
        ContinuesStep(DeliveredFrom(env.codec, env.json, whole), ReadFrom(env.codec, env.json, whole), rs,
                      ScanRecords(env.json, raw).value, DeliveredFrom(env.codec, env.json, rest[16 + n..]),
                      ReadFrom(env.codec, env.json, rest[16 + n..]));
      }
    }

    /** The scanner loop over one block. */
    method ScanBlock(raw: Bytes) returns (rs: seq<Record>, bad: bool)
      ensures rs == ScannedOf(env.json, raw)
      ensures !bad ==> ScanRecords(env.json, raw) == Ok(rs)
      ensures bad ==> ScanRecords(env.json, raw) == Err(BadRecord)
    {
      rs := [];
      ContinuesStart(ScannedOf(env.json, raw), ScanRecords(env.json, raw));
      var rest := raw;
      while rest != []
        invariant Scanning(raw, rs, rest)
        decreases |rest|
      {
        var i := NewlineAt(rest);
        if i >= MAX_FRAME_BYTES { return rs, true; }
        var record := env.json.decode(DropReturn(rest[..i]));
        if record == None { return rs, true; }
        ScanningStep(raw, rs, rest, i, record.value);
        rs := rs + [record.value];
        rest := if i < |rest| then rest[i + 1..] else [];
      }
      return rs, false;
    }

    /** With `rs` scanned, scanning `raw` goes on with `rest`. */
    ghost predicate Scanning(raw: Bytes, rs: seq<Record>, rest: Bytes) {
      Continues(ScannedOf(env.json, raw), ScanRecords(env.json, raw), rs,
                ScannedOf(env.json, rest), ScanRecords(env.json, rest))
    }

    lemma ScanningStep(raw: Bytes, rs: seq<Record>, rest: Bytes, i: nat, r: Record)
      requires Scanning(raw, rs, rest) && rest != []
      requires i == NewlineAt(rest) < MAX_FRAME_BYTES && env.json.decode(DropReturn(rest[..i])) == Some(r)
      ensures Scanning(raw, rs + [r], if i < |rest| then rest[i + 1..] else [])
    {
      var next := if i < |rest| then rest[i + 1..] else [];
      ScansFirst(env.json, rest, i, r);
      ContinuesStep(ScannedOf(env.json, raw), ScanRecords(env.json, raw), rs, [r],
                    ScannedOf(env.json, next), ScanRecords(env.json, next));
    }

    method CountBlocksLocked() returns (r: Result<nat, ReadError>)
      ensures r == CountBlocks(file)
    {
      if |file| < |MAGIC| { return Err(ShortHeader); }
      if file[..|MAGIC|] != MAGIC { return Err(BadMagic); }
      var rest, count: nat := file[|MAGIC|..], 0;
      while rest != []
        invariant CountBlocks(file) ==
                  match CountFrames(rest) { case Err(e) => Err(e) case Ok(m) => Ok(count + m) }
        decreases |rest|
      {
        if |rest| < 16 { return Err(Truncated); }
        var n := StoredLength(rest);
        if n == 0 || n > MAX_FRAME_BYTES { return Err(BadFrameSize); }
        if |rest| < 16 + n { return Err(Truncated); }
        rest := rest[16 + n..];
        count := count + 1;
      }
      return Ok(count);
    }

    /** How a search chooses its frames: by the index behind a flush, or, with a key, without one. */
    method ChooseFrames(lineBytes: IndexEntry -> nat, terms: seq<string>) returns (r: Option<set<nat>>)
      requires Lawful(env) && Valid()
      modifies this`file, this`pending, this`index, this`records, this`nonces, this`blocks, this`log
      ensures Valid() && log == FlushLog(old(log))
      ensures r == if env.codec.encrypted then None else SelectedAfter(env.tok, stale, blocks, lineBytes, terms)
    {
      Flush();
      if env.codec.encrypted { return None; }
      r := IndexedOffsets(LinesOf(index, lineBytes), |file|, terms);
    }

    /** An archive of which every block passes the size checks gets exactly the entries of its flushes. */
    method RebuildIndex() returns (ok: bool)
      requires Lawful(env) && Valid()
      modifies this
      ensures Valid() && leftover == old(leftover)
      ensures log == if env.codec.encrypted then old(log) else FlushLog(old(log))
      ensures ok <==> !env.codec.encrypted && Indexable(blocks, 0)
      ensures stale == if ok then [] else old(stale)
      ensures ok ==> index == EntriesOf(env.tok, blocks)
    {
      if env.codec.encrypted { return false; }
      Flush();
      HoldsGood(env.codec, env.json, blocks, log.batches);
      RebuildExactly(env.codec, env.tok, blocks, 0);
      assert RestAt(blocks, 0) == file[|MAGIC|..];
      assert file[..|MAGIC|] == MAGIC;
      var r := RebuildEntries();
      if r.Ok? {
        index := r.value;
        stale := [];
        assert [] + EntriesOf(env.tok, blocks) == EntriesOf(env.tok, blocks);
      }
      ok := r.Ok?;
    }

    /** The frame loop of `RebuildIndex`, on a file with a valid header. */
    method RebuildEntries() returns (r: Result<seq<IndexEntry>, ReadError>)
      requires |file| >= |MAGIC| && file[..|MAGIC|] == MAGIC
      ensures r == Rebuild(env.codec, env.tok, |MAGIC|, file[|MAGIC|..])
    {
      var offset: nat, rest, es := |MAGIC|, file[|MAGIC|..], [];
      AddEntriesNothing(Rebuild(env.codec, env.tok, offset, rest));
      while rest != []
        invariant Rebuild(env.codec, env.tok, |MAGIC|, file[|MAGIC|..]) ==
                  AddEntries(es, Rebuild(env.codec, env.tok, offset, rest))
        decreases |rest|
      {
        if |rest| < 16 { return Err(Truncated); }
        var rawLen, n := RawLength(rest), StoredLength(rest);
        if BadSize(rawLen) || BadSize(n) { return Err(BadFrameSize); }
        if |rest| < 16 + n { return Err(Truncated); }
        var raw := env.codec.decompress(rest[16..16 + n]);
        if raw == None || |raw.value| != rawLen { return Err(BadBlock); }
        var terms := IndexTerms(env.tok, raw.value);
        var entry := IndexEntry(offset, offset + 16 + n, terms);
        AddEntriesSnoc(es, entry, Rebuild(env.codec, env.tok, offset + 16 + n, rest[16 + n..]));
        es := es + [entry];
        offset := offset + 16 + n;
        rest := rest[16 + n..];
      }
      assert es + [] == es;
      return Ok(es);
    }

    /**
     * `compact` in a context that is cancelled once `life` records have been appended, or never. On success the archive
     * holds exactly the compacted records, all flushed. It fails exactly when the old file does not read back, a record
     * does not marshal again or the context is cancelled; then only the pending records were flushed, and `copied`,
     * the records that had been appended to the copy, leave the entries of its blocks under the temporary name.
     */
    method Compact(ctx: string, now: int, before: int, tenant: string, life: Option<nat>)
      returns (r: Option<nat>, ghost flushed: seq<Block>, ghost copy: seq<Block>, ghost copied: seq<Record>)
      requires Lawful(env) && Valid() && now != 0
      modifies this
      ensures Valid() && Holds(env.codec, env.json, flushed, FlushLog(old(log)).batches)
      ensures var source, target := FlushLog(old(log)).batches, Compacted(ctx, tenant, before, All(old(log)));
              && (r.Some? <==> CanRewrite(env, flushed, source, target) && !CutShort(life, |target|))
              && (r.Some? ==> Rewritten(target, r.value, old(leftover)))
      ensures r == None ==>
                && log == FlushLog(old(log)) && blocks == flushed && stale == old(stale)
                && LeftBehind(copy, copied, old(leftover))
                && IsCopy(env.json, life, ToCopy(env, ctx, tenant, before, FileOf(flushed)), copied)
    {
      FlushKeepsAll(log);
      Flush();
      flushed := blocks;
      r, copy, copied := Rewrite(ctx, now, before, tenant, life, Compacted(ctx, tenant, before, All(log)));
    }

    /** What a successful compaction leaves: the records of `target`, all flushed and counted. */
    ghost predicate Rewritten(target: seq<Record>, kept: nat, found: seq<IndexEntry>)
      reads this
    {
      && Encodable(env.json, target) && log == LogOf(env, target)
      && All(log) == target && log.open == [] && kept == records == |target|
      && leftover == (if env.codec.encrypted then found else [])
      && stale == if env.codec.encrypted then [] else found
    }

    /** What a failed one leaves under the temporary name: what it found there, and the entries of the copy. */
    ghost predicate LeftBehind(copy: seq<Block>, copied: seq<Record>, found: seq<IndexEntry>)
      reads this
    {
      && Encodable(env.json, copied) && Holds(env.codec, env.json, copy, LogOf(env, copied).batches)
      && leftover == if env.codec.encrypted then found else found + EntriesOf(env.tok, copy)
    }

    /** `compact` behind the flush. */
    method Rewrite(ctx: string, now: int, before: int, tenant: string, life: Option<nat>, ghost target: seq<Record>)
      returns (r: Option<nat>, ghost copy: seq<Block>, ghost copied: seq<Record>)
      requires Lawful(env) && Valid() && now != 0 && log.open == []
      requires target == Compacted(ctx, tenant, before, All(log))
      modifies this
      ensures Valid()
      ensures r.Some? <==> CanRewrite(env, old(blocks), old(log.batches), target) && !CutShort(life, |target|)
      ensures if r.Some? then Rewritten(target, r.value, old(leftover))
              else
                && log == old(log) && blocks == old(blocks) && stale == old(stale)
                && LeftBehind(copy, copied, old(leftover))
                && IsCopy(env.json, life, ToCopy(env, ctx, tenant, before, old(file)), copied)
    {
      var out, ok, kept, part := WriteCopy(ctx, now, before, tenant, life, target);
      copy, copied := out.blocks, part;
      if !ok { return None, copy, copied; }
      AppendAllAdds(env, target);
      FlushKeepsAll(AppendAll(env, target));
      TakeOver(out);
      return Some(kept), copy, copied;
    }

    /**
     * The new archive under the temporary name, closed; `ok` says that reading and every append succeeded. If not, the
     * new file is removed, but not its index.
     */
    method WriteCopy(ctx: string, now: int, before: int, tenant: string, life: Option<nat>, ghost target: seq<Record>)
      returns (out: Archive, ok: bool, kept: nat, ghost copied: seq<Record>)
      requires Lawful(env) && Valid() && now != 0 && log.open == []
      requires target == Compacted(ctx, tenant, before, All(log))
      modifies this`nonces, this`leftover
      ensures Valid() && fresh(out) && out.Valid() && out.env == env && out.log.open == []
      ensures out.stale == if env.codec.encrypted then [] else old(leftover)
      ensures IsCopy(env.json, life, ToCopy(env, ctx, tenant, before, file), copied) && out.log == LogOf(env, copied)
      ensures ok <==> CanRewrite(env, blocks, log.batches, target) && !CutShort(life, |target|)
      ensures ok ==> copied == target && kept == |target|
      ensures leftover == if ok || env.codec.encrypted then old(leftover) else out.index
    {
      out := new Archive(env, nonces, leftover);
      ok, kept, copied := CopyInto(out, ctx, now, before, tenant, life, target);
      Leave(out, ok);
    }

    /** The random source goes on, and without a key a failed copy leaves its index. */
    method Leave(out: Archive, ok: bool)
      requires Valid() && out != this
      modifies this`nonces, this`leftover
      ensures Valid()
      ensures leftover == if ok || env.codec.encrypted then old(leftover) else out.index
    {
      nonces := out.nonces;
      if !ok && !env.codec.encrypted { leftover := out.index; }
    }

    /** Reading, appending what is kept, and closing. */
    method CopyInto(out: Archive, ctx: string, now: int, before: int, tenant: string, life: Option<nat>,
                    ghost target: seq<Record>)
      returns (ok: bool, kept: nat, ghost copied: seq<Record>)
      requires Lawful(env) && Valid() && now != 0 && log.open == []
      requires target == Compacted(ctx, tenant, before, All(log))
      requires out != this && out.env == env && out.Valid() && out.log == EMPTY_LOG
      modifies out`file, out`pending, out`index, out`records, out`nonces, out`blocks, out`log
      ensures out.Valid() && out.log.open == []
      ensures IsCopy(env.json, life, ToCopy(env, ctx, tenant, before, file), copied) && out.log == LogOf(env, copied)
      ensures ok <==> CanRewrite(env, blocks, log.batches, target) && !CutShort(life, |target|)
      ensures ok ==> copied == target && kept == |target|
    {
      var rs, err := ReadAll();
      ok, kept, copied := out.AppendKept(ctx, now, before, tenant, life, rs);
      CopiesAllExactly(env.json, life, Compacted(ctx, tenant, before, rs), copied);
      FlushKeepsAll(out.log);
      out.Flush();
      ok := err == None && ok && !CutShort(life, kept);
    }

    /** With nothing pending, reading delivers all records of the log, exactly when sizes and lines fit. */
    method ReadAll() returns (rs: seq<Record>, err: Option<ReadError>)
      requires Lawful(env) && Valid() && log.open == []
      ensures err == None <==> FitsUpTo(blocks, |blocks|) && BatchesFit(env.json, log.batches)
      ensures rs == Delivered(env.codec, env.json, file) && rs <= All(log) && Normals(env, rs)
      ensures err == None ==> rs == All(log)
    {
      RoundTripExactly(env.codec, env.json, blocks, log.batches);
      DeliveredPrefix(env.codec, env.json, blocks, log.batches);
      FlattenIsGood(env, log.batches);
      assert All(log) == Flatten(log.batches);
      assert file[|MAGIC|..] == Frames(blocks);
      rs, err := ForEachRecord();
    }

    /**
     * The callback of `compact` on the records read, appending to the new archive until an append fails or finds the
     * context cancelled.
     */
    method AppendKept(ctx: string, now: int, before: int, tenant: string, life: Option<nat>, rs: seq<Record>)
      returns (ok: bool, kept: nat, ghost copied: seq<Record>)
      requires Lawful(env) && Valid() && now != 0 && log == EMPTY_LOG && Normals(env, rs)
      modifies this`file, this`pending, this`index, this`records, this`nonces, this`blocks, this`log
      ensures Valid()
      ensures IsCopy(env.json, life, Compacted(ctx, tenant, before, rs), copied) && log == AppendAll(env, copied)
      ensures kept == |copied| && (ok <==> copied == Compacted(ctx, tenant, before, rs))
    {
      ok, kept, copied := true, 0, [];
      for i := 0 to |rs|
        invariant Valid() && ok
        invariant copied == Compacted(ctx, tenant, before, rs[..i]) && Reached(life, copied, kept)
      {
        StepOfCopy(ctx, tenant, before, rs, i);
        ok, kept, copied := Visit(ctx, now, before, tenant, life, rs[i], kept, copied);
        if !ok { return; }
      }
      assert rs[..|rs|] == rs;
    }

    ghost predicate Reached(life: Option<nat>, copied: seq<Record>, kept: nat)
      reads this
    {
      && Encodable(env.json, copied) && log == AppendAll(env, copied)
      && kept == |copied| && (life.Some? ==> kept <= life.value)
    }

    /** The callback on one record. */
    method Visit(ctx: string, now: int, before: int, tenant: string, life: Option<nat>, r: Record, count: nat,
                 ghost done: seq<Record>)
      returns (ok: bool, kept: nat, ghost copied: seq<Record>)
      requires Lawful(env) && Valid() && now != 0 && IsNormal(env.settings, r) && Reached(life, done, count)
      modifies this`file, this`pending, this`index, this`records, this`nonces, this`blocks, this`log
      ensures Valid() && Reached(life, copied, kept)
      ensures if ok then copied == done + (if Dropped(tenant, before, r) then [] else [Relabel(ctx, r)])
              else
                && copied == done && !Dropped(tenant, before, r)
                && (CutShort(life, |done|) || env.json.encode(Relabel(ctx, r)) == None)
    {
      kept, copied := count, done;
      if (tenant == "" || r.tenant == tenant) && before != 0 && r.timestamp < before {
        return true, kept, copied;
      }
      if CutShort(life, count) { return false, kept, copied; }
      NormaliseNormal(env.settings, ctx, now, r);
      ok := Append(ctx, now, r);
      if ok {
        AppendAllSnoc(env, done, Relabel(ctx, r));
        kept, copied := count + 1, done + [Relabel(ctx, r)];
      }
    }

    /** The records kept of the first i, and of the one behind them, are the first of those to be kept. */
    static lemma StepOfCopy(ctx: string, tenant: string, before: int, rs: seq<Record>, i: nat)
      requires i < |rs|
      ensures var done := Compacted(ctx, tenant, before, rs[..i]);
              var more := done + if Dropped(tenant, before, rs[i]) then [] else [Relabel(ctx, rs[i])];
              && Compacted(ctx, tenant, before, rs[..i + 1]) == more
              && more <= Compacted(ctx, tenant, before, rs)
    {
      assert rs[..i + 1] == rs[..i] + [rs[i]];
      CompactedSnoc(ctx, tenant, before, rs[..i], rs[i]);
      CompactedMonotone(ctx, tenant, before, rs[..i + 1], rs);
    }

    /** The new file, and its index if there is one, replace the old ones. */
    method TakeOver(out: Archive)
      requires Lawful(env) && out.Valid() && out.env == env && out.log.open == [] && out != this
      modifies this
      ensures Valid() && log == old(out.log) && records == |All(log)| && stale == old(out.stale)
      ensures leftover == if env.codec.encrypted then old(leftover) else []
    {
      EmptyIsGood(env);
      assert All(out.log) == Flatten(out.log.batches);
      file, pending, index := out.file, [], out.index;
      if !env.codec.encrypted { leftover := []; }
      records := out.records;
      blocks, log, stale := out.blocks, out.log, out.stale;
    }

    static ghost function AddEntries(es: seq<IndexEntry>, rest: Result<seq<IndexEntry>, ReadError>):
      Result<seq<IndexEntry>, ReadError>
    {
      match rest
      case Err(e) => Err(e)
      case Ok(more) => Ok(es + more)
    }

    lemma AddEntriesNothing(rest: Result<seq<IndexEntry>, ReadError>)
      ensures AddEntries([], rest) == rest
    {
      if rest.Ok? {
        assert [] + rest.value == rest.value;
      }
    }

    lemma AddEntriesSnoc(es: seq<IndexEntry>, e: IndexEntry, rest: Result<seq<IndexEntry>, ReadError>)
      ensures AddEntries(es, AddEntry(e, rest)) == AddEntries(es + [e], rest)
    {
      if rest.Ok? {
        assert es + ([e] + rest.value) == es + [e] + rest.value;
      }
    }
  }
}
