/**
 * Runs of the archive of internal/knowledge/archive.go after which a search passes over frames that it would have read
 * before: a compaction is interrupted, and the next one takes over the index it left behind.
 */
module ArchiveWitness {
  import opened Text
  import opened ArchiveFormat
  import opened ArchiveRecords
  import opened ArchiveIndex
  import opened ArchiveCompaction
  import opened ArchiveLog
  import opened KnowledgeArchive

  /** Records that each fill a block of their own; the first is old, and only its block has the token `word`. */
  ghost predicate Scene(e: Env, all: seq<Record>, word: string) {
    && Lawful(e) && !e.codec.encrypted && e.blockBytes == 1
    && all != [] && AllWritable(e, all) && OnlyFirstIsOld(all)
    && IsTerm(word) && forall i :: 0 <= i < |all| ==> (HasWord(e, all[i], word) <==> i == 0)
  }

  predicate OnlyFirstIsOld(all: seq<Record>) {
    forall i :: 0 <= i < |all| ==> (all[i].timestamp < 2 <==> i == 0)
  }

  ghost predicate Writable(e: Env, r: Record) {
    && IsNormal(e.settings, r) && e.json.encode(r).Some? && |Line(e.json, r)| <= MAX_FRAME_BYTES
    && forall stored :: Unstore(e.codec, stored) == Some(Line(e.json, r)) ==> |stored| <= MAX_FRAME_BYTES
  }

  ghost predicate AllWritable(e: Env, rs: seq<Record>) {
    forall i :: 0 <= i < |rs| ==> Writable(e, rs[i])
  }

  predicate HasWord(e: Env, r: Record, word: string) {
    e.json.encode(r).Some? && word in e.tok(Line(e.json, r))
  }

  // ---------------------------------------------------------------- there is such an archive

  function Sample(text: string, timestamp: int): Record {
    Record(1, "", timestamp, "", text, "", "", "", "", "", "", "", "hash", false, "")
  }

  /** Marshals three records to one byte each. */
  function SampleJson(a: Record, b: Record, c: Record): Json {
    Json(r => if r == a then Some([65]) else if r == b then Some([66]) else if r == c then Some([67]) else None,
         line => if line == [65] then Some(a) else if line == [66] then Some(b)
                 else if line == [67] then Some(c) else None)
  }

  function Wrap(raw: Bytes): Bytes { [1] + raw }

  function Unwrap(stored: Bytes): Option<Bytes> {
    if stored == [] then None else Some(stored[1..])
  }

  const SAMPLE_CODEC := Codec(Wrap, Unwrap, false, 0, (nonce, plain) => Wrap(plain), (nonce, stored) => Unwrap(stored))

  /** The token of a block is the word exactly if the block holds the first record alone. */
  function SampleEnv(a: Record, b: Record, c: Record, word: string): Env {
    Env(SAMPLE_CODEC, SampleJson(a, b, c), raw => if raw == [65, NEWLINE] then [word] else [],
        Settings("", "", "", "", "", "", x => x, (kind, text, payload) => "hash"), 1, n => [])
  }

  lemma SampleJsonIsLawful(a: Record, b: Record, c: Record)
    ensures LawfulJson(SampleJson(a, b, c))
  {
  }

  lemma SampleCodecIsLawful()
    ensures LawfulCodec(SAMPLE_CODEC)
  {
    assert forall raw :: Wrap(raw)[1..] == raw;
  }

  lemma SampleEnvIsLawful(a: Record, b: Record, c: Record, word: string)
    ensures Lawful(SampleEnv(a, b, c, word))
  {
    SampleCodecIsLawful();
    SampleJsonIsLawful(a, b, c);
  }

  lemma SampleIsWritable(a: Record, b: Record, c: Record, word: string, r: Record)
    requires r in {a, b, c} && IsNormal(SampleEnv(a, b, c, word).settings, r)
    ensures Writable(SampleEnv(a, b, c, word), r)
  {
  }

  lemma SampleWords(a: Record, b: Record, c: Record, word: string)
    requires a != b && b != c && a != c
    ensures var e := SampleEnv(a, b, c, word);
            HasWord(e, a, word) && !HasWord(e, b, word) && !HasWord(e, c, word)
  {
    var e := SampleEnv(a, b, c, word);
    assert Line(e.json, a) == [65, NEWLINE] && Line(e.json, b)[0] == 66 && Line(e.json, c)[0] == 67;
  }

  lemma SceneOfThree(e: Env, a: Record, b: Record, c: Record, word: string)
    requires Lawful(e) && !e.codec.encrypted && e.blockBytes == 1 && IsTerm(word)
    requires Writable(e, a) && Writable(e, b) && Writable(e, c)
    requires a.timestamp < 2 <= b.timestamp && 2 <= c.timestamp
    requires HasWord(e, a, word) && !HasWord(e, b, word) && !HasWord(e, c, word)
    ensures Scene(e, [a, b, c], word)
  {
  }

  lemma SampleScene(a: Record, b: Record, c: Record, word: string)
    requires a == Sample(word, 1) && b == Sample("", 5) && c == Sample("more" + word, 5) && IsTerm(word)
    ensures Scene(SampleEnv(a, b, c, word), [a, b, c], word)
  {
    SampleEnvIsLawful(a, b, c, word);
    assert |b.text| != |c.text| && a.timestamp != b.timestamp;
    SampleWords(a, b, c, word);
    SampleIsWritable(a, b, c, word, a);
    SampleIsWritable(a, b, c, word, b);
    SampleIsWritable(a, b, c, word, c);
    SceneOfThree(SampleEnv(a, b, c, word), a, b, c, word);
  }

  // ---------------------------------------------------------------- every record is a block

  function Singles(rs: seq<Record>): seq<seq<Record>> {
    seq(|rs|, i requires 0 <= i < |rs| => [rs[i]])
  }

  lemma SinglesSnoc(rs: seq<Record>, i: nat)
    requires i < |rs|
    ensures Singles(rs[..i + 1]) == Singles(rs[..i]) + [[rs[i]]]
  {
  }

  lemma {:induction false} FlattenSingles(rs: seq<Record>)
    ensures Flatten(Singles(rs)) == rs
  {
    if rs != [] {
      FlattenSingles(rs[1..]);
      assert Singles(rs)[1..] == Singles(rs[1..]);
    }
  }

  /** With a block size of one byte every record is a block. */
  lemma OwnBlock(e: Env, log: Log, r: Record)
    requires e.blockBytes == 1 && log.open == [] && e.json.encode(r).Some?
    ensures AppendLog(e, log, r) == Log(log.batches + [[r]], [])
  {
    assert log.open + [r] == [r] && Lines(e.json, [r]) == Line(e.json, r) + Lines(e.json, [r][1..]);
  }

  lemma {:induction false} OwnBlocks(e: Env, rs: seq<Record>)
    requires e.blockBytes == 1 && Encodable(e.json, rs)
    ensures AppendAll(e, rs) == LogOf(e, rs) == Log(Singles(rs), [])
  {
    if rs != [] {
      var init, last := rs[..|rs| - 1], rs[|rs| - 1];
      OwnBlocks(e, init);
      OwnBlock(e, AppendAll(e, init), last);
      SinglesSnoc(rs, |rs| - 1);
      assert rs[..|rs|] == rs;
    }
  }

  lemma {:induction false} KeepsYoung(before: int, rs: seq<Record>)
    requires before == 0 || forall i :: 0 <= i < |rs| ==> rs[i].timestamp >= before
    ensures Compacted("", "", before, rs) == rs
  {
    if rs != [] {
      KeepsYoung(before, rs[1..]);
      CompactedStep("", "", before, rs);
      assert [rs[0]] + rs[1..] == rs;
    }
  }

  /** The first record, the only old one, is what a compaction at time 2 drops. */
  lemma DropsFirst(all: seq<Record>)
    requires all != [] && OnlyFirstIsOld(all)
    ensures Compacted("", "", 2, all) == all[1..]
  {
    KeepsYoung(2, all[1..]);
    CompactedStep("", "", 2, all);
  }

  /** A block of one writable record passes every size check. */
  lemma BlockIsSmall(e: Env, b: Block, r: Record)
    requires Writable(e, r) && BlockHolds(e.codec, e.json, b, [r])
    ensures |b.stored| <= MAX_FRAME_BYTES && LinesFit(e.json, [r])
    ensures !BadSize(|b.raw|) && !BadSize(|b.stored|) && b.raw == Line(e.json, r)
  {
    assert Lines(e.json, [r]) == Line(e.json, r) + Lines(e.json, [r][1..]);
    assert b.raw == Line(e.json, r);
  }

  lemma BlocksAreSmall(e: Env, blocks: seq<Block>, rs: seq<Record>)
    requires AllWritable(e, rs) && Holds(e.codec, e.json, blocks, Singles(rs))
    ensures FitsUpTo(blocks, |blocks|) && BatchesFit(e.json, Singles(rs)) && Indexable(blocks, 0)
  {
    forall i | 0 <= i < |rs|
      ensures |blocks[i].stored| <= MAX_FRAME_BYTES && LinesFit(e.json, [rs[i]])
      ensures !BadSize(|blocks[i].raw|) && !BadSize(|blocks[i].stored|)
    {
      assert BlockHolds(e.codec, e.json, blocks[i], Singles(rs)[i]);
      BlockIsSmall(e, blocks[i], rs[i]);
    }
  }

  lemma CanDropFirst(e: Env, blocks: seq<Block>, all: seq<Record>)
    requires all != [] && AllWritable(e, all) && Holds(e.codec, e.json, blocks, Singles(all))
    ensures CanRewrite(e, blocks, Singles(all), all[1..])
  {
    BlocksAreSmall(e, blocks, all);
  }

  lemma FirstIsCopied(e: Env, all: seq<Record>, copied: seq<Record>)
    requires all != [] && AllWritable(e, all) && IsCopy(e.json, Some(1), all, copied)
    ensures copied == all[..1]
  {
    assert |copied| < |all| ==> Writable(e, all[|copied|]);
  }

  lemma AllIsDelivered(e: Env, blocks: seq<Block>, rs: seq<Record>)
    requires Lawful(e) && AllWritable(e, rs) && Holds(e.codec, e.json, blocks, Singles(rs))
    ensures Delivered(e.codec, e.json, FileOf(blocks)) == rs
  {
    BlocksAreSmall(e, blocks, rs);
    RoundTripExactly(e.codec, e.json, blocks, Singles(rs));
    FlattenSingles(rs);
    DeliveredAll(e.codec, e.json, FileOf(blocks)[|MAGIC|..]);
  }

  // ---------------------------------------------------------------- the run

  method Fill(e: Env, all: seq<Record>) returns (archive: Archive)
    requires Lawful(e) && e.blockBytes == 1 && AllWritable(e, all)
    ensures fresh(archive) && archive.Valid() && archive.env == e && archive.log == Log(Singles(all), [])
    ensures archive.leftover == []
  {
    archive := new Archive(e, 0, []);
    for i := 0 to |all|
      invariant archive.Valid() && archive.log == Log(Singles(all[..i]), []) && archive.leftover == []
    {
      AddBlock(archive, all, i);
    }
    assert all[..|all|] == all;
  }

  method AddBlock(archive: Archive, all: seq<Record>, i: nat)
    requires Lawful(archive.env) && archive.Valid() && archive.env.blockBytes == 1
    requires i < |all| && archive.log == Log(Singles(all[..i]), []) && AllWritable(archive.env, all)
    modifies archive`file, archive`pending, archive`index, archive`records, archive`nonces, archive`blocks, archive`log
    ensures archive.Valid() && archive.log == Log(Singles(all[..i + 1]), [])
  {
    assert Writable(archive.env, all[i]);
    NormaliseNormal(archive.env.settings, "", 1, all[i]);
    OwnBlock(archive.env, archive.log, all[i]);
    SinglesSnoc(all, i);
    var ok := archive.Append("", 1, all[i]);
  }

  /** A compaction that would keep everything is cancelled after the first record. */
  method Interrupt(archive: Archive, all: seq<Record>, word: string) returns (ghost copy: seq<Block>)
    requires Scene(archive.env, all, word) && archive.Valid() && archive.log == Log(Singles(all), [])
    requires archive.leftover == []
    modifies archive
    ensures archive.Valid() && archive.log == old(archive.log)
    ensures Holds(archive.env.codec, archive.env.json, copy, Singles(all[..1]))
    ensures archive.leftover == EntriesOf(archive.env.tok, copy)
  {
    ghost var e := archive.env;
    FlattenSingles(all);
    KeepsYoung(0, all);
    ghost var flushed, copied;
    var r;
    r, flushed, copy, copied := archive.Compact("", 1, 0, "", Some(1));
    AllIsDelivered(e, flushed, all);
    FirstIsCopied(e, all, copied);
    OwnBlocks(e, all[..1]);
    assert [] + EntriesOf(e.tok, copy) == EntriesOf(e.tok, copy);
  }

  /** The next one drops the first record and takes the index of the interrupted one over. */
  method DropFirst(archive: Archive, all: seq<Record>, word: string)
    requires Scene(archive.env, all, word) && archive.Valid() && archive.log == Log(Singles(all), [])
    modifies archive
    ensures archive.Valid() && archive.log == Log(Singles(all[1..]), []) && archive.stale == old(archive.leftover)
  {
    ghost var e := archive.env;
    FlattenSingles(all);
    DropsFirst(all);
    assert All(archive.log) == all && FlushLog(archive.log) == archive.log;
    ghost var flushed, copy, copied;
    var r;
    r, flushed, copy, copied := archive.Compact("", 1, 2, "", None);
    CanDropFirst(e, flushed, all);
    assert r.Some?;
    OwnBlocks(e, all[1..]);
  }

  // ---------------------------------------------------------------- what the search reads after it

  /** The interrupted copy left the entry of the first record, at the start of the file. */
  lemma StaleNamesStart(e: Env, all: seq<Record>, word: string, copy: seq<Block>, o: nat)
    requires Scene(e, all, word) && Holds(e.codec, e.json, copy, Singles(all[..1]))
    ensures StaleNames(EntriesOf(e.tok, copy), [word], o) <==> o == |MAGIC|
    ensures SomeStaleMatches(EntriesOf(e.tok, copy), [word])
  {
    var es := EntriesOf(e.tok, copy);
    assert BlockHolds(e.codec, e.json, copy[0], Singles(all[..1])[0]);
    BlockIsSmall(e, copy[0], all[0]);
    assert es[0] == EntryOf(e.tok, copy, 0) && HasTerms(es[0], [word]);
  }

  /** No block of the others has the word as a token. */
  lemma NoBlockMatches(e: Env, all: seq<Record>, word: string, blocks: seq<Block>)
    requires Scene(e, all, word) && Holds(e.codec, e.json, blocks, Singles(all[1..]))
    ensures !SomeBlockMatches(e.tok, blocks, [word])
  {
    forall j: nat | j < |blocks|
      ensures !BlockHasTerms(e.tok, blocks[j], [word])
    {
      var r := all[1..][j];
      assert BlockHolds(e.codec, e.json, blocks[j], Singles(all[1..])[j]);
      BlockIsSmall(e, blocks[j], r);
      assert r == all[j + 1] && !HasWord(e, r, word);
      assert [word][0] == word;
    }
  }

  /** Every line of the index takes `bytes` bytes. */
  function Every(bytes: nat): IndexEntry -> nat {
    entry => bytes
  }

  lemma FirstFrameIsRead(e: Env, all: seq<Record>, word: string, copy: seq<Block>, blocks: seq<Block>, j: nat)
    requires Scene(e, all, word) && j < |blocks|
    requires Holds(e.codec, e.json, copy, Singles(all[..1])) && Holds(e.codec, e.json, blocks, Singles(all[1..]))
    ensures Read(e.tok, EntriesOf(e.tok, copy), blocks, [word], j) <==> j == 0
  {
    NoBlockMatches(e, all, word, blocks);
    StaleNamesStart(e, all, word, copy, Offset(blocks, j));
    OffsetsGrow(blocks, 0, j);
  }

  lemma OnlyFirstFrame(e: Env, all: seq<Record>, word: string, copy: seq<Block>, blocks: seq<Block>, bytes: nat)
    requires Scene(e, all, word) && |all| > 1 && bytes <= MAX_SCAN_TOKEN
    requires Holds(e.codec, e.json, copy, Singles(all[..1])) && Holds(e.codec, e.json, blocks, Singles(all[1..]))
    ensures FramesAfter(e.tok, EntriesOf(e.tok, copy), blocks, Every(bytes), [word]) == {0}
  {
    FramesAreRead(e.tok, EntriesOf(e.tok, copy), blocks, Every(bytes), [word]);
    OnlyFirstRead(e, all, word, copy, blocks);
  }

  lemma OnlyFirstRead(e: Env, all: seq<Record>, word: string, copy: seq<Block>, blocks: seq<Block>)
    requires Scene(e, all, word) && |all| > 1
    requires Holds(e.codec, e.json, copy, Singles(all[..1])) && Holds(e.codec, e.json, blocks, Singles(all[1..]))
    ensures ReadSet(e.tok, EntriesOf(e.tok, copy), blocks, [word]) == {0}
  {
    var read := ReadSet(e.tok, EntriesOf(e.tok, copy), blocks, [word]);
    FirstFrameIsRead(e, all, word, copy, blocks, 0);
    forall j | j in read
      ensures j == 0
    {
      FirstFrameIsRead(e, all, word, copy, blocks, j);
    }
  }

  lemma NothingIsSelected(e: Env, all: seq<Record>, word: string, blocks: seq<Block>, bytes: nat)
    requires Scene(e, all, word) && Holds(e.codec, e.json, blocks, Singles(all[1..]))
    ensures SelectedAfter(e.tok, [], blocks, Every(bytes), [word]) == None
  {
    NoBlockMatches(e, all, word, blocks);
    NothingMatchesAfter(e.tok, [], blocks, [word]);
    LinesOfEntries([] + EntriesOf(e.tok, blocks), Every(bytes));
  }

  method Lose(archive: Archive, all: seq<Record>, word: string, bytes: nat) returns (chosen: Option<set<nat>>)
    requires Scene(archive.env, all, word) && |all| > 1 && bytes <= MAX_SCAN_TOKEN
    requires archive.Valid() && archive.log == Log(Singles(all), []) && archive.leftover == []
    modifies archive
    ensures archive.Valid() && archive.log == Log(Singles(all[1..]), [])
    ensures FramesRead(chosen, archive.blocks) == {0}
  {
    ghost var copy := Interrupt(archive, all, word);
    DropFirst(archive, all, word);
    chosen := archive.ChooseFrames(Every(bytes), [word]);
    OnlyFirstFrame(archive.env, all, word, copy, archive.blocks, bytes);
  }

  method Reindex(archive: Archive, rs: seq<Record>)
    requires Lawful(archive.env) && !archive.env.codec.encrypted && AllWritable(archive.env, rs)
    requires archive.Valid() && archive.log == Log(Singles(rs), [])
    modifies archive
    ensures archive.Valid() && archive.log == old(archive.log) && archive.stale == []
  {
    var ok := archive.RebuildIndex();
    BlocksAreSmall(archive.env, archive.blocks, rs);
    assert ok;
  }

  method Repair(archive: Archive, all: seq<Record>, word: string, bytes: nat) returns (repaired: Option<set<nat>>)
    requires Scene(archive.env, all, word) && archive.Valid() && archive.log == Log(Singles(all[1..]), [])
    modifies archive
    ensures archive.Valid() && archive.log == old(archive.log) && repaired == None
  {
    Reindex(archive, all[1..]);
    repaired := archive.ChooseFrames(Every(bytes), [word]);
    NothingIsSelected(archive.env, all, word, archive.blocks, bytes);
  }

  /**
   * An interrupted compaction, a second one that drops the first record, and a search for its word: of the frames left
   * it reads the first alone, which merely starts where the dropped one did in the interrupted copy. Once the index is
   * rebuilt, the same search selects none, and so reads them all.
   */
  method LoseFrames(archive: Archive, all: seq<Record>, word: string, bytes: nat)
    returns (chosen: Option<set<nat>>, ghost blocks: seq<Block>, repaired: Option<set<nat>>)
    requires Scene(archive.env, all, word) && |all| > 1 && bytes <= MAX_SCAN_TOKEN
    requires archive.Valid() && archive.log == Log(Singles(all), []) && archive.leftover == []
    modifies archive
    ensures archive.Valid() && archive.log == Log(Singles(all[1..]), [])
    ensures Holds(archive.env.codec, archive.env.json, blocks, Singles(all[1..]))
    ensures FramesRead(chosen, blocks) == {0} && repaired == None
  {
    chosen := Lose(archive, all, word, bytes);
    blocks := archive.blocks;
    repaired := Repair(archive, all, word, bytes);
  }

  /** A run of this kind on three records; the word is part of the text of the last one, whose frame is not read. */
  method LoseSample(word: string) returns (archive: Archive, chosen: Option<set<nat>>, ghost blocks: seq<Block>)
    requires IsTerm(word)
    ensures var left := [Sample("", 5), Sample("more" + word, 5)];
            && archive.Valid() && archive.log == Log(Singles(left), [])
            && Holds(archive.env.codec, archive.env.json, blocks, Singles(left))
    ensures FramesRead(chosen, blocks) == {0}
  {
    var a, b, c := Sample(word, 1), Sample("", 5), Sample("more" + word, 5);
    SampleScene(a, b, c, word);
    archive := Fill(SampleEnv(a, b, c, word), [a, b, c]);
    var repaired;
    chosen, blocks, repaired := LoseFrames(archive, [a, b, c], word, 100);
    assert [a, b, c][1..] == [b, c];
  }
}
