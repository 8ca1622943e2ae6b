/**
 * The sidecar index of internal/knowledge/archive.go: one entry per block with its byte range and its terms. An
 * archive writes entries as it flushes, rebuilds them from the file, and selects blocks by them when it searches.
 */
module ArchiveIndex {
  import opened Text
  import opened ArchiveFormat

  datatype IndexEntry = IndexEntry(offset: nat, end: nat, terms: set<string>)

  /** Lower-casing, splitting at white space and trimming punctuation, left abstract. */
  type Tokenizer = Bytes -> seq<string>

  predicate IsTerm(token: string) {
    3 <= |token| <= 96
  }

  /** What `indexTerms` collects: the tokens that are neither too short nor too long. */
  function TermsOf(tokens: seq<string>): set<string> {
    set t | t in tokens && IsTerm(t)
  }

  method IndexTerms(tok: Tokenizer, raw: Bytes) returns (terms: set<string>)
    ensures terms == TermsOf(tok(raw))
  {
    var tokens := tok(raw);
    terms := {};
    for i := 0 to |tokens|
      invariant terms == TermsOf(tokens[..i])
    {
      if IsTerm(tokens[i]) {
        terms := terms + {tokens[i]};
      }
      assert tokens[..i + 1] == tokens[..i] + [tokens[i]];
    }
    assert tokens[..|tokens|] == tokens;
  }

  /** The entry a flush writes for block j. */
  function EntryOf(tok: Tokenizer, blocks: seq<Block>, j: nat): IndexEntry
    requires j < |blocks|
  {
    IndexEntry(Offset(blocks, j), Offset(blocks, j + 1), TermsOf(tok(blocks[j].raw)))
  }

  function EntriesFrom(tok: Tokenizer, blocks: seq<Block>, j: nat): (r: seq<IndexEntry>)
    requires j <= |blocks|
    ensures |r| == |blocks| - j && forall i :: 0 <= i < |r| ==> r[i] == EntryOf(tok, blocks, j + i)
    decreases |blocks| - j
  {
    if j == |blocks| then [] else [EntryOf(tok, blocks, j)] + EntriesFrom(tok, blocks, j + 1)
  }

  /** The entries of all flushes. */
  function EntriesOf(tok: Tokenizer, blocks: seq<Block>): seq<IndexEntry> {
    EntriesFrom(tok, blocks, 0)
  }

  lemma {:induction false} OffsetOfPrefix(blocks: seq<Block>, more: seq<Block>, j: nat)
    requires j <= |blocks|
    ensures Offset(blocks + more, j) == Offset(blocks, j)
  {
    if j > 0 {
      OffsetOfPrefix(blocks, more, j - 1);
    }
  }

  /** A flush appends one entry and leaves the earlier ones correct. */
  lemma EntriesSnoc(tok: Tokenizer, blocks: seq<Block>, b: Block)
    ensures var offset := |FileOf(blocks)|;
            EntriesOf(tok, blocks + [b]) ==
            EntriesOf(tok, blocks) + [IndexEntry(offset, offset + 16 + |b.stored|, TermsOf(tok(b.raw)))]
  {
    FileLength(blocks);
    forall j: nat | j <= |blocks|
      ensures Offset(blocks + [b], j) == Offset(blocks, j)
    {
      OffsetOfPrefix(blocks, [b], j);
    }
  }

  // ---------------------------------------------------------------- rebuilding

  /** The loop of `RebuildIndex` from byte `offset` on, where `rest` is the rest of the file. */
  function Rebuild(c: Codec, tok: Tokenizer, offset: nat, rest: Bytes): Result<seq<IndexEntry>, ReadError>
    decreases |rest|
  {
    if rest == [] then Ok([])
    else if |rest| < 16 then Err(Truncated)
    else
      var n := StoredLength(rest);
      if BadSize(RawLength(rest)) || BadSize(n) then Err(BadFrameSize)
      else if |rest| < 16 + n then Err(Truncated)
      else
        match c.decompress(rest[16..16 + n])
        case None => Err(BadBlock)
        case Some(raw) =>
          if |raw| != RawLength(rest) then Err(BadBlock)
          else
            AddEntry(IndexEntry(offset, offset + 16 + n, TermsOf(tok(raw))),
                     Rebuild(c, tok, offset + 16 + n, rest[16 + n..]))
  }

  function AddEntry(e: IndexEntry, rest: Result<seq<IndexEntry>, ReadError>): Result<seq<IndexEntry>, ReadError> {
    match rest
    case Err(err) => Err(err)
    case Ok(es) => Ok([e] + es)
  }

  /** Every block passes the size checks of `RebuildIndex`, on the raw length too: neither empty nor above 512 MiB. */
  ghost predicate Indexable(blocks: seq<Block>, j: nat) {
    forall i :: j <= i < |blocks| ==> 0 < |blocks[i].raw| <= 536_870_912 && 0 < |blocks[i].stored| <= 536_870_912
  }

  /** The file from frame j on. */
  function RestAt(blocks: seq<Block>, j: nat): Bytes
    requires j <= |blocks|
  {
    FileLength(blocks);
    OffsetsGrow(blocks, j, |blocks|);
    FileOf(blocks)[Offset(blocks, j)..]
  }

  /** Frame j stands at the start of the file from frame j on. */
  lemma {:induction false} FrameAt(blocks: seq<Block>, j: nat)
    requires j < |blocks|
    ensures RestAt(blocks, j) == Frame(blocks[j]) + RestAt(blocks, j + 1)
  {
    if j == 0 {
      assert RestAt(blocks, 0) == Frames(blocks) == Frame(blocks[0]) + Frames(blocks[1..]);
      assert FileOf(blocks) == MAGIC + Frame(blocks[0]) + Frames(blocks[1..]);
      assert RestAt(blocks, 1) == Frames(blocks[1..]);
    } else {
      FrameAt(blocks[1..], j - 1);
      RestOfTail(blocks, j);
      RestOfTail(blocks, j + 1);
    }
  }

  lemma RestOfTail(blocks: seq<Block>, j: nat)
    requires 0 < j <= |blocks|
    ensures RestAt(blocks, j) == RestAt(blocks[1..], j - 1)
  {
    OffsetOfTail(blocks, j);
    FileLength(blocks);
    FileLength(blocks[1..]);
    OffsetsGrow(blocks[1..], 0, j - 1);
    OffsetsGrow(blocks[1..], j - 1, |blocks| - 1);
    var first, others := Frame(blocks[0]), Frames(blocks[1..]);
    assert FileOf(blocks) == MAGIC + first + others;
    DropTwice(MAGIC, first, others, Offset(blocks[1..], j - 1) - |MAGIC|);
  }

  lemma DropTwice(a: Bytes, b: Bytes, c: Bytes, n: nat)
    requires n <= |c|
    ensures (a + b + c)[|a| + |b| + n..] == (a + c)[|a| + n..]
  {
  }

  lemma FrameThenRest(b: Block, rest: Bytes)
    ensures var all, n := Frame(b) + rest, |b.stored|;
            |all| >= 16 + n && all[..16] == Frame(b)[..16] && all[16..16 + n] == b.stored && all[16 + n..] == rest
  {
    assert Frame(b)[16..] == b.stored;
  }

  lemma RebuildStep(c: Codec, tok: Tokenizer, blocks: seq<Block>, j: nat)
    requires j < |blocks| && GoodBlock(c, blocks[j]) && !c.encrypted
    ensures Rebuild(c, tok, Offset(blocks, j), RestAt(blocks, j)) ==
            if BadSize(|blocks[j].raw|) || BadSize(|blocks[j].stored|) then Err(BadFrameSize)
            else AddEntry(EntryOf(tok, blocks, j), Rebuild(c, tok, Offset(blocks, j + 1), RestAt(blocks, j + 1)))
  {
    FrameAt(blocks, j);
    FrameThenRest(blocks[j], RestAt(blocks, j + 1));
    HeaderOfFrame(blocks[j], RestAt(blocks, j));
  }

  /**
   * Rebuilding the index from the bytes of the file yields exactly the entries the flushes wrote, if and only if every
   * block passes the size checks.
   */
  lemma {:induction false} RebuildExactly(c: Codec, tok: Tokenizer, blocks: seq<Block>, j: nat)
    requires GoodBlocks(c, blocks) && !c.encrypted && j <= |blocks|
    ensures Rebuild(c, tok, Offset(blocks, j), RestAt(blocks, j)) ==
            if Indexable(blocks, j) then Ok(EntriesFrom(tok, blocks, j)) else Err(BadFrameSize)
    decreases |blocks| - j
  {
    if j == |blocks| {
      FileLength(blocks);
    } else {
      assert GoodBlock(c, blocks[j]);
      RebuildStep(c, tok, blocks, j);
      RebuildExactly(c, tok, blocks, j + 1);
      assert Indexable(blocks, j) <==>
             !BadSize(|blocks[j].raw|) && !BadSize(|blocks[j].stored|) && Indexable(blocks, j + 1);
    }
  }

  // ---------------------------------------------------------------- selecting

  /** The entries tile the file: the first starts behind the magic, every other one where the last ended. */
  ghost predicate Tiles(es: seq<IndexEntry>, size: nat) {
    && (forall i :: 0 <= i < |es| ==> es[i].offset == (if i == 0 then |MAGIC| else es[i - 1].end) < es[i].end)
    && (if es == [] then |MAGIC| else es[|es| - 1].end) == size
  }

  lemma EntriesTile(tok: Tokenizer, blocks: seq<Block>)
    ensures Tiles(EntriesOf(tok, blocks), |FileOf(blocks)|)
  {
    FileLength(blocks);
    var es := EntriesOf(tok, blocks);
    forall i | 0 <= i < |es|
      ensures es[i].offset == (if i == 0 then |MAGIC| else es[i - 1].end) < es[i].end
    {
      assert i > 0 ==> es[i - 1] == EntryOf(tok, blocks, i - 1);
      assert es[i] == EntryOf(tok, blocks, i);
    }
  }

  /** All query terms are among the entry's. */
  predicate HasTerms(e: IndexEntry, terms: seq<string>) {
    forall i :: 0 <= i < |terms| ==> terms[i] in e.terms
  }

  function Matching(es: seq<IndexEntry>, terms: seq<string>): set<nat> {
    set i | 0 <= i < |es| && HasTerms(es[i], terms) :: es[i].offset
  }

  function LastEnd(es: seq<IndexEntry>): nat {
    if es == [] then 0 else es[|es| - 1].end
  }

  /** A line of the index file: its bytes with the newline, and the entry it holds unless it does not parse. */
  datatype IndexLine = IndexLine(bytes: nat, entry: Option<IndexEntry>)

  /** The default token limit of Go's `bufio.Scanner`, which reads the index. */
  const MAX_SCAN_TOKEN: nat := 64 * 1024

  predicate Readable(lines: seq<IndexLine>) {
    forall i :: 0 <= i < |lines| ==> lines[i].bytes <= MAX_SCAN_TOKEN && lines[i].entry.Some?
  }

  function Parsed(lines: seq<IndexLine>): seq<IndexEntry>
    requires Readable(lines)
  {
    seq(|lines|, i requires 0 <= i < |lines| => lines[i].entry.value)
  }

  /** What `indexedOffsets` selects; None sends the search to a scan of all blocks. */
  function Selected(lines: seq<IndexLine>, size: nat, terms: seq<string>): Option<set<nat>> {
    if terms == [] || !Readable(lines) then None
    else if LastEnd(Parsed(lines)) != size || Matching(Parsed(lines), terms) == {} then None
    else Some(Matching(Parsed(lines), terms))
  }

  /** Entry i of the index file holds every query term, and it is `o` that it points to. */
  ghost predicate PointsTo(lines: seq<IndexLine>, terms: seq<string>, i: nat, o: nat) {
    && i < |lines| && lines[i].entry.Some? && lines[i].entry.value.offset == o
    && forall t :: t in terms ==> t in lines[i].entry.value.terms
  }

  /** No line is longer than 64 KiB, and every line parses. */
  ghost predicate AllParse(lines: seq<IndexLine>) {
    forall i :: 0 <= i < |lines| ==> lines[i].bytes <= 65_536 && lines[i].entry.Some?
  }

  /**
   * The index is used if and only if there are query terms, every line parses, the last entry ends where the file ends,
   * and some entry holds every term; and then it selects exactly what such entries point to.
   */
  lemma SelectedExactly(lines: seq<IndexLine>, size: nat, terms: seq<string>)
    ensures Selected(lines, size, terms).Some? <==>
            && terms != [] && lines != [] && AllParse(lines) && lines[|lines| - 1].entry.value.end == size
            && exists i: nat, o: nat :: PointsTo(lines, terms, i, o)
    ensures Selected(lines, size, terms).Some? ==>
              forall o: nat ::
                (o in Selected(lines, size, terms).value <==> exists i: nat :: PointsTo(lines, terms, i, o))
  {
    assert Readable(lines) <==> AllParse(lines);
    if Readable(lines) {
      var es := Parsed(lines);
      forall i: nat | i < |lines|
        ensures HasTerms(es[i], terms) <==> PointsTo(lines, terms, i, es[i].offset)
      {
        HasAllTerms(es[i], terms);
      }
      forall o: nat
        ensures o in Matching(es, terms) <==> exists i: nat :: PointsTo(lines, terms, i, o)
      {
        if i: nat :| PointsTo(lines, terms, i, o) {
          assert es[i].offset == o;
        }
      }
      assert lines != [] ==> LastEnd(es) == lines[|lines| - 1].entry.value.end;
      if o :| o in Matching(es, terms) {
        var i: nat :| PointsTo(lines, terms, i, o);
      }
      if i: nat, o: nat :| PointsTo(lines, terms, i, o) {
        assert o in Matching(es, terms);
      }
    }
  }

  lemma HasAllTerms(e: IndexEntry, terms: seq<string>)
    ensures HasTerms(e, terms) <==> forall t :: t in terms ==> t in e.terms
  {
    assert forall i :: 0 <= i < |terms| ==> terms[i] in terms;
  }

  method IndexedOffsets(lines: seq<IndexLine>, size: nat, terms: seq<string>) returns (r: Option<set<nat>>)
    ensures r == Selected(lines, size, terms)
  {
    if terms == [] { return None; }
    var selected: set<nat>, lastEnd := {}, 0;
    for i := 0 to |lines|
      invariant Readable(lines[..i]) && lastEnd == LastEnd(Parsed(lines[..i]))
      invariant selected == Matching(Parsed(lines[..i]), terms)
    {
      if lines[i].bytes > MAX_SCAN_TOKEN || lines[i].entry == None { return None; }
      var entry := lines[i].entry.value;
      lastEnd := entry.end;
      var matched := true;
      for k := 0 to |terms|
        invariant matched && forall m :: 0 <= m < k ==> terms[m] in entry.terms
      {
        if terms[k] !in entry.terms {
          matched := false;
          break;
        }
      }
      OneMoreLine(lines, i, terms);
      if matched {
        selected := selected + {entry.offset};
      }
    }
    assert lines[..|lines|] == lines;
    if lastEnd != size || selected == {} { return None; }
    return Some(selected);
  }

  lemma OneMoreLine(lines: seq<IndexLine>, i: nat, terms: seq<string>)
    requires i < |lines| && Readable(lines[..i]) && lines[i].bytes <= MAX_SCAN_TOKEN && lines[i].entry.Some?
    ensures Readable(lines[..i + 1]) && LastEnd(Parsed(lines[..i + 1])) == lines[i].entry.value.end
    ensures Matching(Parsed(lines[..i + 1]), terms) ==
            Matching(Parsed(lines[..i]), terms) +
            if HasTerms(lines[i].entry.value, terms) then {lines[i].entry.value.offset} else {}
  {
    var es := Parsed(lines[..i + 1]);
    assert es[..i] == Parsed(lines[..i]) && es[..i + 1] == es;
    MatchingSnoc(es, i, terms);
  }

  lemma MatchingSnoc(es: seq<IndexEntry>, i: nat, terms: seq<string>)
    requires i < |es|
    ensures Matching(es[..i + 1], terms) ==
            Matching(es[..i], terms) + if HasTerms(es[i], terms) then {es[i].offset} else {}
  {
  }

  ghost predicate BlockHasTerms(tok: Tokenizer, b: Block, terms: seq<string>) {
    forall i :: 0 <= i < |terms| ==> 3 <= |terms[i]| <= 96 && terms[i] in tok(b.raw)
  }

  /**
   * With the entries of the flushes, the selected offsets are exactly the true starts of the frames whose block holds
   * every query term as a token of 3 to 96 bytes.
   */
  lemma SelectionIsExact(tok: Tokenizer, blocks: seq<Block>, terms: seq<string>, o: nat)
    ensures o in Matching(EntriesOf(tok, blocks), terms) <==>
            exists j: nat :: j < |blocks| && Offset(blocks, j) == o && BlockHasTerms(tok, blocks[j], terms)
  {
    var es := EntriesOf(tok, blocks);
    assert forall j: nat :: j < |blocks| ==> es[j] == EntryOf(tok, blocks, j);
    assert forall j: nat :: j < |blocks| ==> (HasTerms(es[j], terms) <==> BlockHasTerms(tok, blocks[j], terms));
  }

  /** The lines of an index whose entries take `lineBytes` bytes each. */
  function LinesOf(es: seq<IndexEntry>, lineBytes: IndexEntry -> nat): seq<IndexLine> {
    seq(|es|, i requires 0 <= i < |es| => IndexLine(lineBytes(es[i]), Some(es[i])))
  }

  /**
   * With the entries of the flushes the index is used exactly if there are query terms, every index line fits the
   * scanner, and some block holds all terms; then it selects exactly the frames of those blocks. A block with so many
   * terms that its line does not fit sends every search to the scan of all blocks.
   */
  lemma IndexIsUsedExactly(tok: Tokenizer, blocks: seq<Block>, lineBytes: IndexEntry -> nat, terms: seq<string>)
    ensures var es := EntriesOf(tok, blocks);
            var r := Selected(LinesOf(es, lineBytes), |FileOf(blocks)|, terms);
            && (r.Some? <==> && terms != [] && (forall j :: 0 <= j < |es| ==> lineBytes(es[j]) <= 65_536)
                             && exists j: nat :: j < |blocks| && BlockHasTerms(tok, blocks[j], terms))
            && (r.Some? ==> r.value == Matching(es, terms))
  {
    var es := EntriesOf(tok, blocks);
    EntriesTile(tok, blocks);
    LinesOfEntries(es, lineBytes);
    if j: nat :| j < |blocks| && BlockHasTerms(tok, blocks[j], terms) {
      SelectionIsExact(tok, blocks, terms, Offset(blocks, j));
    }
    if o :| o in Matching(es, terms) {
      SelectionIsExact(tok, blocks, terms, o);
    }
  }

  // ---------------------------------------------------------------- what a search reads, with stale entries

  /** The frames a search decodes: those that are selected, or all without a selection. */
  function FramesRead(selected: Option<set<nat>>, blocks: seq<Block>): set<nat> {
    set j: nat | j < |blocks| && (selected == None || Offset(blocks, j) in selected.value)
  }

  /** The selection from an index file that holds stale entries before those of the flushes. */
  function SelectedAfter(tok: Tokenizer, stale: seq<IndexEntry>, blocks: seq<Block>, lineBytes: IndexEntry -> nat,
                         terms: seq<string>): Option<set<nat>>
  {
    Selected(LinesOf(stale + EntriesOf(tok, blocks), lineBytes), |FileOf(blocks)|, terms)
  }

  ghost predicate SomeBlockMatches(tok: Tokenizer, blocks: seq<Block>, terms: seq<string>) {
    exists j: nat :: j < |blocks| && BlockHasTerms(tok, blocks[j], terms)
  }

  ghost predicate SomeStaleMatches(stale: seq<IndexEntry>, terms: seq<string>) {
    exists i :: 0 <= i < |stale| && HasTerms(stale[i], terms)
  }

  /** A stale entry that holds all terms happens to name the start of frame j. */
  ghost predicate StaleNames(stale: seq<IndexEntry>, terms: seq<string>, o: nat) {
    exists i :: 0 <= i < |stale| && HasTerms(stale[i], terms) && stale[i].offset == o
  }

  predicate IndexLinesFit(es: seq<IndexEntry>, lineBytes: IndexEntry -> nat) {
    forall i :: 0 <= i < |es| ==> lineBytes(es[i]) <= 65_536
  }

  lemma LinesOfEntries(es: seq<IndexEntry>, lineBytes: IndexEntry -> nat)
    ensures Readable(LinesOf(es, lineBytes)) <==> IndexLinesFit(es, lineBytes)
    ensures IndexLinesFit(es, lineBytes) ==> Parsed(LinesOf(es, lineBytes)) == es
  {
    var lines := LinesOf(es, lineBytes);
    assert forall i :: 0 <= i < |es| ==> lines[i] == IndexLine(lineBytes(es[i]), Some(es[i]));
  }

  lemma OffsetsDiffer(blocks: seq<Block>, i: nat, j: nat)
    requires i < |blocks| && j < |blocks| && Offset(blocks, i) == Offset(blocks, j)
    ensures i == j
  {
    if i <= j {
      OffsetsGrow(blocks, i, j);
    } else {
      OffsetsGrow(blocks, j, i);
    }
  }

  /** Frame j is among the matching offsets if its block holds all terms, or a stale entry names it. */
  lemma MatchingAfter(tok: Tokenizer, stale: seq<IndexEntry>, blocks: seq<Block>, terms: seq<string>, j: nat)
    requires j < |blocks|
    ensures Offset(blocks, j) in Matching(stale + EntriesOf(tok, blocks), terms) <==>
            BlockHasTerms(tok, blocks[j], terms) || StaleNames(stale, terms, Offset(blocks, j))
  {
    var own := EntriesOf(tok, blocks);
    MatchingConcat(stale, own, terms, Offset(blocks, j));
    SelectionIsExact(tok, blocks, terms, Offset(blocks, j));
    if k: nat :| k < |blocks| && Offset(blocks, k) == Offset(blocks, j) && BlockHasTerms(tok, blocks[k], terms) {
      OffsetsDiffer(blocks, k, j);
    }
  }

  lemma MatchingConcat(a: seq<IndexEntry>, b: seq<IndexEntry>, terms: seq<string>, o: nat)
    ensures o in Matching(a + b, terms) <==> StaleNames(a, terms, o) || o in Matching(b, terms)
  {
    var c := a + b;
    assert forall i :: 0 <= i < |a| ==> c[i] == a[i];
    assert forall i :: 0 <= i < |b| ==> c[|a| + i] == b[i];
  }

  lemma NothingMatchesAfter(tok: Tokenizer, stale: seq<IndexEntry>, blocks: seq<Block>, terms: seq<string>)
    ensures Matching(stale + EntriesOf(tok, blocks), terms) == {} <==>
            !SomeBlockMatches(tok, blocks, terms) && !SomeStaleMatches(stale, terms)
  {
    var m := Matching(stale + EntriesOf(tok, blocks), terms);
    if o :| o in m {
      MatchingConcat(stale, EntriesOf(tok, blocks), terms, o);
      SelectionIsExact(tok, blocks, terms, o);
    }
    if j: nat :| j < |blocks| && BlockHasTerms(tok, blocks[j], terms) {
      MatchingAfter(tok, stale, blocks, terms, j);
    }
    if i :| 0 <= i < |stale| && HasTerms(stale[i], terms) {
      MatchingConcat(stale, EntriesOf(tok, blocks), terms, stale[i].offset);
    }
  }

  lemma LastEndAfter(tok: Tokenizer, stale: seq<IndexEntry>, blocks: seq<Block>)
    requires blocks != []
    ensures LastEnd(stale + EntriesOf(tok, blocks)) == |FileOf(blocks)|
  {
    EntriesTile(tok, blocks);
    var es := stale + EntriesOf(tok, blocks);
    assert es[|es| - 1] == EntriesOf(tok, blocks)[|blocks| - 1];
  }

  /** What a search with readable index lines reads: matching and named frames, or all if no entry matches. */
  lemma FramesReadExactly(tok: Tokenizer, stale: seq<IndexEntry>, blocks: seq<Block>, lineBytes: IndexEntry -> nat,
                          terms: seq<string>, j: nat)
    requires j < |blocks|
    ensures j in FramesRead(SelectedAfter(tok, stale, blocks, lineBytes, terms), blocks) <==>
            || terms == [] || !IndexLinesFit(stale + EntriesOf(tok, blocks), lineBytes)
            || BlockHasTerms(tok, blocks[j], terms) || StaleNames(stale, terms, Offset(blocks, j))
            || (!SomeBlockMatches(tok, blocks, terms) && !SomeStaleMatches(stale, terms))
  {
    LinesOfEntries(stale + EntriesOf(tok, blocks), lineBytes);
    LastEndAfter(tok, stale, blocks);
    MatchingAfter(tok, stale, blocks, terms, j);
    NothingMatchesAfter(tok, stale, blocks, terms);
  }

  /** No frame whose block holds all terms as tokens is ever skipped, whatever stands in the index before its entry. */
  lemma NoMatchIsSkipped(tok: Tokenizer, stale: seq<IndexEntry>, blocks: seq<Block>, lineBytes: IndexEntry -> nat,
                         terms: seq<string>, j: nat)
    requires j < |blocks| && BlockHasTerms(tok, blocks[j], terms)
    ensures j in FramesRead(SelectedAfter(tok, stale, blocks, lineBytes, terms), blocks)
  {
    FramesReadExactly(tok, stale, blocks, lineBytes, terms, j);
  }

  lemma OwnLinesFit(tok: Tokenizer, stale: seq<IndexEntry>, blocks: seq<Block>, lineBytes: IndexEntry -> nat)
    requires IndexLinesFit(stale + EntriesOf(tok, blocks), lineBytes)
    ensures IndexLinesFit([] + EntriesOf(tok, blocks), lineBytes)
  {
    var own, all := EntriesOf(tok, blocks), stale + EntriesOf(tok, blocks);
    assert forall i :: 0 <= i < |own| ==> all[|stale| + i] == own[i];
  }

  /** Frame j is decoded by a search that can read every index line. */
  ghost predicate Read(tok: Tokenizer, stale: seq<IndexEntry>, blocks: seq<Block>, terms: seq<string>, j: nat)
    requires j < |blocks|
  {
    || BlockHasTerms(tok, blocks[j], terms) || StaleNames(stale, terms, Offset(blocks, j))
    || (!SomeBlockMatches(tok, blocks, terms) && !SomeStaleMatches(stale, terms))
  }

  ghost function FramesAfter(tok: Tokenizer, stale: seq<IndexEntry>, blocks: seq<Block>, lineBytes: IndexEntry -> nat,
                             terms: seq<string>): set<nat>
  {
    FramesRead(SelectedAfter(tok, stale, blocks, lineBytes, terms), blocks)
  }

  ghost function ReadSet(tok: Tokenizer, stale: seq<IndexEntry>, blocks: seq<Block>, terms: seq<string>): set<nat> {
    set j: nat | j < |blocks| && Read(tok, stale, blocks, terms, j)
  }

  lemma FramesAreRead(tok: Tokenizer, stale: seq<IndexEntry>, blocks: seq<Block>, lineBytes: IndexEntry -> nat,
                      terms: seq<string>)
    requires terms != [] && IndexLinesFit(stale + EntriesOf(tok, blocks), lineBytes)
    ensures FramesAfter(tok, stale, blocks, lineBytes, terms) == ReadSet(tok, stale, blocks, terms)
  {
    forall j: nat | j < |blocks|
      ensures j in FramesAfter(tok, stale, blocks, lineBytes, terms) <==> Read(tok, stale, blocks, terms, j)
    {
      FramesReadExactly(tok, stale, blocks, lineBytes, terms, j);
    }
  }

  /** The stale entries that hold all terms name every frame. */
  ghost predicate FramesNamed(stale: seq<IndexEntry>, blocks: seq<Block>, terms: seq<string>) {
    forall j: nat :: j < |blocks| ==> StaleNames(stale, terms, Offset(blocks, j))
  }

  /** Every frame named by a stale entry that holds all terms has a block that holds them too. */
  ghost predicate NamedMatch(tok: Tokenizer, stale: seq<IndexEntry>, blocks: seq<Block>, terms: seq<string>) {
    forall j: nat :: j < |blocks| && StaleNames(stale, terms, Offset(blocks, j)) ==>
                       BlockHasTerms(tok, blocks[j], terms)
  }

  /**
   * When stale entries hide frames, and when they add some. They hide frames that the search would otherwise have read
   * exactly if no block holds all terms as tokens, so that the search would have read all of them, a stale entry holds
   * them, and the stale entries that do name not every frame. They add frames exactly if some block holds all terms
   * and a matching stale entry names one that does not.
   */
  lemma StaleEntriesExactly(tok: Tokenizer, stale: seq<IndexEntry>, blocks: seq<Block>, lineBytes: IndexEntry -> nat,
                            terms: seq<string>)
    requires terms != [] && IndexLinesFit(stale + EntriesOf(tok, blocks), lineBytes)
    ensures FramesAfter(tok, [], blocks, lineBytes, terms) <= FramesAfter(tok, stale, blocks, lineBytes, terms) <==>
            || SomeBlockMatches(tok, blocks, terms) || !SomeStaleMatches(stale, terms)
            || FramesNamed(stale, blocks, terms)
    ensures FramesAfter(tok, stale, blocks, lineBytes, terms) <= FramesAfter(tok, [], blocks, lineBytes, terms) <==>
            !SomeBlockMatches(tok, blocks, terms) || NamedMatch(tok, stale, blocks, terms)
  {
    OwnLinesFit(tok, stale, blocks, lineBytes);
    FramesAreRead(tok, [], blocks, lineBytes, terms);
    FramesAreRead(tok, stale, blocks, lineBytes, terms);
    ReadHides(tok, stale, blocks, terms);
    ReadAdds(tok, stale, blocks, terms);
  }

  lemma ReadHides(tok: Tokenizer, stale: seq<IndexEntry>, blocks: seq<Block>, terms: seq<string>)
    ensures ReadSet(tok, [], blocks, terms) <= ReadSet(tok, stale, blocks, terms) <==>
            || SomeBlockMatches(tok, blocks, terms) || !SomeStaleMatches(stale, terms)
            || FramesNamed(stale, blocks, terms)
  {
    var own, all := ReadSet(tok, [], blocks, terms), ReadSet(tok, stale, blocks, terms);
    if !SomeBlockMatches(tok, blocks, terms) && SomeStaleMatches(stale, terms) {
      forall j: nat | j < |blocks|
        ensures j in own && (j in all <==> StaleNames(stale, terms, Offset(blocks, j)))
      {
        assert !BlockHasTerms(tok, blocks[j], terms);
      }
    }
  }

  lemma ReadAdds(tok: Tokenizer, stale: seq<IndexEntry>, blocks: seq<Block>, terms: seq<string>)
    ensures ReadSet(tok, stale, blocks, terms) <= ReadSet(tok, [], blocks, terms) <==>
            !SomeBlockMatches(tok, blocks, terms) || NamedMatch(tok, stale, blocks, terms)
  {
    var own, all := ReadSet(tok, [], blocks, terms), ReadSet(tok, stale, blocks, terms);
    if SomeBlockMatches(tok, blocks, terms) {
      forall j: nat | j < |blocks|
        ensures j in own <==> BlockHasTerms(tok, blocks[j], terms)
        ensures j in all <==> BlockHasTerms(tok, blocks[j], terms) || StaleNames(stale, terms, Offset(blocks, j))
      {
      }
    }
  }
}
