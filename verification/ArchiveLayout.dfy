/** The bytes of an archive, one by one, and what its readers check of them and what not. */
module ArchiveLayout {
  import opened Text
  import opened ArchiveFormat
  import opened ArchiveRecords
  import opened ArchiveIndex

  /** Byte i of a big-endian number of `width` bytes. */
  lemma {:induction false} BigEndian(n: nat, width: nat, i: nat)
    requires i < width
    ensures Pow256(width - 1 - i) > 0 && PutBE(n, width)[i] == n / Pow256(width - 1 - i) % 256
  {
    PowPositive(width - 1 - i);
    if i < width - 1 {
      BigEndian(n / 256, width - 1, i);
      DivideTwice(n, Pow256(width - 2 - i));
    }
  }

  lemma PowPositive(width: nat)
    ensures Pow256(width) > 0
  {
  }

  lemma DivideTwice(n: nat, m: nat)
    requires m > 0
    ensures n / 256 / m == n / (256 * m)
  {
    var q, r := n / (256 * m), n % (256 * m);
    assert n == (256 * m) * q + r;
    assert r / 256 < m;
    assert n / 256 == m * q + r / 256 by {
      assert n == 256 * (m * q) + r;
    }
    DivideSum(m, q, r / 256);
  }

  lemma Multiple(m: nat, k: nat)
    requires k > 0
    ensures m * k >= m
  {
  }

  lemma DivideSum(m: nat, q: nat, r: nat)
    requires r < m
    ensures (m * q + r) / m == q
  {
    var x := m * q + r;
    var d, e := x / m, x % m;
    assert m * (q - d) == e - r;
    if q > d {
      Multiple(m, q - d);
    } else if q < d {
      Multiple(m, d - q);
    }
  }

  /**
   * A file starts with "HMKBZST1". A frame is the raw length and the stored length, each eight bytes with the most
   * significant first, and the stored bytes; with a key these are the nonce and the sealed block behind it.
   */
  lemma LayoutExactly(b: Block, blocks: seq<Block>, i: nat)
    requires i < 8
    ensures FileOf(blocks)[..8] == [72, 77, 75, 66, 90, 83, 84, 49] && |Frame(b)| == 16 + |b.stored|
    ensures Pow256(7 - i) > 0
    ensures Frame(b)[i] == |b.raw| / Pow256(7 - i) % 256 && Frame(b)[8 + i] == |b.stored| / Pow256(7 - i) % 256
    ensures Frame(b)[16..] == b.stored
  {
    BigEndian(|b.raw|, 8, i);
    BigEndian(|b.stored|, 8, i);
  }

  /** The size limit of a stored block is 512 MiB. */
  lemma LimitExactly(blocks: seq<Block>, j: nat)
    ensures FitsUpTo(blocks, j) <==> j <= |blocks| && forall i :: 0 <= i < j ==> |blocks[i].stored| <= 536_870_912
  {
  }

  lemma StoredExactly(c: Codec, nonce: Bytes, raw: Bytes)
    ensures var stored := Store(c, nonce, raw);
            if !c.encrypted then stored == c.compress(raw)
            else && |stored| >= |nonce| && stored[..|nonce|] == nonce
                 && stored[|nonce|..] == c.seal(nonce, c.compress(raw))
  {
  }

  lemma {:induction false} NewlineEndsNothing(line: Bytes)
    requires NEWLINE !in line
    ensures NewlineAt(line) == |line|
  {
    if line != [] {
      NewlineEndsNothing(line[1..]);
    }
  }

  /**
   * A block is scanned line by line: a carriage return before the newline is dropped, the last line needs no newline,
   * and a line that reaches 512 MiB, or does not parse, is an error.
   */
  lemma LinesExactly(json: Json, line: Bytes, rest: Bytes)
    requires NEWLINE !in line
    ensures line != [] ==> ScanRecords(json, line) == FirstLine(json, line, [])
    ensures ScanRecords(json, line + [10] + rest) == FirstLine(json, line, rest)
  {
    NewlineEndsLine(line, rest);
    var raw := line + [10] + rest;
    assert raw[..|line|] == line && raw[|line| + 1..] == rest;
    if line != [] {
      NewlineEndsNothing(line);
      assert line[..|line|] == line;
    }
  }

  function FirstLine(json: Json, line: Bytes, rest: Bytes): Result<seq<Record>, ReadError> {
    var text := if line != [] && line[|line| - 1] == 13 then line[..|line| - 1] else line;
    if |line| >= 536_870_912 || json.decode(text) == None then Err(BadRecord)
    else
      match ScanRecords(json, rest)
      case Err(e) => Err(e)
      case Ok(rs) => Ok([json.decode(text).value] + rs)
  }

  /** Reading records skips the header unseen; counting blocks insists on it. */
  lemma WhoChecksTheHeader(c: Codec, json: Json, header: Bytes, other: Bytes, rest: Bytes)
    requires |header| == |other| == 8
    ensures ReadArchive(c, json, header + rest) == ReadArchive(c, json, other + rest)
    ensures header != [72, 77, 75, 66, 90, 83, 84, 49] ==> CountBlocks(header + rest) == Err(BadMagic)
    ensures header == [72, 77, 75, 66, 90, 83, 84, 49] ==> CountBlocks(header + rest) == CountFrames(rest)
  {
    assert (header + rest)[8..] == rest == (other + rest)[8..] && (header + rest)[..8] == header;
  }

  /** The raw length in a frame matters to nobody but the rebuilding of the index, which insists on it. */
  lemma WhoChecksTheRawLength(c: Codec, json: Json, tok: Tokenizer, offset: nat, rest: Bytes, length: Bytes)
    requires |rest| >= 16 && |length| == 8
    ensures var changed := length + rest[8..];
            && ReadFrom(c, json, changed) == ReadFrom(c, json, rest)
            && CountFrames(changed) == CountFrames(rest)
            && (Rebuild(c, tok, offset, changed).Ok? && Rebuild(c, tok, offset, rest).Ok? ==>
                  GetBE(length) == GetBE(rest[..8]))
  {
    var changed, n := length + rest[8..], StoredLength(rest);
    assert changed[8..16] == rest[8..16] && changed[..8] == length;
    assert changed[16..] == rest[16..];
    if |rest| >= 16 + n {
      assert changed[16..16 + n] == changed[16..][..n] == rest[16..][..n] == rest[16..16 + n];
      assert changed[16 + n..] == changed[16..][n..] == rest[16..][n..] == rest[16 + n..];
    }
  }
}
