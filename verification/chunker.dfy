/**
 The route-table chunker of `LoadDataTable` (main.go): one pass over the
 lines of a routing-table dump that cuts it into chunks, one per
 "Destination:" line, and files each chunk under its destination key.

 The pass itself is modelled as the program runs it (`Step` is one
 iteration of the scan loop, `Finish` the flush after the loop). Next to
 it stands a declarative reference (`Markers`, `ChunkAt`, `Chunks`,
 `Index`) that says which chunks there are purely in terms of where the
 marker lines sit; `ParseMatchesReference` proves the two agree, and the
 remaining lemmas read the chunker's properties off the reference.

 The SHA-256 digest of `hashChunk` is the parameter `hash`; nothing about
 it is assumed.
 */
module Chunker {
  import opened Text
  import opened Fields

  /** ASCII "Destination:", the prefix that opens a chunk. */
  const Marker: Bytes := [68, 101, 115, 116, 105, 110, 97, 116, 105, 111, 110, 58]

  /** ASCII "unknown_", the prefix of a synthetic key. */
  const UnknownPrefix: Bytes := [117, 110, 107, 110, 111, 119, 110, 95]

  /** The content digest: `hashChunk`, hex-encoded SHA-256 in the program. */
  type Hasher = Bytes -> string

  /** One route entry. Line numbers are 1-based and inclusive. */
  datatype Chunk = Chunk(
    startLine: nat,
    endLine: nat,
    hash: string,
    data: Bytes,
    destination: Bytes)

  /** The chunks of one table, keyed by destination. */
  type Table = map<Bytes, Chunk>

  /** `strings.HasPrefix(line, "Destination:")`. */
  predicate IsMarker(line: Bytes) {
    |Marker| <= |line| && line[..|Marker|] == Marker
  }

  /** `fmt.Sprintf("unknown_%d", lineNum)`. */
  function SyntheticKey(lineNum: nat): Bytes {
    UnknownPrefix + Decimal(lineNum)
  }

  /** The destination key of the marker line numbered `lineNum`: its second
      white-space separated field, or the synthetic key when it has fewer
      than two fields. */
  function KeyOf(line: Bytes, lineNum: nat): Bytes {
    var parts := Fields.Fields(line);
    if |parts| >= 2 then parts[1] else SyntheticKey(lineNum)
  }

  /* ---------------------------------------------------------------------
     The scan loop, as the program runs it
     --------------------------------------------------------------------- */

  /** Where the scan is: before the first marker line, or inside a chunk
      that started at line `start` and has collected `lines` so far. */
  datatype Cursor =
    | Preamble
    | InChunk(start: nat, destination: Bytes, lines: seq<Bytes>)

  /** The loop's variables: the number of the last line read, the open
      chunk, and the table being filled. */
  datatype Scan = Scan(lineNum: nat, cursor: Cursor, chunks: Table)

  /** The scan before any line has been read, filling a fresh table. */
  const Start: Scan := Scan(0, Preamble, map[])

  /** Closes an open chunk whose last line is `endLine`. */
  function Close(open: Cursor, endLine: nat, hash: Hasher): Chunk
    requires open.InChunk?
  {
    var data := JoinLines(open.lines);
    Chunk(open.start, endLine, hash(data), data, open.destination)
  }

  /** Saves the open chunk, if any, into the table; a later chunk with the
      same destination replaces an earlier one. */
  function Save(chunks: Table, cursor: Cursor, endLine: nat, hash: Hasher): Table {
    if cursor.InChunk? && |cursor.lines| > 0 then
      chunks[cursor.destination := Close(cursor, endLine, hash)]
    else chunks
  }

  /** One iteration of the scan loop over `line`. */
  function Step(st: Scan, line: Bytes, hash: Hasher): Scan {
    var n := st.lineNum + 1;
    if IsMarker(line) then
      Scan(n, InChunk(n, KeyOf(line, n), [line]), Save(st.chunks, st.cursor, n - 1, hash))
    else if st.cursor.InChunk? then
      Scan(n, st.cursor.(lines := st.cursor.lines + [line]), st.chunks)
    else
      Scan(n, Preamble, st.chunks)
  }

  /** The scan loop run over `lines`, in order. */
  function Run(st: Scan, lines: seq<Bytes>, hash: Hasher): Scan
    decreases |lines|
  {
    if lines == [] then st
    else Step(Run(st, lines[..|lines| - 1], hash), lines[|lines| - 1], hash)
  }

  /** The flush after the loop: the last chunk ends at the last line. */
  function Finish(st: Scan, hash: Hasher): Table {
    Save(st.chunks, st.cursor, st.lineNum, hash)
  }

  /** The chunk table of `lines`, built into a fresh table. */
  function Parse(lines: seq<Bytes>, hash: Hasher): Table {
    Finish(Run(Start, lines, hash), hash)
  }

  /* ---------------------------------------------------------------------
     The reference: chunks from marker positions
     --------------------------------------------------------------------- */

  /** The 0-based positions of the marker lines, in increasing order. */
  function Markers(lines: seq<Bytes>): (ms: seq<nat>)
    ensures forall k :: 0 <= k < |ms| ==> ms[k] < |lines| && IsMarker(lines[ms[k]])
    ensures forall a, b :: 0 <= a < b < |ms| ==> ms[a] < ms[b]
    decreases |lines|
  {
    if lines == [] then []
    else
      var n := |lines| - 1;
      Markers(lines[..n]) + (if IsMarker(lines[n]) then [n] else [])
  }

  /** Every marker line is listed. */
  lemma {:induction false} MarkersComplete(lines: seq<Bytes>)
    ensures forall i :: 0 <= i < |lines| && IsMarker(lines[i]) ==> i in Markers(lines)
    decreases |lines|
  {
    if lines != [] {
      var init := lines[..|lines| - 1];
      MarkersComplete(init);
      forall i | 0 <= i < |init| && IsMarker(lines[i])
        ensures i in Markers(lines)
      {
        assert lines[i] == init[i];
      }
    }
  }

  /** The chunk made of lines `s` up to (not including) `e`, 0-based. */
  function ChunkOf(lines: seq<Bytes>, s: nat, e: nat, hash: Hasher): Chunk
    requires s < e <= |lines|
  {
    var data := JoinLines(lines[s..e]);
    Chunk(s + 1, e, hash(data), data, KeyOf(lines[s], s + 1))
  }

  /** The `k`-th chunk: from the `k`-th marker line up to the line before
      the next marker line, or to the last line. */
  function ChunkAt(lines: seq<Bytes>, k: nat, hash: Hasher): Chunk
    requires k < |Markers(lines)|
  {
    var ms := Markers(lines);
    ChunkOf(lines, ms[k], if k + 1 < |ms| then ms[k + 1] else |lines|, hash)
  }

  /** All chunks of `lines`, in input order, duplicates included. */
  function Chunks(lines: seq<Bytes>, hash: Hasher): seq<Chunk> {
    var ms := Markers(lines);
    seq(|ms|, k requires 0 <= k < |ms| => ChunkAt(lines, k, hash))
  }

  /** Every marker line opens a chunk and every chunk is opened by one; the
      lines before the first marker line belong to no chunk. */
  lemma ChunksCover(lines: seq<Bytes>, hash: Hasher)
    ensures |Chunks(lines, hash)| == |Markers(lines)|
    ensures Chunks(lines, hash) == [] <==> forall i :: 0 <= i < |lines| ==> !IsMarker(lines[i])
    ensures var cs := Chunks(lines, hash);
      |cs| > 0 ==> forall i :: 0 <= i < cs[0].startLine - 1 ==> !IsMarker(lines[i])
    ensures var cs := Chunks(lines, hash);
      forall k :: 0 <= k < |cs| ==> cs[0].startLine <= cs[k].startLine
  {
    var cs := Chunks(lines, hash);
    NoMarkerInside(lines);
    if |cs| > 0 {
      assert cs[0] == ChunkAt(lines, 0, hash);
    }
    forall k | 0 <= k < |cs|
      ensures cs[0].startLine <= cs[k].startLine
    {
      ChunkAtLines(lines, k, hash);
      ChunkAtLines(lines, 0, hash);
    }
  }

  /** Each chunk starts at its marker line, holds no other marker line,
      and carries its own lines joined, their digest and the key of its
      marker line. */
  lemma ChunksEach(lines: seq<Bytes>, hash: Hasher)
    ensures var cs := Chunks(lines, hash);
      forall k :: 0 <= k < |cs| ==> ChunkShape(lines, hash, cs[k])
  {
    var cs := Chunks(lines, hash);
    forall k | 0 <= k < |cs|
      ensures ChunkShape(lines, hash, cs[k])
    {
      ChunkAtShape(lines, k, hash);
    }
  }

  /** Consecutive chunks are adjacent and the last one runs to the last
      line: the chunks tile the input from the first marker line on. */
  lemma ChunksAdjacent(lines: seq<Bytes>, hash: Hasher)
    ensures var cs := Chunks(lines, hash);
      forall k :: 0 <= k < |cs| - 1 ==> cs[k].endLine + 1 == cs[k + 1].startLine
    ensures var cs := Chunks(lines, hash);
      |cs| > 0 ==> cs[|cs| - 1].endLine == |lines|
  {
    var n := |Markers(lines)|;
    forall k | 0 <= k < n - 1
      ensures Chunks(lines, hash)[k].endLine + 1 == Chunks(lines, hash)[k + 1].startLine
    {
      ChunkNextLine(lines, k, hash);
    }
    if n > 0 {
      ChunkAtLines(lines, n - 1, hash);
    }
  }

  lemma ChunkNextLine(lines: seq<Bytes>, k: nat, hash: Hasher)
    requires k + 1 < |Markers(lines)|
    ensures |Chunks(lines, hash)| == |Markers(lines)|
    ensures Chunks(lines, hash)[k].endLine + 1 == Chunks(lines, hash)[k + 1].startLine
  {
    ChunkAtLines(lines, k, hash);
    ChunkAtLines(lines, k + 1, hash);
  }

  /** Where the `k`-th chunk starts and ends. */
  lemma ChunkAtLines(lines: seq<Bytes>, k: nat, hash: Hasher)
    requires k < |Markers(lines)|
    ensures var ms := Markers(lines);
      var c := Chunks(lines, hash)[k];
      && c.startLine == ms[k] + 1
      && c.endLine == (if k + 1 < |ms| then ms[k + 1] else |lines|)
  {
    ChunksAt(lines, k, hash);
  }

  /** One chunk's own shape, as `ChunksEach` states it for every chunk. */
  ghost predicate ChunkShape(lines: seq<Bytes>, hash: Hasher, c: Chunk) {
    && 1 <= c.startLine <= c.endLine <= |lines|
    && IsMarker(lines[c.startLine - 1])
    && (forall i :: c.startLine <= i < c.endLine ==> !IsMarker(lines[i]))
    && c.data == JoinLines(lines[c.startLine - 1..c.endLine])
    && c.hash == hash(c.data)
    && c.destination == KeyOf(lines[c.startLine - 1], c.startLine)
  }

  lemma ChunkAtShape(lines: seq<Bytes>, k: nat, hash: Hasher)
    requires k < |Markers(lines)|
    ensures ChunkShape(lines, hash, ChunkAt(lines, k, hash))
  {
    NoMarkerInside(lines);
  }

  /** No marker line lies strictly between two consecutive marker
      positions, after the last one, or before the first one. */
  lemma NoMarkerInside(lines: seq<Bytes>)
    ensures var ms := Markers(lines);
      forall k, i :: 0 <= k < |ms| && ms[k] < i < (if k + 1 < |ms| then ms[k + 1] else |lines|)
        ==> !IsMarker(lines[i])
    ensures var ms := Markers(lines);
      |ms| > 0 ==> forall i :: 0 <= i < ms[0] ==> !IsMarker(lines[i])
    ensures |Markers(lines)| == 0 <==> forall i :: 0 <= i < |lines| ==> !IsMarker(lines[i])
  {
    var ms := Markers(lines);
    MarkersComplete(lines);
    if |ms| > 0 {
      assert IsMarker(lines[ms[0]]);
    }
  }

  /** `j` is the last position in `cs` whose chunk has key `key`. */
  predicate IsLastWith(cs: seq<Chunk>, key: Bytes, j: nat) {
    && j < |cs|
    && cs[j].destination == key
    && forall j' :: j < j' < |cs| ==> cs[j'].destination != key
  }

  /** The table that inserting `cs` in order builds. */
  function Index(cs: seq<Chunk>): Table
    decreases |cs|
  {
    if cs == [] then map[]
    else Index(cs[..|cs| - 1])[cs[|cs| - 1].destination := cs[|cs| - 1]]
  }

  /** Inserting chunks in order files every chunk's key, and each key holds
      the last chunk inserted under it. */
  lemma {:induction false} IndexLastWins(cs: seq<Chunk>)
    ensures forall k :: 0 <= k < |cs| ==> cs[k].destination in Index(cs)
    ensures forall key :: key in Index(cs) ==>
      exists j: nat :: IsLastWith(cs, key, j) && Index(cs)[key] == cs[j]
    decreases |cs|
  {
    if cs != [] {
      IndexLastWins(cs[..|cs| - 1]);
      IndexStep(cs, Index(cs[..|cs| - 1]));
    }
  }

  /** Inserting one more chunk keeps every other key's last chunk. */
  lemma IndexStep(cs: seq<Chunk>, t: Table)
    requires |cs| > 0
    requires forall key :: key in t ==>
      exists j: nat :: IsLastWith(cs[..|cs| - 1], key, j) && t[key] == cs[j]
    ensures var last := cs[|cs| - 1];
      var r := t[last.destination := last];
      forall key :: key in r ==> exists j: nat :: IsLastWith(cs, key, j) && r[key] == cs[j]
  {
    var last := cs[|cs| - 1];
    var r := t[last.destination := last];
    assert IsLastWith(cs, last.destination, |cs| - 1);
    forall key | key in r
      ensures exists j: nat :: IsLastWith(cs, key, j) && r[key] == cs[j]
    {
      if key != last.destination {
        var j: nat :| IsLastWith(cs[..|cs| - 1], key, j) && t[key] == cs[j];
        assert IsLastWith(cs, key, j);
      }
    }
  }

  /* ---------------------------------------------------------------------
     The scan loop computes the reference
     --------------------------------------------------------------------- */

  /** What the scan loop holds after reading `lines`: the line count, and
      the open chunk, which is the one that started at the last marker
      line. */
  ghost predicate CursorState(lines: seq<Bytes>, st: Scan) {
    var ms := Markers(lines);
    && st.lineNum == |lines|
    && (|ms| == 0 ==> st.cursor == Preamble)
    && (|ms| > 0 ==>
          var m := ms[|ms| - 1];
          st.cursor == InChunk(m + 1, KeyOf(lines[m], m + 1), lines[m..]))
  }

  /** The table the scan loop holds after reading `lines`: every chunk
      before the open one. */
  ghost predicate TableState(lines: seq<Bytes>, hash: Hasher, st: Scan) {
    var ms := Markers(lines);
    && (|ms| == 0 ==> st.chunks == map[])
    && (|ms| > 0 ==> st.chunks == Index(Chunks(lines, hash)[..|ms| - 1]))
  }

  ghost predicate RunState(lines: seq<Bytes>, hash: Hasher, st: Scan) {
    CursorState(lines, st) && TableState(lines, hash, st)
  }

  lemma ChunksAt(lines: seq<Bytes>, k: nat, hash: Hasher)
    requires k < |Markers(lines)|
    ensures |Chunks(lines, hash)| == |Markers(lines)|
    ensures Chunks(lines, hash)[k] == ChunkAt(lines, k, hash)
  {
  }

  /** Appending a line keeps every chunk that is already closed; and when
      the new line is a marker line, it also closes the last chunk exactly
      where the flush would have. */
  lemma ChunkAtAfterAppend(lines: seq<Bytes>, k: nat, hash: Hasher)
    requires |lines| > 0
    requires var msi := Markers(lines[..|lines| - 1]);
      k + 1 < |msi| || (k + 1 == |msi| && IsMarker(lines[|lines| - 1]))
    ensures k + 1 < |Markers(lines)|
    ensures ChunkAt(lines, k, hash) == ChunkAt(lines[..|lines| - 1], k, hash)
  {
    var init := lines[..|lines| - 1];
    var ms := Markers(lines);
    var msi := Markers(init);
    assert ms == msi + (if IsMarker(lines[|lines| - 1]) then [|init|] else []);
    var e := if k + 1 < |msi| then msi[k + 1] else |init|;
    assert ms[k + 1] == e;
    ChunkOfPrefix(lines, init, msi[k], e, hash);
  }

  /** A chunk depends only on the lines it spans. */
  lemma ChunkOfPrefix(lines: seq<Bytes>, init: seq<Bytes>, s: nat, e: nat, hash: Hasher)
    requires |init| <= |lines| && init == lines[..|init|]
    requires s < e <= |init|
    ensures ChunkOf(lines, s, e, hash) == ChunkOf(init, s, e, hash)
  {
    assert lines[s..e] == init[s..e];
    assert lines[s] == init[s];
  }

  /** The chunks of `lines` that the last line cannot affect. */
  lemma ChunksAfterAppend(lines: seq<Bytes>, hash: Hasher)
    requires |lines| > 0
    ensures var init := lines[..|lines| - 1];
      var c := |Markers(init)|;
      IsMarker(lines[|lines| - 1]) ==> Chunks(lines, hash)[..c] == Chunks(init, hash)
    ensures var init := lines[..|lines| - 1];
      var c := |Markers(init)|;
      c > 0 ==> Chunks(lines, hash)[..c - 1] == Chunks(init, hash)[..c - 1]
  {
    var init := lines[..|lines| - 1];
    var c := |Markers(init)|;
    var last := if IsMarker(lines[|lines| - 1]) then c else c - 1;
    forall k | 0 <= k < last
      ensures Chunks(lines, hash)[k] == Chunks(init, hash)[k]
    {
      ChunkAtAfterAppend(lines, k, hash);
      ChunksAt(lines, k, hash);
      ChunksAt(init, k, hash);
    }
    assert |Markers(lines)| >= c;
    assert |Chunks(lines, hash)| == |Markers(lines)|;
    assert |Chunks(init, hash)| == c;
  }

  /** Inserting a last chunk into the table of the ones before it. */
  lemma IndexSnoc(cs: seq<Chunk>)
    requires |cs| > 0
    ensures Index(cs) == Index(cs[..|cs| - 1])[cs[|cs| - 1].destination := cs[|cs| - 1]]
  {
  }

  /** The chunk the flush closes is the reference's last chunk. */
  lemma CloseMatches(lines: seq<Bytes>, hash: Hasher, st: Scan)
    requires CursorState(lines, st) && |Markers(lines)| > 0
    ensures var ms := Markers(lines);
      && |Chunks(lines, hash)| == |ms|
      && Close(st.cursor, |lines|, hash) == Chunks(lines, hash)[|ms| - 1]
  {
    var ms := Markers(lines);
    var m := ms[|ms| - 1];
    assert lines[m..|lines|] == lines[m..];
    ChunksAt(lines, |ms| - 1, hash);
  }

  /** The flush inserts that last chunk into the table of the others. */
  lemma FinishMatches(lines: seq<Bytes>, hash: Hasher, st: Scan)
    requires RunState(lines, hash, st)
    ensures Finish(st, hash) == Index(Chunks(lines, hash))
  {
    var ms := Markers(lines);
    var cs := Chunks(lines, hash);
    if |ms| > 0 {
      CloseMatches(lines, hash, st);
      IndexSnoc(cs);
    } else {
      assert cs == [];
    }
  }

  lemma MarkersAppend(lines: seq<Bytes>)
    requires |lines| > 0
    ensures Markers(lines) == Markers(lines[..|lines| - 1])
      + (if IsMarker(lines[|lines| - 1]) then [|lines| - 1] else [])
  {
  }

  /** The open chunk after one more line. */
  lemma StepCursor(lines: seq<Bytes>, prev: Scan, hash: Hasher)
    requires |lines| > 0
    requires CursorState(lines[..|lines| - 1], prev)
    ensures CursorState(lines, Step(prev, lines[|lines| - 1], hash))
  {
    var init := lines[..|lines| - 1];
    var line := lines[|lines| - 1];
    var ms := Markers(lines);
    var msi := Markers(init);
    MarkersAppend(lines);
    var st := Step(prev, line, hash);
    if IsMarker(line) {
      assert lines[|init|..] == [line];
    } else if |ms| > 0 {
      var m := ms[|ms| - 1];
      assert m == msi[|msi| - 1];
      assert prev.cursor == InChunk(m + 1, KeyOf(init[m], m + 1), init[m..]);
      assert st.cursor == prev.cursor.(lines := prev.cursor.lines + [line]);
      assert lines[m..] == init[m..] + [line];
      assert lines[m] == init[m];
    }
  }

  /** A marker line closes the open chunk into the table. */
  lemma StepTableOnMarker(lines: seq<Bytes>, prev: Scan, hash: Hasher)
    requires |lines| > 0 && IsMarker(lines[|lines| - 1])
    requires RunState(lines[..|lines| - 1], hash, prev)
    ensures TableState(lines, hash, Step(prev, lines[|lines| - 1], hash))
  {
    var init := lines[..|lines| - 1];
    var ms := Markers(lines);
    MarkersAppend(lines);
    assert Step(prev, lines[|lines| - 1], hash).chunks == Finish(prev, hash);
    assert Finish(prev, hash) == Index(Chunks(init, hash)) by {
      FinishMatches(init, hash, prev);
    }
    assert Chunks(lines, hash)[..|ms| - 1] == Chunks(init, hash) by {
      ChunksAfterAppend(lines, hash);
    }
  }

  /** Any other line leaves the table alone. */
  lemma StepTableOnOther(lines: seq<Bytes>, prev: Scan, hash: Hasher)
    requires |lines| > 0 && !IsMarker(lines[|lines| - 1])
    requires TableState(lines[..|lines| - 1], hash, prev)
    ensures TableState(lines, hash, Step(prev, lines[|lines| - 1], hash))
  {
    var init := lines[..|lines| - 1];
    var ms := Markers(lines);
    MarkersAppend(lines);
    assert Step(prev, lines[|lines| - 1], hash).chunks == prev.chunks;
    if |ms| > 0 {
      assert Chunks(lines, hash)[..|ms| - 1] == Chunks(init, hash)[..|ms| - 1] by {
        ChunksAfterAppend(lines, hash);
      }
    }
  }

  lemma {:induction false} RunMatchesReference(lines: seq<Bytes>, hash: Hasher)
    ensures RunState(lines, hash, Run(Start, lines, hash))
    decreases |lines|
  {
    if lines != [] {
      var init := lines[..|lines| - 1];
      var prev := Run(Start, init, hash);
      RunMatchesReference(init, hash);
      StepCursor(lines, prev, hash);
      if IsMarker(lines[|lines| - 1]) {
        StepTableOnMarker(lines, prev, hash);
      } else {
        StepTableOnOther(lines, prev, hash);
      }
    }
  }

  /** The scan loop and its flush build exactly the table that inserting
      the reference chunks in input order builds. */
  lemma ParseMatchesReference(lines: seq<Bytes>, hash: Hasher)
    ensures Parse(lines, hash) == Index(Chunks(lines, hash))
  {
    RunMatchesReference(lines, hash);
    FinishMatches(lines, hash, Run(Start, lines, hash));
  }
}
