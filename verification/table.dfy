/**
 What the chunk table of a dump looks like, read off the reference.
 */
module ChunkTable {
  import opened Text
  import opened Fields
  import opened Chunker

  /* ---------------------------------------------------------------------
     Keys
     --------------------------------------------------------------------- */

  lemma MarkerSpaceFree()
    ensures |Marker| > 0 && SpaceFree(Marker)
  {
    forall i | 0 <= i < |Marker|
      ensures SpaceWidth(Marker, i) == 0
    {
      assert Marker[i] >= 0x3A;
    }
  }

  /** A marker line "Destination:" + " " + key, optionally followed by
      more text that starts with a space, is filed under that key. */
  lemma KeyOfNamedMarker(key: Bytes, rest: Bytes, lineNum: nat)
    requires |key| > 0 && SpaceFree(key)
    requires rest == [] || rest[0] == Space
    ensures IsMarker(Marker + [Space] + key + rest)
    ensures KeyOf(Marker + [Space] + key + rest, lineNum) == key
  {
    MarkerSpaceFree();
    FieldsOfTwoWords(Marker, key, rest);
    var line := Marker + [Space] + key + rest;
    assert line[..|Marker|] == Marker;
  }

  /** A marker line with nothing but spaces after "Destination:" gets the
      synthetic key of its line number. */
  lemma KeyOfBareMarker(spaces: Bytes, lineNum: nat)
    requires forall i :: 0 <= i < |spaces| ==> spaces[i] == Space
    ensures IsMarker(Marker + spaces)
    ensures KeyOf(Marker + spaces, lineNum) == UnknownPrefix + Decimal(lineNum)
  {
    MarkerSpaceFree();
    FieldsOfWord(Marker, spaces);
    assert (Marker + spaces)[..|Marker|] == Marker;
  }

  /** No white space starts inside the "Destination:" prefix of a line,
      whatever follows it: every prefix byte is ASCII and none is a space. */
  lemma MarkerQuiet(t: Bytes, i: nat)
    requires i < |Marker|
    ensures SpaceWidth(Marker + t, i) == 0
  {
    assert (Marker + t)[i] == Marker[i];
    assert 0x3A <= Marker[i] < 0x80;
  }

  /** The key of any marker line. Its fields are "Destination:" glued to
      the first word after it (the word `w` below, empty when white space
      follows the colon directly), then the fields of the rest; the key is
      the first field of that rest, or the synthetic key when there is
      none. */
  lemma KeyOfMarkerLine(line: Bytes, lineNum: nat)
    requires IsMarker(line)
    ensures var t := line[|Marker|..];
      var rest := FieldsFrom(t, FieldEnd(t, 0));
      KeyOf(line, lineNum) == if |rest| > 0 then rest[0] else SyntheticKey(lineNum)
  {
    var t := line[|Marker|..];
    var e := MarkerLineFirstField(line);
    assert Fields.Fields(line) == [line[0..e]] + FieldsFrom(line, e);
    assert line == Marker + t;
    FieldsFromShift(Marker, t, FieldEnd(t, 0));
  }

  /** The first field of a marker line runs from its start to the end of
      the first word after "Destination:". */
  lemma MarkerLineFirstField(line: Bytes) returns (e: nat)
    requires IsMarker(line)
    ensures var t := line[|Marker|..];
      && e == |Marker| + FieldEnd(t, 0)
      && SpaceWidth(line, 0) == 0
      && FieldEnd(line, 0) == e
  {
    var t := line[|Marker|..];
    var w := FieldEnd(t, 0);
    e := |Marker| + w;
    assert line == Marker + t;
    forall i | 0 <= i < e
      ensures SpaceWidth(line, i) == 0
    {
      if i < |Marker| {
        MarkerQuiet(t, i);
      } else {
        SpaceWidthOfSuffix(Marker, t, i - |Marker|);
      }
    }
    if e < |line| {
      SpaceWidthOfSuffix(Marker, t, w);
    }
    FieldEndIs(line, 0, e);
  }

  /** A marker line whose colon is followed by white space, or by nothing,
      is filed under the first field after the colon, or under the
      synthetic key when there is no such field. */
  lemma KeyOfSpacedMarker(t: Bytes, lineNum: nat)
    requires t == [] || SpaceWidth(t, 0) > 0
    ensures IsMarker(Marker + t)
    ensures KeyOf(Marker + t, lineNum)
      == if |Fields.Fields(t)| > 0 then Fields.Fields(t)[0] else SyntheticKey(lineNum)
  {
    var line := Marker + t;
    assert line[..|Marker|] == Marker;
    assert line[|Marker|..] == t;
    assert FieldEnd(t, 0) == 0;
    KeyOfMarkerLine(line, lineNum);
  }

  /** Synthetic keys of different lines differ. */
  lemma SyntheticKeyInjective(a: nat, b: nat)
    requires SyntheticKey(a) == SyntheticKey(b)
    ensures a == b
  {
    assert SyntheticKey(a)[|UnknownPrefix|..] == Decimal(a);
    assert SyntheticKey(b)[|UnknownPrefix|..] == Decimal(b);
    DecimalInjective(a, b);
  }

  /** A synthetic key is not reserved: the marker line
      "Destination: unknown_3" on line 7 and a bare "Destination:" on
      line 3 are filed under the same key. */
  lemma SyntheticKeyCanCollide()
    ensures var named := Marker + [Space] + SyntheticKey(3);
      && IsMarker(named) && IsMarker(Marker)
      && named != Marker
      && KeyOf(named, 7) == KeyOf(Marker, 3)
  {
    var key := SyntheticKey(3);
    assert key == UnknownPrefix + [51];
    forall i | 0 <= i < |key|
      ensures SpaceWidth(key, i) == 0
    {
      assert key[i] >= 0x33;
    }
    KeyOfNamedMarker(key, [], 7);
    assert Marker + [Space] + key + [] == Marker + [Space] + key;
    KeyOfBareMarker([], 3);
    assert Marker + [] == Marker;
  }

  /* ---------------------------------------------------------------------
     The table
     --------------------------------------------------------------------- */

  /** A dump with no marker line, and only such a dump, yields an empty
      table. */
  lemma ParseEmptyIff(lines: seq<Bytes>, hash: Hasher)
    ensures Parse(lines, hash) == map[] <==> forall i :: 0 <= i < |lines| ==> !IsMarker(lines[i])
  {
    var cs := Chunks(lines, hash);
    ParseMatchesReference(lines, hash);
    ChunksCover(lines, hash);
    IndexLastWins(cs);
    if cs != [] {
      assert cs[0].destination in Parse(lines, hash);
    }
  }

  /** Every chunk's key is in the table, and each key holds the last chunk
      in input order that has it: a later duplicate replaces an earlier
      one. */
  lemma ParseLastWins(lines: seq<Bytes>, hash: Hasher)
    ensures var t := Parse(lines, hash); var cs := Chunks(lines, hash);
      forall k :: 0 <= k < |cs| ==> cs[k].destination in t
    ensures var t := Parse(lines, hash); var cs := Chunks(lines, hash);
      forall key :: key in t ==> exists j: nat :: IsLastWith(cs, key, j) && t[key] == cs[j]
  {
    ParseMatchesReference(lines, hash);
    IndexLastWins(Chunks(lines, hash));
  }

  /** Every stored chunk is filed under its own key, starts at a marker
      line, holds no other marker line, and carries its own lines joined
      with "\n" and their digest. */
  lemma ParseEntries(lines: seq<Bytes>, hash: Hasher)
    ensures var t := Parse(lines, hash);
      forall key :: key in t ==> t[key].destination == key && ChunkShape(lines, hash, t[key])
  {
    var t := Parse(lines, hash);
    var cs := Chunks(lines, hash);
    ParseLastWins(lines, hash);
    ChunksEach(lines, hash);
    forall key | key in t
      ensures t[key].destination == key && ChunkShape(lines, hash, t[key])
    {
      var j: nat :| IsLastWith(cs, key, j) && t[key] == cs[j];
    }
  }

  /** A stored chunk's content splits back into exactly the input lines it
      spans, in order and unmodified, when no input line holds a "\n" (as
      a line scanner guarantees). */
  lemma ParseDataIsLines(lines: seq<Bytes>, hash: Hasher)
    requires forall i :: 0 <= i < |lines| ==> IsLine(lines[i])
    ensures var t := Parse(lines, hash);
      forall key :: key in t ==>
        && 1 <= t[key].startLine <= t[key].endLine <= |lines|
        && SplitLines(t[key].data) == lines[t[key].startLine - 1..t[key].endLine]
  {
    var t := Parse(lines, hash);
    ParseEntries(lines, hash);
    forall key | key in t
      ensures 1 <= t[key].startLine <= t[key].endLine <= |lines|
      ensures SplitLines(t[key].data) == lines[t[key].startLine - 1..t[key].endLine]
    {
      ChunkDataIsLines(lines, hash, t[key]);
    }
  }

  /** One chunk's data splits back into the lines it spans. */
  lemma ChunkDataIsLines(lines: seq<Bytes>, hash: Hasher, c: Chunk)
    requires forall i :: 0 <= i < |lines| ==> IsLine(lines[i])
    requires ChunkShape(lines, hash, c)
    ensures SplitLines(c.data) == lines[c.startLine - 1..c.endLine]
  {
    var span := lines[c.startLine - 1..c.endLine];
    assert forall i :: 0 <= i < |span| ==> span[i] == lines[c.startLine - 1 + i];
    SplitJoinLines(span);
  }

  /** Chunks earlier in the input end before later ones start. */
  lemma ChunksOrdered(lines: seq<Bytes>, hash: Hasher, a: nat, b: nat)
    requires a < b < |Chunks(lines, hash)|
    ensures Chunks(lines, hash)[a].endLine < Chunks(lines, hash)[b].startLine
  {
    ChunkAtLines(lines, a, hash);
    ChunkAtLines(lines, b, hash);
  }

  /** Different keys hold chunks whose line ranges do not overlap. */
  lemma ParseDisjoint(lines: seq<Bytes>, hash: Hasher)
    ensures var t := Parse(lines, hash);
      forall k1, k2 :: k1 in t && k2 in t && k1 != k2 ==>
        t[k1].endLine < t[k2].startLine || t[k2].endLine < t[k1].startLine
  {
    var t := Parse(lines, hash);
    forall k1, k2 | k1 in t && k2 in t && k1 != k2
      ensures t[k1].endLine < t[k2].startLine || t[k2].endLine < t[k1].startLine
    {
      var a := ParsedFrom(lines, hash, k1);
      var b := ParsedFrom(lines, hash, k2);
      if a < b {
        ChunksOrdered(lines, hash, a, b);
      } else {
        ChunksOrdered(lines, hash, b, a);
      }
    }
  }

  /** The position in the input order of the chunk a key holds. */
  lemma ParsedFrom(lines: seq<Bytes>, hash: Hasher, key: Bytes) returns (j: nat)
    requires key in Parse(lines, hash)
    ensures j < |Chunks(lines, hash)|
    ensures Chunks(lines, hash)[j].destination == key
    ensures Parse(lines, hash)[key] == Chunks(lines, hash)[j]
  {
    ParseLastWins(lines, hash);
    var cs := Chunks(lines, hash);
    j :| IsLastWith(cs, key, j) && Parse(lines, hash)[key] == cs[j];
  }

  /** A line with no marker line at or before it belongs to no stored
      chunk. */
  lemma ParsePreamble(lines: seq<Bytes>, hash: Hasher, i: nat)
    requires i < |lines|
    requires forall j :: 0 <= j <= i ==> !IsMarker(lines[j])
    ensures var t := Parse(lines, hash);
      forall key :: key in t ==> !(t[key].startLine - 1 <= i < t[key].endLine)
  {
    ParseEntries(lines, hash);
  }

  /* ---------------------------------------------------------------------
     Re-parsing the chunks' text
     --------------------------------------------------------------------- */

  /** The data of each chunk, in the same order. */
  function Datas(cs: seq<Chunk>): (ds: seq<Bytes>)
    ensures |ds| == |cs|
    ensures forall k :: 0 <= k < |cs| ==> ds[k] == cs[k].data
  {
    seq(|cs|, k requires 0 <= k < |cs| => cs[k].data)
  }

  /** Where the `k`-th of the pieces cut at `bs` ends: at the next cut, or
      at `e` for the last piece. */
  function PieceEnd(bs: seq<nat>, k: nat, e: nat): nat
    requires k < |bs|
  {
    if k + 1 < |bs| then bs[k + 1] else e
  }

  /** Cutting a run of lines at increasing positions `bs` and joining each
      piece: joining the joined pieces gives the whole run joined. */
  lemma {:induction false} JoinPieces(lines: seq<Bytes>, bs: seq<nat>, ds: seq<Bytes>, e: nat)
    requires |bs| == |ds| > 0
    requires forall a, b :: 0 <= a < b < |bs| ==> bs[a] < bs[b]
    requires bs[|bs| - 1] < e <= |lines|
    requires forall k :: 0 <= k < |ds| ==> ds[k] == JoinLines(lines[bs[k]..PieceEnd(bs, k, e)])
    ensures JoinLines(ds) == JoinLines(lines[bs[0]..e])
    decreases |bs|
  {
    var n := |bs|;
    if n > 1 {
      var m := bs[n - 1];
      PiecesInit(lines, bs, ds, e);
      JoinPieces(lines, bs[..n - 1], ds[..n - 1], m);
      assert ds[n - 1] == JoinLines(lines[m..PieceEnd(bs, n - 1, e)]);
      assert ds == ds[..n - 1] + [ds[n - 1]];
      JoinLinesSplit(lines, bs[0], m, e);
    } else {
      assert PieceEnd(bs, 0, e) == e;
    }
  }

  /** Dropping the last piece leaves pieces that end at the last cut. */
  lemma PiecesInit(lines: seq<Bytes>, bs: seq<nat>, ds: seq<Bytes>, e: nat)
    requires |bs| == |ds| > 1
    requires forall a, b :: 0 <= a < b < |bs| ==> bs[a] < bs[b]
    requires bs[|bs| - 1] < e <= |lines|
    requires forall k :: 0 <= k < |ds| ==> ds[k] == JoinLines(lines[bs[k]..PieceEnd(bs, k, e)])
    ensures var n := |bs|; var bs' := bs[..n - 1]; var m := bs[n - 1];
      && bs'[0] == bs[0]
      && (forall a, b :: 0 <= a < b < |bs'| ==> bs'[a] < bs'[b])
      && bs'[|bs'| - 1] < m <= |lines|
      && forall k :: 0 <= k < n - 1 ==> ds[..n - 1][k] == JoinLines(lines[bs'[k]..PieceEnd(bs', k, m)])
  {
    var n := |bs|;
    var bs' := bs[..n - 1];
    var m := bs[n - 1];
    forall k | 0 <= k < n - 1
      ensures ds[..n - 1][k] == JoinLines(lines[bs'[k]..PieceEnd(bs', k, m)])
    {
      assert PieceEnd(bs', k, m) == PieceEnd(bs, k, e);
    }
  }

  /** The `k`-th chunk's data is its lines joined. */
  lemma ChunkDataAt(lines: seq<Bytes>, hash: Hasher, k: nat)
    requires k < |Markers(lines)|
    ensures var ms := Markers(lines);
      && |Chunks(lines, hash)| == |ms|
      && Chunks(lines, hash)[k].data == JoinLines(lines[ms[k]..PieceEnd(ms, k, |lines|)])
  {
    ChunksAt(lines, k, hash);
  }

  /** Joining all chunks' data with "\n", in input order, rebuilds the input
      from the first marker line on: the chunks lose, duplicate and reorder
      no line. */
  lemma JoinChunks(lines: seq<Bytes>, hash: Hasher)
    requires |Markers(lines)| > 0
    ensures var ms := Markers(lines);
      JoinLines(Datas(Chunks(lines, hash))) == JoinLines(lines[ms[0]..])
  {
    var ms := Markers(lines);
    ChunkDatas(lines, hash);
    JoinPieces(lines, ms, Datas(Chunks(lines, hash)), |lines|);
    assert lines[ms[0]..|lines|] == lines[ms[0]..];
  }

  /** Every chunk's data is the piece of input between its marker line and
      the next one, joined. */
  lemma ChunkDatas(lines: seq<Bytes>, hash: Hasher)
    ensures var ms := Markers(lines);
      var ds := Datas(Chunks(lines, hash));
      && |ds| == |ms|
      && forall k :: 0 <= k < |ds| ==> ds[k] == JoinLines(lines[ms[k]..PieceEnd(ms, k, |lines|)])
  {
    var ms := Markers(lines);
    var ds := Datas(Chunks(lines, hash));
    forall k | 0 <= k < |ds|
      ensures ds[k] == JoinLines(lines[ms[k]..PieceEnd(ms, k, |lines|)])
    {
      ChunkDataAt(lines, hash, k);
    }
  }

  /** Writing the chunks' data back out as a file and reading it again
      gives the same table: same keys, line ranges, data and digests. This
      holds for any input of line-scanner lines that starts with a marker
      line. */
  lemma ReparseSame(lines: seq<Bytes>, hash: Hasher)
    requires forall i :: 0 <= i < |lines| ==> IsLine(lines[i])
    requires |lines| > 0 && IsMarker(lines[0])
    ensures Parse(SplitLines(JoinLines(Datas(Chunks(lines, hash)))), hash) == Parse(lines, hash)
  {
    var ms := Markers(lines);
    MarkersComplete(lines);
    NoMarkerInside(lines);
    assert ms[0] == 0;
    ReparseFromFirstMarker(lines, hash);
    assert lines[0..] == lines;
  }

  /** For any input with a marker line: re-parsing the chunks' data written
      out as a file parses the input with the lines before the first marker
      line dropped. */
  lemma ReparseFromFirstMarker(lines: seq<Bytes>, hash: Hasher)
    requires forall i :: 0 <= i < |lines| ==> IsLine(lines[i])
    requires |Markers(lines)| > 0
    ensures Parse(SplitLines(JoinLines(Datas(Chunks(lines, hash)))), hash)
      == Parse(lines[Markers(lines)[0]..], hash)
  {
    var tail := lines[Markers(lines)[0]..];
    JoinChunks(lines, hash);
    assert forall i :: 0 <= i < |tail| ==> IsLine(tail[i]);
    SplitJoinLines(tail);
  }
}
