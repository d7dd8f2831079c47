/**
 The routing-table store of main.go: `LoadDataTable` filling a table from
 the file, and `DetectChanges` reloading into a fresh table, comparing it
 with the stored one and swapping it in.

 Opening and reading the file is replaced by a `Source`, the outcome of
 that reading: the file could not be opened, or the scanner delivered some
 lines and then either reached the end of the file or failed.
 */
module Store {
  import opened Text
  import opened Chunker
  import opened ChunkTable

  datatype ReadError =
    | OpenFailed   // os.Open returned an error
    | ScanFailed   // scanner.Err() returned an error

  /** What reading the file delivers: nothing, or the lines scanned before
      the scanner stopped, and whether it stopped on an error. */
  datatype Source =
    | Unopenable
    | Scanned(lines: seq<Bytes>, failed: bool)

  datatype Outcome = Ok | Fail(error: ReadError)

  /* ---------------------------------------------------------------------
     LoadDataTable
     --------------------------------------------------------------------- */

  /** Running the scan loop over a table that already holds chunks leaves
      those chunks in place except where the dump files a chunk under the
      same key. */
  lemma {:induction false} RunOverTable(chunks: Table, lines: seq<Bytes>, hash: Hasher)
    ensures var r := Run(Start, lines, hash);
      Run(Scan(0, Preamble, chunks), lines, hash) == Scan(r.lineNum, r.cursor, chunks + r.chunks)
    decreases |lines|
  {
    if lines != [] {
      var init := lines[..|lines| - 1];
      RunOverTable(chunks, init, hash);
      StepOverTable(chunks, Run(Start, init, hash), lines[|lines| - 1], hash);
    }
  }

  /** One iteration of the scan loop over a table that already holds
      `chunks`. */
  lemma StepOverTable(chunks: Table, st: Scan, line: Bytes, hash: Hasher)
    ensures var r := Step(st, line, hash);
      Step(Scan(st.lineNum, st.cursor, chunks + st.chunks), line, hash)
        == Scan(r.lineNum, r.cursor, chunks + r.chunks)
  {
    if IsMarker(line) && st.cursor.InChunk? && |st.cursor.lines| > 0 {
      var c := Close(st.cursor, st.lineNum, hash);
      assert (chunks + st.chunks)[c.destination := c] == chunks + st.chunks[c.destination := c];
    }
  }

  /** `LoadDataTable` on a receiver whose table is `chunks`: the new table
      and the error it returns. It writes into the existing table without
      clearing it, and it saves the chunks it has read even when the
      scanner then reports an error. */
  function LoadDataTable(chunks: Table, src: Source, hash: Hasher): (r: (Table, Outcome))
    ensures r.1 == Ok <==> src.Scanned? && !src.failed
    ensures src.Unopenable? ==> r.0 == chunks && r.1 == Fail(OpenFailed)
    ensures src.Scanned? && src.failed ==> r.1 == Fail(ScanFailed)
    ensures src.Scanned? ==> r.0 == chunks + Parse(src.lines, hash)
  {
    match src
    case Unopenable => (chunks, Fail(OpenFailed))
    case Scanned(lines, failed) =>
      RunOverTable(chunks, lines, hash);
      var st := Run(Scan(0, Preamble, chunks), lines, hash);
      (Finish(st, hash), if failed then Fail(ScanFailed) else Ok)
  }

  /** A receiver with an empty table, as `NewDataTable` makes it, ends up
      with exactly the chunk table of the lines read. */
  lemma LoadIntoFreshTable(src: Source, hash: Hasher)
    requires src.Scanned?
    ensures LoadDataTable(map[], src, hash).0 == Parse(src.lines, hash)
  {
    assert map[] + Parse(src.lines, hash) == Parse(src.lines, hash);
  }

  /* ---------------------------------------------------------------------
     The comparison
     --------------------------------------------------------------------- */

  /** `key` was removed, added, or kept with a different digest. */
  predicate Changed(oldChunks: Table, newChunks: Table, key: Bytes) {
    || (key in oldChunks && key !in newChunks)
    || (key !in oldChunks && key in newChunks)
    || (key in oldChunks && key in newChunks && oldChunks[key].hash != newChunks[key].hash)
  }

  /** The keys that changed between two tables. */
  function ChangedKeys(oldChunks: Table, newChunks: Table): set<Bytes> {
    set key | key in oldChunks.Keys + newChunks.Keys && Changed(oldChunks, newChunks, key)
  }

  predicate NoDuplicates(keys: seq<Bytes>) {
    forall i, j :: 0 <= i < j < |keys| ==> keys[i] != keys[j]
  }

  /** The two comparison loops of `DetectChanges`: first over the old
      table's keys (removed or modified), then over the new table's keys
      (added). Map iteration order is unspecified in Go; here each loop
      takes its keys in an arbitrary order. */
  method CompareChunks(oldChunks: Table, newChunks: Table) returns (changed: seq<Bytes>)
    ensures NoDuplicates(changed)
    ensures forall key :: key in changed <==>
      || (key in oldChunks && key !in newChunks)
      || (key !in oldChunks && key in newChunks)
      || (key in oldChunks && key in newChunks && oldChunks[key].hash != newChunks[key].hash)
    ensures forall i, j :: 0 <= i < j < |changed| && changed[j] in oldChunks ==> changed[i] in oldChunks
  {
    changed := [];
    var todo := oldChunks.Keys;
    while todo != {}
      invariant todo <= oldChunks.Keys
      invariant NoDuplicates(changed)
      invariant forall i :: 0 <= i < |changed| ==> changed[i] in oldChunks
      invariant forall key :: key in changed <==>
        key in oldChunks && key !in todo && Changed(oldChunks, newChunks, key)
      decreases |todo|
    {
      var dest :| dest in todo;
      todo := todo - {dest};
      if dest !in newChunks {
        changed := changed + [dest];
      } else if newChunks[dest].hash != oldChunks[dest].hash {
        changed := changed + [dest];
      }
    }
    var p := |changed|;
    todo := newChunks.Keys;
    while todo != {}
      invariant todo <= newChunks.Keys
      invariant p <= |changed|
      invariant NoDuplicates(changed)
      invariant forall i :: 0 <= i < p ==> changed[i] in oldChunks
      invariant forall i :: p <= i < |changed| ==> changed[i] !in oldChunks
      invariant forall key :: key in changed <==>
        (key in oldChunks && Changed(oldChunks, newChunks, key))
        || (key !in oldChunks && key in newChunks && key !in todo)
      decreases |todo|
    {
      var dest :| dest in todo;
      todo := todo - {dest};
      if dest !in oldChunks {
        changed := changed + [dest];
      }
    }
  }

  /* ---------------------------------------------------------------------
     DetectChanges
     --------------------------------------------------------------------- */

  /** `DetectChanges` on a receiver holding `stored`: reloads the file into
      a fresh table, reports the changed keys and swaps the fresh table in.
      Returns the changed keys, the error, and the table the receiver holds
      afterwards. */
  method DetectChanges(stored: Table, src: Source, hash: Hasher)
    returns (changed: seq<Bytes>, result: Outcome, stored': Table)
    ensures result.Fail? <==> !(src.Scanned? && !src.failed)
    ensures result.Fail? ==> stored' == stored && changed == []
    ensures src.Unopenable? ==> result == Fail(OpenFailed)
    ensures src.Scanned? && src.failed ==> result == Fail(ScanFailed)
    ensures result.Ok? ==> stored' == Parse(src.lines, hash)
    ensures result.Ok? ==> NoDuplicates(changed)
    ensures result.Ok? ==> forall key :: key in changed <==> key in ChangedKeys(stored, stored')
    ensures result.Ok? ==> |changed| == |ChangedKeys(stored, stored')|
  {
    var (temp, err) := LoadDataTable(map[], src, hash);
    if err.Fail? {
      return [], err, stored;
    }
    LoadIntoFreshTable(src, hash);
    changed := CompareChunks(stored, temp);
    ListsSet(changed, ChangedKeys(stored, temp));
    return changed, Ok, temp;
  }

  /** A list without duplicates whose members are those of a set is as
      long as the set is large. */
  lemma {:induction false} ListsSet(keys: seq<Bytes>, s: set<Bytes>)
    requires NoDuplicates(keys)
    requires forall key :: key in keys <==> key in s
    ensures |keys| == |s|
    decreases |keys|
  {
    if keys != [] {
      var last := keys[|keys| - 1];
      var init := keys[..|keys| - 1];
      forall key
        ensures key in init <==> key in s - {last}
      {
        if key in init {
          var i :| 0 <= i < |init| && init[i] == key;
          assert keys[i] == key;
        }
      }
      ListsSet(init, s - {last});
    }
  }

  /* ---------------------------------------------------------------------
     Properties of the comparison
     --------------------------------------------------------------------- */

  /** No key changes between two tables exactly when they have the same
      keys and every key has the same digest in both. */
  lemma ChangedKeysEmptyIff(oldChunks: Table, newChunks: Table)
    ensures ChangedKeys(oldChunks, newChunks) == {} <==>
      && oldChunks.Keys == newChunks.Keys
      && forall key :: key in oldChunks ==> oldChunks[key].hash == newChunks[key].hash
  {
    if ChangedKeys(oldChunks, newChunks) == {} {
      forall key | key in oldChunks.Keys + newChunks.Keys
        ensures !Changed(oldChunks, newChunks, key)
      {
        assert key !in ChangedKeys(oldChunks, newChunks);
      }
    }
  }

  /** A table compared with itself has no changed keys. */
  lemma ChangedKeysOfSelf(chunks: Table)
    ensures ChangedKeys(chunks, chunks) == {}
  {
    ChangedKeysEmptyIff(chunks, chunks);
  }

  /** Swapping the two tables changes the role of "added" and "removed"
      but not the set of changed keys. */
  lemma ChangedKeysSymmetric(a: Table, b: Table)
    ensures ChangedKeys(a, b) == ChangedKeys(b, a)
  {
  }

  /** A route whose content is the same in two dumps is not reported, even
      when it moved to other lines: the chunks' line numbers are never
      compared, and equal data has equal digests. */
  lemma MovedChunkUnchanged(before: seq<Bytes>, after: seq<Bytes>, hash: Hasher, key: Bytes)
    requires key in Parse(before, hash) && key in Parse(after, hash)
    requires Parse(before, hash)[key].data == Parse(after, hash)[key].data
    ensures key !in ChangedKeys(Parse(before, hash), Parse(after, hash))
  {
    ParseEntries(before, hash);
    ParseEntries(after, hash);
  }

  /** Reloading a file whose content has not changed since the last
      successful reload reports no changes. */
  method ReloadUnchanged(stored: Table, lines: seq<Bytes>, hash: Hasher)
    returns (first: seq<Bytes>, second: seq<Bytes>)
    ensures second == []
  {
    var r1, s1, r2, s2;
    first, r1, s1 := DetectChanges(stored, Scanned(lines, false), hash);
    second, r2, s2 := DetectChanges(s1, Scanned(lines, false), hash);
    ChangedKeysOfSelf(s1);
    assert s2 == s1;
  }
}
