# Routing-table chunker and change detector

A model, in Dafny, of the chunk-and-diff engine of the go-watcher program
(`main.go`). The program watches a routing-table dump: a text file in
which every route entry starts with a line beginning with `Destination:`.
It does two things.

- `LoadDataTable` reads the file line by line. It cuts it into chunks,
  one per `Destination:` line, and files each chunk under its destination
  key: the second white-space separated field of that line, or
  `unknown_<line number>` when the line has no second field. Since
  `Destination:` is itself a field, a word written directly after the
  colon is glued to it: `Destination:ab cd` is filed under `cd`. Each chunk
  records its first and last line (1-based, inclusive), its lines joined
  with `"\n"`, and the SHA-256 digest of that content.
- `DetectChanges` reloads the file into a fresh table. It reports every
  key that was removed, added or kept with a different digest, and then
  replaces the stored table with the fresh one.

The model has six modules.

- `Text` (text.dfy): Go strings as byte sequences. It defines
  `strings.Join(…, "\n")` with its inverse `SplitLines`, and
  `fmt.Sprintf("%d", n)` with its inverse `ParseDecimal`.
- `Fields` (fields.dfy): `strings.Fields` on bytes. White space is every
  rune `unicode.IsSpace` accepts, recognised by its UTF-8 encoding.
- `Chunker` (chunker.dfy): the scan loop of `LoadDataTable`, written as
  the program runs it. `Step` is one loop iteration, `Run` the loop and
  `Finish` the flush after it. Beside it stands a declarative reference:
  - `Markers`: where the marker lines are;
  - `ChunkAt`: which lines each chunk spans;
  - `Index`: inserting the chunks in input order.

  `ParseMatchesReference` proves the loop and the reference agree.
- `ChunkTable` (table.dfy): what the resulting table looks like: keys,
  spans, data, digests, ordering, and which duplicate wins.
- `Store` (store.dfy): `LoadDataTable` on a receiver, the two comparison
  loops of `DetectChanges`, and `DetectChanges` as a transition of the
  stored table.
- `Scenario` (scenario.dfy): end-to-end consequences on small dumps.

`Parse` starts from an empty table. `LoadDataTable` itself writes into
the receiver's existing table without clearing it (main.go:77, 109), and
it keeps the chunks it has read even when the scanner then fails
(main.go:112). `Store.LoadDataTable` models exactly that, and proves the
result is the old table overlaid with `Parse` of the lines read.
`DetectChanges` always loads into a fresh table (main.go:130) and drops it
on error, so a failed reload leaves the stored table alone.

The program does not keep synthetic keys apart from real ones.
`Destination: unknown_3` on some later line gets the same key as a bare
`Destination:` on line 3, and the later chunk replaces the earlier one.
`ChunkTable.SyntheticKeyCanCollide` exhibits such a pair.

## Model

| member | source | states |
|---|---|---|
| Text.SplitJoinLines | main.go:73 | splitting the `"\n"`-joined lines at `"\n"` returns exactly those lines, when no line contains a newline: nothing is lost, merged or altered |
| Text.ParseDecimalOfDecimal | main.go:85 | the decimal rendering of a line number reads back as that number |
| Text.DecimalInjective | main.go:85 | different line numbers render differently |
| Fields.FieldsOfWord | main.go:81-82 | a word followed only by spaces has exactly one field, the word |
| Fields.WordAt | main.go:81 | a space-free word followed by nothing or a space is the next field at its position |
| Fields.FieldEndShift | main.go:81 | putting any bytes in front of a string moves the end of each of its fields by exactly that many bytes |
| Fields.FieldsFromShift | main.go:81 | the fields of a string after a position do not depend on what precedes the position |
| Fields.FieldsOfTwoWords | main.go:81-83 | a word, a space, a second word and a space-led rest: the first two fields are the two words |
| Chunker.Markers | main.go:70 | the marker positions are in range, are marker lines, and increase strictly |
| Chunker.MarkersComplete | main.go:70 | every line with the `Destination:` prefix is listed as a marker |
| Chunker.NoMarkerInside | main.go:70-100 | no marker line lies before the first marker, between two consecutive markers, or after the last; there are no markers iff no line has the prefix |
| Chunker.ChunksCover | main.go:65-101 | one chunk per marker line; no chunk iff no marker line; lines before the first marker belong to no chunk: no marker line precedes the first chunk, and every chunk starts at or after it |
| Chunker.ChunksEach | main.go:72-108 | each chunk starts at a marker line, holds no other marker, and carries its lines joined, their digest and its marker line's key |
| Chunker.ChunkAtLines | main.go:76 | the k-th chunk starts at the k-th marker line (1-based number: position + 1) and ends at the next marker's position or the last line |
| Chunker.ChunkNextLine | main.go:76 | a chunk ends on the line just before the next chunk starts |
| Chunker.ChunksAdjacent | main.go:89-108 | consecutive chunks are adjacent and the last ends on the last line, so the chunks tile the input from the first marker on |
| Chunker.IndexLastWins | main.go:77 | inserting chunks in order files every chunk's key, and each key holds the last chunk inserted under it |
| Chunker.IndexStep | main.go:77 | inserting one more chunk keeps, for every other key, the last chunk filed under it |
| Chunker.ChunkAtAfterAppend | main.go:65-78 | reading one more line does not change a chunk already closed, and a new marker line closes the open chunk where the flush would |
| Chunker.ChunksAfterAppend | main.go:65-78 | reading one more line keeps every closed chunk |
| Chunker.CloseMatches | main.go:104-108 | the chunk the flush closes is the reference's last chunk |
| Chunker.FinishMatches | main.go:103-110 | the flush turns the loop's table into the table of all reference chunks |
| Chunker.StepCursor | main.go:66-100 | after each line the open chunk is the one started by the last marker line, holding every line since it |
| Chunker.StepTableOnMarker | main.go:70-78 | a marker line saves the open chunk, giving the table of all chunks before the new one |
| Chunker.StepTableOnOther | main.go:94-100 | a non-marker line leaves the table unchanged |
| Chunker.RunMatchesReference | main.go:65-101 | after any number of lines the loop holds the line count, the right open chunk and the table of all earlier chunks |
| Chunker.ParseMatchesReference | main.go:65-110 | the loop and its flush build exactly the table that inserting the reference chunks in input order builds |
| ChunkTable.MarkerSpaceFree | main.go:70 | the `Destination:` prefix is one non-empty field |
| ChunkTable.MarkerQuiet | main.go:70 | no white space starts inside the `Destination:` prefix, whatever follows it |
| ChunkTable.MarkerLineFirstField | main.go:81 | the first field of any marker line is `Destination:` glued to the first word after the colon (empty when white space follows directly) |
| ChunkTable.KeyOfMarkerLine | main.go:81-86 | for every marker line: the key is the first field after the word glued to `Destination:`, or `unknown_<line number>` when there is none; so `Destination:ab cd` is filed under `cd` |
| ChunkTable.KeyOfSpacedMarker | main.go:81-86 | for every marker line whose colon is followed by white space of any kind, or by nothing: the key is the first field after the colon, or `unknown_<line number>` when there is none |
| ChunkTable.KeyOfNamedMarker | main.go:81-83 | a marker line `Destination: <key>`, optionally followed by space-led text, is filed under `<key>` |
| ChunkTable.KeyOfBareMarker | main.go:84-86 | a marker line with only spaces after the prefix is filed under `unknown_<line number>` |
| ChunkTable.SyntheticKeyInjective | main.go:85 | synthetic keys of different lines differ |
| ChunkTable.SyntheticKeyCanCollide | main.go:81-86 | a named marker whose key looks like a synthetic key shares its key with a bare marker |
| ChunkTable.ParseEmptyIff | main.go:65-110 | the table is empty iff no line has the `Destination:` prefix |
| ChunkTable.ParseLastWins | main.go:109 | every chunk's key is in the table, and a key holds the last chunk with that key in input order |
| ChunkTable.ParseEntries | main.go:72-93 | every stored chunk is filed under its own key, starts at a marker line, spans no other marker, and carries its lines joined with `"\n"` and their digest |
| ChunkTable.ParseDataIsLines | main.go:73-75 | a stored chunk's data splits back into exactly the input lines from its start to its end line |
| ChunkTable.ChunkDataIsLines | main.go:105-107 | one chunk's data splits back into the lines it spans |
| ChunkTable.ChunksOrdered | main.go:76-90 | an earlier chunk ends before a later one starts |
| ChunkTable.ParsedFrom | main.go:77 | each stored chunk is one of the reference chunks, filed under its own key |
| ChunkTable.ParseDisjoint | main.go:72-109 | chunks under different keys span disjoint line ranges |
| Text.JoinLinesAppend | main.go:73 | joining two non-empty runs of lines is joining each with one `"\n"` between them |
| Text.JoinLinesSplit | main.go:73 | joining a run cut into two non-empty parts is joining the parts with one `"\n"` between them |
| ChunkTable.JoinPieces | main.go:73 | cutting a run of lines at increasing positions, joining each piece and joining the results gives the whole run joined |
| ChunkTable.ChunkDataAt | main.go:73-76 | the k-th chunk's data is the lines from its marker line up to the next marker line, or to the end, joined |
| ChunkTable.ChunkDatas | main.go:73-108 | every chunk's data is its piece of the input between consecutive marker lines, joined |
| ChunkTable.JoinChunks | main.go:65-110 | joining all chunks' data with `"\n"`, in input order, gives the input from the first marker line on, joined: no line is lost, repeated or reordered |
| ChunkTable.ReparseSame | main.go:65-110 | for newline-free input starting with a marker line, re-parsing the chunks' data written out as a file gives the same table: same keys, line ranges, data and digests |
| ChunkTable.ReparseFromFirstMarker | main.go:65-110 | for any newline-free input with a marker line, re-parsing the chunks' data written out as a file gives the table of the input with the lines before the first marker line dropped |
| ChunkTable.ParsePreamble | main.go:94-100 | a line with no marker line at or before it is in no stored chunk |
| Store.StepOverTable | main.go:77 | one loop iteration over a pre-filled table inserts into it what it would insert into an empty one |
| Store.RunOverTable | main.go:65-101 | the loop over a pre-filled table overlays it with what the loop builds from an empty one |
| Store.LoadDataTable | main.go:49-118 | succeeds iff the file opened and scanned without error; an unopenable file fails with the open error and leaves the table unchanged; a scan error fails with the scan error; otherwise the table becomes the old table overlaid with the parse of the lines read, even on a scan error |
| Store.LoadIntoFreshTable | main.go:130-131 | loading into a fresh table gives exactly the parse of the lines read |
| Store.CompareChunks | main.go:141-158 | reports each key at most once; a key is reported iff it was removed, added, or kept with a different digest; removed and modified keys come before added ones |
| Store.DetectChanges | main.go:121-166 | a failed reload returns the open or scan error that caused it, no keys, and the stored table unchanged; a successful one stores exactly the fresh parse and reports each changed key once |
| Store.ListsSet | main.go:135-158 | a duplicate-free list of the changed keys has as many entries as there are changed keys |
| Store.ChangedKeysEmptyIff | main.go:142-158 | no key changed iff both tables have the same keys with the same digests |
| Store.ChangedKeysOfSelf | main.go:142-158 | a table compared with itself has no changed keys |
| Store.ChangedKeysSymmetric | main.go:142-158 | swapping the two tables does not change which keys are reported |
| Store.MovedChunkUnchanged | main.go:147 | a key whose chunk has the same content in two dumps is not reported, whatever lines it spans in each: line numbers are never compared |
| Store.ReloadUnchanged | main.go:121-166 | reloading an unchanged file right after a successful reload reports nothing |
| Scenario.MarkersOfTwoRoutes | main.go:70 | a dump of two two-line routes has marker lines at positions 0 and 2 |
| Scenario.ParseTwoRoutes | main.go:65-110 | a dump of two two-line routes gives one chunk per route, with lines 1-2 and 3-4 |
| Scenario.EditOneRoute | main.go:142-151 | editing one route's body so that its digest changes reports exactly that route |
| Scenario.ReplaceOneRoute | main.go:142-158 | removing one route and adding another reports exactly those two |

## Left out

- File opening and `bufio.Scanner` (main.go:53-59, 112-114) are replaced by
  a `Source`: the file did not open, or the scanner delivered some lines
  and then stopped cleanly or on an error. Carriage-return stripping and
  the scanner's token-size limit belong to that library and are not
  modelled. A scanned line is assumed free of `"\n"`, as a line scanner
  guarantees. `Text.SplitJoinLines`, `ChunkTable.ParseDataIsLines`,
  `ChunkTable.ChunkDataIsLines` and `ChunkTable.ReparseSame` depend on
  this.
- `hashChunk` (main.go:43-46), SHA-256 with hex encoding, is the parameter
  `hash` of type `Bytes -> string`. Nothing is assumed about it.
  `Scenario.EditOneRoute` asks only that the edited route's two digests
  differ.
- `sync.RWMutex` locking (main.go:31, 50-51, 122-127, 138-139, 161-163) is
  left out. Only the sequential effect is modelled: copy the stored table,
  build a fresh one, swap it in.
- `FileWatcher`, `NewFileWatcher`, `Start`, `watch`, `handleChange` and
  `Close` (main.go:169-260) are left out. They are event, goroutine and
  timer plumbing.
- `main()` (main.go:262-347) is left out: flag parsing, console output and
  the ten-entry display cap.
- The "Loaded N route chunks" message (main.go:116) is left out, because it
  is console output.
- main_test.go holds only benchmarks, so there is nothing in it to model.
- ChunkTable.ReparseSame: requires the input to start with a marker line.
  For other inputs, `ChunkTable.ReparseFromFirstMarker` gives the table of
  the lines from the first marker on. Its line numbers and `unknown_<n>` keys
  are shifted by the number of lines before the first marker, so the two
  tables differ.
- Store.LoadDataTable: line numbers are unbounded `nat`s rather than
  `int64`. A file with more than 2^63 - 1 lines cannot exist in practice.
- Store.CompareChunks: Go's map iteration order is unspecified, so each
  loop picks its keys in an arbitrary order. The contract therefore states
  which keys are reported and which group comes first, not one fixed order.
