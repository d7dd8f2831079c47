/**
 End-to-end runs of reload-and-compare on small two-route dumps.
 */
module Scenario {
  import opened Text
  import opened Fields
  import opened Chunker
  import opened ChunkTable
  import opened Store

  /** The marker line "Destination: <key>". */
  function RouteLine(key: Bytes): Bytes {
    Marker + [Space] + key
  }

  /** A usable destination: non-empty, no white space. */
  predicate IsKey(key: Bytes) {
    |key| > 0 && SpaceFree(key)
  }

  /** The chunk a two-line route at lines `start` and `start + 1` gets. */
  function RouteChunk(key: Bytes, body: Bytes, start: nat, hash: Hasher): Chunk {
    var data := RouteLine(key) + [NewLine] + body;
    Chunk(start, start + 1, hash(data), data, key)
  }

  lemma JoinTwo(first: Bytes, second: Bytes)
    ensures JoinLines([first, second]) == first + [NewLine] + second
  {
    assert [first, second][..1] == [first];
  }

  lemma MarkersOfTwoRoutes(a: Bytes, x: Bytes, b: Bytes, y: Bytes)
    requires IsKey(a) && IsKey(b)
    requires !IsMarker(x) && !IsMarker(y)
    ensures Markers([RouteLine(a), x, RouteLine(b), y]) == [0, 2]
  {
    KeyOfNamedMarker(a, [], 1);
    KeyOfNamedMarker(b, [], 3);
    assert Marker + [Space] + a + [] == RouteLine(a);
    assert Marker + [Space] + b + [] == RouteLine(b);
    var l1 := [RouteLine(a)];
    var l2 := l1 + [x];
    var l3 := l2 + [RouteLine(b)];
    var l4 := l3 + [y];
    MarkersAppend(l1);
    assert l1[..0] == [];
    MarkersAppend(l2);
    assert l2[..1] == l1;
    MarkersAppend(l3);
    assert l3[..2] == l2;
    MarkersAppend(l4);
    assert l4[..3] == l3;
    assert l4 == [RouteLine(a), x, RouteLine(b), y];
  }

  /** A dump of two two-line routes parses into one chunk per route. */
  lemma ParseTwoRoutes(a: Bytes, x: Bytes, b: Bytes, y: Bytes, hash: Hasher)
    requires IsKey(a) && IsKey(b) && a != b
    requires !IsMarker(x) && !IsMarker(y)
    ensures Parse([RouteLine(a), x, RouteLine(b), y], hash)
      == map[a := RouteChunk(a, x, 1, hash), b := RouteChunk(b, y, 3, hash)]
  {
    var lines := [RouteLine(a), x, RouteLine(b), y];
    KeyOfNamedMarker(a, [], 1);
    KeyOfNamedMarker(b, [], 3);
    assert Marker + [Space] + a + [] == RouteLine(a);
    assert Marker + [Space] + b + [] == RouteLine(b);
    MarkersOfTwoRoutes(a, x, b, y);
    ChunksAt(lines, 0, hash);
    ChunksAt(lines, 1, hash);
    assert lines[0..2] == [RouteLine(a), x];
    assert lines[2..4] == [RouteLine(b), y];
    JoinTwo(RouteLine(a), x);
    JoinTwo(RouteLine(b), y);
    var cs := Chunks(lines, hash);
    assert cs[0] == RouteChunk(a, x, 1, hash);
    assert cs[1] == RouteChunk(b, y, 3, hash);
    assert |cs| == 2;
    assert cs[..1] == [cs[0]];
    assert cs[..1][..0] == [];
    IndexSnoc(cs);
    IndexSnoc(cs[..1]);
    assert Index(cs) == map[a := cs[0], b := cs[1]];
    ParseMatchesReference(lines, hash);
  }

  /** Editing the body of route B, and nothing else, reports exactly B,
      as long as the edit changes B's digest. */
  lemma EditOneRoute(a: Bytes, x: Bytes, b: Bytes, y: Bytes, y': Bytes, hash: Hasher)
    requires IsKey(a) && IsKey(b) && a != b
    requires !IsMarker(x) && !IsMarker(y) && !IsMarker(y')
    requires hash(RouteLine(b) + [NewLine] + y) != hash(RouteLine(b) + [NewLine] + y')
    ensures ChangedKeys(Parse([RouteLine(a), x, RouteLine(b), y], hash),
                        Parse([RouteLine(a), x, RouteLine(b), y'], hash)) == {b}
  {
    ParseTwoRoutes(a, x, b, y, hash);
    ParseTwoRoutes(a, x, b, y', hash);
  }

  /** Removing route A and adding route C reports exactly A and C. */
  lemma ReplaceOneRoute(a: Bytes, x: Bytes, b: Bytes, y: Bytes, c: Bytes, z: Bytes, hash: Hasher)
    requires IsKey(a) && IsKey(b) && IsKey(c) && a != b && b != c && a != c
    requires !IsMarker(x) && !IsMarker(y) && !IsMarker(z)
    ensures ChangedKeys(Parse([RouteLine(a), x, RouteLine(b), y], hash),
                        Parse([RouteLine(b), y, RouteLine(c), z], hash)) == {a, c}
  {
    ParseTwoRoutes(a, x, b, y, hash);
    ParseTwoRoutes(b, y, c, z, hash);
  }
}
