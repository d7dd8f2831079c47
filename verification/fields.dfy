/**
 Go's `strings.Fields` on a byte string: the maximal runs of bytes that
 contain no white space, where white space is what `unicode.IsSpace`
 accepts. For an all-ASCII string Go tests the six ASCII spaces; otherwise
 it decodes UTF-8 and tests each rune. Every white-space rune's UTF-8
 encoding starts with a byte that is never a continuation byte, so testing
 the encodings at each byte position, as done here, cuts the string at the
 same places as the rune-by-rune scan.
 */
module Fields {
  import opened Text

  /** Number of bytes of the white-space rune that starts at position `i`
      of `s`, or 0 if none does. The runes are U+0009..U+000D, U+0020,
      U+0085, U+00A0, U+1680, U+2000..U+200A, U+2028, U+2029, U+202F,
      U+205F and U+3000. */
  function SpaceWidth(s: Bytes, i: nat): (w: nat)
    requires i < |s|
    ensures w <= |s| - i
  {
    var b := s[i];
    if 9 <= b <= 13 || b == 32 then 1
    else if b == 0xC2 && i + 1 < |s| && (s[i + 1] == 0x85 || s[i + 1] == 0xA0) then 2
    else if b == 0xE1 && i + 2 < |s| && s[i + 1] == 0x9A && s[i + 2] == 0x80 then 3
    else if b == 0xE2 && i + 2 < |s| && s[i + 1] == 0x80
            && (0x80 <= s[i + 2] <= 0x8A || s[i + 2] == 0xA8 || s[i + 2] == 0xA9 || s[i + 2] == 0xAF) then 3
    else if b == 0xE2 && i + 2 < |s| && s[i + 1] == 0x81 && s[i + 2] == 0x9F then 3
    else if b == 0xE3 && i + 2 < |s| && s[i + 1] == 0x80 && s[i + 2] == 0x80 then 3
    else 0
  }

  /** No white-space rune starts anywhere in `f`. */
  predicate SpaceFree(f: Bytes) {
    forall i :: 0 <= i < |f| ==> SpaceWidth(f, i) == 0
  }

  /** End of the field that starts at `i`: the first position at or after
      `i` where white space starts, or the end of `s`. */
  function FieldEnd(s: Bytes, i: nat): (j: nat)
    requires i <= |s|
    ensures i <= j <= |s|
    ensures forall t :: i <= t < j ==> SpaceWidth(s, t) == 0
    ensures j < |s| ==> SpaceWidth(s, j) > 0
    decreases |s| - i
  {
    if i == |s| || SpaceWidth(s, i) > 0 then i else FieldEnd(s, i + 1)
  }

  /** The fields of `s` from position `i` on. */
  function FieldsFrom(s: Bytes, i: nat): (r: seq<Bytes>)
    requires i <= |s|
    ensures forall k :: 0 <= k < |r| ==> |r[k]| > 0 && SpaceFree(r[k])
    decreases |s| - i
  {
    if i == |s| then []
    else if SpaceWidth(s, i) > 0 then FieldsFrom(s, i + SpaceWidth(s, i))
    else
      var j := FieldEnd(s, i);
      SliceSpaceFree(s, i, j);
      [s[i..j]] + FieldsFrom(s, j)
  }

  /** `strings.Fields(s)`. */
  function Fields(s: Bytes): seq<Bytes> {
    FieldsFrom(s, 0)
  }

  /* ---------------------------------------------------------------------
     Helper facts about where white space can start
     --------------------------------------------------------------------- */

  /** A run with no white space in `s` has none when cut out on its own:
      cutting can only shorten the encodings that start inside it. */
  lemma SliceSpaceFree(s: Bytes, i: nat, j: nat)
    requires i <= j <= |s|
    requires forall t :: i <= t < j ==> SpaceWidth(s, t) == 0
    ensures SpaceFree(s[i..j])
  {
    var f := s[i..j];
    forall t | 0 <= t < |f|
      ensures SpaceWidth(f, t) == 0
    {
      assert SpaceWidth(s, i + t) == 0;
    }
  }

  /** What follows a string never changes whether white space starts at a
      position of it, provided what follows starts with an ASCII byte (which
      cannot continue a multi-byte encoding). */
  lemma SpaceWidthOfPrefix(p: Bytes, t: Bytes, i: nat)
    requires i < |p|
    requires t == [] || t[0] < 0x80
    ensures SpaceWidth(p + t, i) == SpaceWidth(p, i)
  {
  }

  /** White space at a position depends only on the bytes from there on. */
  lemma SpaceWidthOfSuffix(a: Bytes, b: Bytes, i: nat)
    requires i < |b|
    ensures SpaceWidth(a + b, |a| + i) == SpaceWidth(b, i)
  {
    assert (a + b)[|a| + i..] == b[i..];
  }

  /** The field starting at `i` ends exactly at `j` when no white space
      starts in between and white space (or the end of `s`) is at `j`. */
  lemma FieldEndIs(s: Bytes, i: nat, j: nat)
    requires i <= j <= |s|
    requires forall t :: i <= t < j ==> SpaceWidth(s, t) == 0
    requires j < |s| ==> SpaceWidth(s, j) > 0
    ensures FieldEnd(s, i) == j
  {
  }

  /** Only ASCII spaces from `i` on: no more fields. */
  lemma {:induction false} FieldsFromSpaces(s: Bytes, i: nat)
    requires i <= |s|
    requires forall t :: i <= t < |s| ==> s[t] == Space
    ensures FieldsFrom(s, i) == []
    decreases |s| - i
  {
    if i < |s| {
      assert SpaceWidth(s, i) == 1;
      FieldsFromSpaces(s, i + 1);
    }
  }

  /** Prefixing `b` with `a` moves the end of every field of `b` by `|a|`. */
  lemma {:induction false} FieldEndShift(a: Bytes, b: Bytes, i: nat)
    requires i <= |b|
    ensures FieldEnd(a + b, |a| + i) == |a| + FieldEnd(b, i)
    decreases |b| - i
  {
    if i < |b| {
      SpaceWidthOfSuffix(a, b, i);
      if SpaceWidth(b, i) == 0 {
        FieldEndShift(a, b, i + 1);
      }
    }
  }

  lemma SliceShift(a: Bytes, b: Bytes, i: nat, j: nat)
    requires i <= j <= |b|
    ensures (a + b)[|a| + i..|a| + j] == b[i..j]
  {
  }

  /** The fields of `a + b` from a position inside `b` on are the fields of
      `b` from there on: what precedes a position never matters to the
      fields after it. */
  lemma {:induction false} FieldsFromShift(a: Bytes, b: Bytes, i: nat)
    requires i <= |b|
    ensures FieldsFrom(a + b, |a| + i) == FieldsFrom(b, i)
    decreases |b| - i
  {
    if i < |b| {
      SpaceWidthOfSuffix(a, b, i);
      if SpaceWidth(b, i) > 0 {
        FieldsFromShift(a, b, i + SpaceWidth(b, i));
      } else {
        var j := FieldEnd(b, i);
        FieldEndShift(a, b, i);
        SliceShift(a, b, i, j);
        FieldsFromShift(a, b, j);
      }
    }
  }

  /* ---------------------------------------------------------------------
     The two shapes of marker line the chunker meets
     --------------------------------------------------------------------- */

  /** A word followed by nothing but ASCII spaces has exactly one field:
      the word itself. */
  lemma FieldsOfWord(p: Bytes, t: Bytes)
    requires |p| > 0 && SpaceFree(p)
    requires forall i :: 0 <= i < |t| ==> t[i] == Space
    ensures Fields(p + t) == [p]
  {
    var s := p + t;
    forall i | 0 <= i < |p|
      ensures SpaceWidth(s, i) == 0
    {
      SpaceWidthOfPrefix(p, t, i);
    }
    if |t| > 0 {
      assert s[|p|] == Space;
    }
    FieldEndIs(s, 0, |p|);
    forall i | |p| <= i < |s|
      ensures s[i] == Space
    {
      assert s[i] == t[i - |p|];
    }
    FieldsFromSpaces(s, |p|);
    assert s[0..|p|] == p;
  }

  /** A word that starts at `|a|` and is followed by nothing or by an
      ASCII space is the next field from there. */
  lemma WordAt(a: Bytes, w: Bytes, t: Bytes)
    requires |w| > 0 && SpaceFree(w)
    requires t == [] || t[0] == Space
    ensures var s := a + w + t;
      FieldsFrom(s, |a|) == [w] + FieldsFrom(s, |a| + |w|)
  {
    var s := a + w + t;
    var n := |a| + |w|;
    assert s == a + (w + t);
    forall i | |a| <= i < n
      ensures SpaceWidth(s, i) == 0
    {
      SpaceWidthOfSuffix(a, w + t, i - |a|);
      SpaceWidthOfPrefix(w, t, i - |a|);
    }
    if n < |s| {
      assert s[n] == Space;
    }
    FieldEndIs(s, |a|, n);
    assert s[|a|..n] == w;
  }

  /** A word, one ASCII space, a second word, then either nothing or
      anything that starts with an ASCII space: the first two fields are
      the two words. */
  lemma FieldsOfTwoWords(p: Bytes, k: Bytes, t: Bytes)
    requires |p| > 0 && SpaceFree(p)
    requires |k| > 0 && SpaceFree(k)
    requires t == [] || t[0] == Space
    ensures var f := Fields(p + [Space] + k + t);
      |f| >= 2 && f[0] == p && f[1] == k
  {
    var s := p + [Space] + k + t;
    var a := p + [Space];
    assert s == [] + p + ([Space] + k + t);
    WordAt([], p, [Space] + k + t);
    assert s[|p|] == Space;
    assert FieldsFrom(s, |p|) == FieldsFrom(s, |a|);
    assert s == a + k + t;
    WordAt(a, k, t);
  }
}
