/**
 Byte strings as the Go program sees them: a Go `string` is an arbitrary
 sequence of bytes, and `[]byte(s)` is the identity on those bytes.
 This module holds the two string helpers the chunker relies on:
 joining lines with "\n" (`strings.Join`) and rendering a line number
 in decimal (`fmt.Sprintf("%d", n)`), each with its inverse.
 */
module Text {

  newtype Byte = b: int | 0 <= b < 256

  type Bytes = seq<Byte>

  /** ASCII line feed, the separator `strings.Join(chunkLines, "\n")` inserts. */
  const NewLine: Byte := 10

  /** ASCII space. */
  const Space: Byte := 32

  /* ---------------------------------------------------------------------
     Joining and splitting lines
     --------------------------------------------------------------------- */

  /** `strings.Join(lines, "\n")`: no separator before the first line and
      none after the last one. */
  function JoinLines(lines: seq<Bytes>): Bytes
    decreases |lines|
  {
    if |lines| == 0 then []
    else if |lines| == 1 then lines[0]
    else JoinLines(lines[..|lines| - 1]) + [NewLine] + lines[|lines| - 1]
  }

  /** Position of the last occurrence of `x` in `b`. */
  function LastIndex(b: Bytes, x: Byte): (p: nat)
    requires x in b
    ensures p < |b| && b[p] == x
    ensures forall j :: p < j < |b| ==> b[j] != x
    decreases |b|
  {
    if b[|b| - 1] == x then |b| - 1 else LastIndex(b[..|b| - 1], x)
  }

  /** Cutting a byte string at every "\n": the inverse of `JoinLines`. */
  function SplitLines(b: Bytes): (r: seq<Bytes>)
    ensures |r| >= 1
    decreases |b|
  {
    if NewLine !in b then [b]
    else
      var p := LastIndex(b, NewLine);
      SplitLines(b[..p]) + [b[p + 1..]]
  }

  /** A line as a line scanner delivers it: it never contains "\n". */
  predicate IsLine(line: Bytes) {
    NewLine !in line
  }

  /** Joining at least one newline-free line and splitting the result at
      "\n" gives the lines back unchanged: no line is lost, merged, split
      or altered by the join. */
  lemma {:induction false} SplitJoinLines(lines: seq<Bytes>)
    requires |lines| >= 1
    requires forall i :: 0 <= i < |lines| ==> IsLine(lines[i])
    ensures SplitLines(JoinLines(lines)) == lines
    decreases |lines|
  {
    if |lines| == 1 {
      assert JoinLines(lines) == lines[0];
    } else {
      var init := lines[..|lines| - 1];
      var last := lines[|lines| - 1];
      var j := JoinLines(init);
      var b := j + [NewLine] + last;
      assert JoinLines(lines) == b;
      assert b[|j|] == NewLine;
      var p := LastIndex(b, NewLine);
      assert p == |j|;
      assert b[..p] == j;
      assert b[p + 1..] == last;
      SplitJoinLines(init);
      assert lines == init + [last];
    }
  }

  /** Joining two non-empty runs of lines is joining each and putting one
      "\n" between them. */
  lemma {:induction false} JoinLinesAppend(a: seq<Bytes>, b: seq<Bytes>)
    requires |a| > 0 && |b| > 0
    ensures JoinLines(a + b) == JoinLines(a) + [NewLine] + JoinLines(b)
    decreases |b|
  {
    var ab := a + b;
    var last := b[|b| - 1];
    if |b| == 1 {
      assert ab[..|ab| - 1] == a;
    } else {
      var init := b[..|b| - 1];
      assert ab[..|ab| - 1] == a + init;
      JoinLinesAppend(a, init);
    }
  }

  /** Joining a run of lines cut at `m` into two non-empty parts. */
  lemma JoinLinesSplit(lines: seq<Bytes>, a: nat, m: nat, e: nat)
    requires a < m < e <= |lines|
    ensures JoinLines(lines[a..e]) == JoinLines(lines[a..m]) + [NewLine] + JoinLines(lines[m..e])
  {
    assert lines[a..e] == lines[a..m] + lines[m..e];
    JoinLinesAppend(lines[a..m], lines[m..e]);
  }

  /* ---------------------------------------------------------------------
     Decimal rendering of line numbers
     --------------------------------------------------------------------- */

  predicate IsDigit(b: Byte) {
    48 <= b <= 57
  }

  /** `fmt.Sprintf("%d", n)` for a non-negative `n`: most significant digit
      first, no leading zeros, no sign. */
  function Decimal(n: nat): (r: Bytes)
    ensures |r| >= 1
    ensures forall i :: 0 <= i < |r| ==> IsDigit(r[i])
    ensures n > 0 ==> r[0] != 48
    decreases n
  {
    if n < 10 then [(48 + n) as Byte]
    else Decimal(n / 10) + [(48 + n % 10) as Byte]
  }

  /** Reads a string of decimal digits back as a number. */
  function ParseDecimal(b: Bytes): nat
    requires forall i :: 0 <= i < |b| ==> IsDigit(b[i])
    decreases |b|
  {
    if b == [] then 0
    else
      assert IsDigit(b[|b| - 1]);
      ParseDecimal(b[..|b| - 1]) * 10 + (b[|b| - 1] as int - 48)
  }

  /** Reading the rendering of a number gives the number back. */
  lemma {:induction false} ParseDecimalOfDecimal(n: nat)
    ensures ParseDecimal(Decimal(n)) == n
    decreases n
  {
    var r := Decimal(n);
    if n >= 10 {
      ParseDecimalOfDecimal(n / 10);
      assert r[..|r| - 1] == Decimal(n / 10);
    }
  }

  /** Distinct numbers have distinct renderings. */
  lemma DecimalInjective(a: nat, b: nat)
    requires Decimal(a) == Decimal(b)
    ensures a == b
  {
    ParseDecimalOfDecimal(a);
    ParseDecimalOfDecimal(b);
  }
}
