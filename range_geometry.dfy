/** Rectangular cell extents: the intersection test used to match an edit
    against bound diagrams, and the parser of A1 notation (`B2`, `B2:C5`). */
module RangeGeometry {
  import opened Wrappers
  import opened Numerals

  /** `[startRow, startCol, endRow, endCol]`, 1-based and inclusive. */
  datatype Extent = Extent(startRow: int, startCol: int, endRow: int, endCol: int)

  predicate WellFormed(e: Extent)
  {
    e.startRow <= e.endRow && e.startCol <= e.endCol
  }

  /** `rangesIntersect_`: false as soon as one extent ends before the other
      starts on either axis. */
  predicate RangesIntersect(e1: Extent, e2: Extent)
  {
    if e1.endRow < e2.startRow then false
    else if e2.endRow < e1.startRow then false
    else if e1.endCol < e2.startCol then false
    else if e2.endCol < e1.startCol then false
    else true
  }

  ghost predicate Covers(e: Extent, row: int, col: int)
  {
    e.startRow <= row <= e.endRow && e.startCol <= col <= e.endCol
  }

  /** For well-formed extents the test is exact: it holds iff some cell lies in
      both. Touching edges share their boundary cells. */
  lemma IntersectIffSharedCell(e1: Extent, e2: Extent)
    requires WellFormed(e1) && WellFormed(e2)
    ensures RangesIntersect(e1, e2) <==> exists row, col :: Covers(e1, row, col) && Covers(e2, row, col)
  {
    if RangesIntersect(e1, e2) {
      var row := if e1.startRow < e2.startRow then e2.startRow else e1.startRow;
      var col := if e1.startCol < e2.startCol then e2.startCol else e1.startCol;
      assert Covers(e1, row, col) && Covers(e2, row, col);
    }
  }

  lemma IntersectSymmetric(e1: Extent, e2: Extent)
    ensures RangesIntersect(e1, e2) == RangesIntersect(e2, e1)
  {
  }

  lemma IntersectReflexive(e: Extent)
    requires WellFormed(e)
    ensures RangesIntersect(e, e)
  {
  }

  predicate IsUpper(c: char)
  {
    'A' <= c <= 'Z'
  }

  predicate AllUpper(s: string)
  {
    forall i :: 0 <= i < |s| ==> IsUpper(s[i])
  }

  /** `colToNum`: column letters read as bijective base 26, `A` = 1 ... `Z` = 26, `AA` = 27. */
  function ColumnNumber(s: string): nat
    requires AllUpper(s)
  {
    if s == [] then 0 else 26 * ColumnNumber(s[..|s| - 1]) + (s[|s| - 1] as int - 64)
  }

  /** The letters of column `n` (the empty string for 0). */
  function ColumnLetters(n: nat): (r: string)
    ensures AllUpper(r) && (r == [] <==> n == 0)
  {
    if n == 0 then [] else ColumnLetters((n - 1) / 26) + [(65 + (n - 1) % 26) as char]
  }

  lemma {:induction false} ColumnRoundTrip(n: nat)
    ensures ColumnNumber(ColumnLetters(n)) == n
  {
    if n > 0 {
      var s := ColumnLetters(n);
      assert s[..|s| - 1] == ColumnLetters((n - 1) / 26);
      ColumnRoundTrip((n - 1) / 26);
    }
  }

  lemma {:induction false} LettersRoundTrip(s: string)
    requires AllUpper(s)
    ensures ColumnLetters(ColumnNumber(s)) == s
  {
    if s != [] {
      var p := s[..|s| - 1];
      var d := s[|s| - 1] as int - 64;
      LettersRoundTrip(p);
      var n := ColumnNumber(s);
      assert n == 26 * ColumnNumber(p) + d && 1 <= d <= 26;
      assert (n - 1) / 26 == ColumnNumber(p) && (n - 1) % 26 == d - 1;
      assert s == p + [s[|s| - 1]];
    }
  }

  /** Column letters name a column: a non-empty word of capitals has a number of at least 1. */
  lemma {:induction false} ColumnNumberPositive(s: string)
    requires AllUpper(s) && s != []
    ensures ColumnNumber(s) >= 1
  {
  }

  /** The leading capitals of `s` and the digits right after them. */
  function CellSplit(s: string): (r: (nat, nat))
    ensures r.0 <= r.1 <= |s|
    ensures AllUpper(s[..r.0]) && AllDigits(s[r.0..r.1])
    ensures r.0 < |s| ==> !IsUpper(s[r.0])
    ensures r.1 < |s| ==> !IsDigit(s[r.1])
  {
    var i := LetterPrefix(s);
    var d := DigitPrefix(s[i..]);
    assert s[i..][..d] == s[i..i + d];
    (i, i + d)
  }

  function LetterPrefix(s: string): (k: nat)
    ensures k <= |s| && AllUpper(s[..k]) && (k < |s| ==> !IsUpper(s[k]))
  {
    if s == [] || !IsUpper(s[0]) then 0
    else
      var k := LetterPrefix(s[1..]);
      assert s[..k + 1] == [s[0]] + s[1..][..k];
      k + 1
  }

  datatype A1Error = InvalidA1Notation

  /** `a1NotationToRangeExtent_`: matches `^([A-Z]+)(\d+)(?::([A-Z]+)(\d+))?$`
      and returns `[startRow, startCol, endRow, endCol]`; a single cell is both
      start and end. Anything else is `Invalid A1 notation`. */
  function ParseA1(s: string): Result<Extent, A1Error>
  {
    var cut := CellSplit(s);
    FirstCell(s, cut.0, cut.1)
  }

  /** The letters `s[..i]` and digits `s[i..j]` of the first cell, then the rest. */
  function FirstCell(s: string, i: nat, j: nat): Result<Extent, A1Error>
    requires i <= j <= |s| && AllUpper(s[..i]) && AllDigits(s[i..j])
  {
    if i == 0 || j == i then Err(InvalidA1Notation)
    else SecondCell(DecimalValue(s[i..j]), ColumnNumber(s[..i]), s[j..])
  }

  /** What may follow the first cell: nothing, or a colon and a second cell. */
  function SecondCell(startRow: nat, startCol: nat, rest: string): Result<Extent, A1Error>
  {
    if rest == [] then Ok(Extent(startRow, startCol, startRow, startCol))
    else if rest[0] != ':' then Err(InvalidA1Notation)
    else match WholeCell(rest[1..])
      case None => Err(InvalidA1Notation)
      case Some((endRow, endCol)) => Ok(Extent(startRow, startCol, endRow, endCol))
  }

  /** The `(row, column)` of `t` when all of `t` is one cell reference. */
  function WholeCell(t: string): Option<(nat, nat)>
  {
    var (k, l) := CellSplit(t);
    if k == 0 || l == k || l != |t| then None
    else Some((DecimalValue(t[k..l]), ColumnNumber(t[..k])))
  }

  /** One cell reference: capitals, then digits, and nothing else. */
  ghost predicate IsCellRef(s: string)
  {
    exists k :: 0 < k < |s| && AllUpper(s[..k]) && AllDigits(s[k..])
  }

  /** The language of the pattern: a cell, or two cells around a colon. */
  ghost predicate IsA1Notation(s: string)
  {
    IsCellRef(s) || exists m :: 0 < m < |s| && s[m] == ':' && IsCellRef(s[..m]) && IsCellRef(s[m + 1..])
  }

  /** The leading run of capitals is determined by where it stops. */
  lemma UpperRunUnique(s: string, x: nat, y: nat)
    requires x <= |s| && AllUpper(s[..x]) && (x < |s| ==> !IsUpper(s[x]))
    requires y <= |s| && AllUpper(s[..y]) && (y < |s| ==> !IsUpper(s[y]))
    ensures x == y
  {
  }

  /** The leading run of digits is determined by where it stops. */
  lemma DigitRunUnique(s: string, x: nat, y: nat)
    requires x <= |s| && AllDigits(s[..x]) && (x < |s| ==> !IsDigit(s[x]))
    requires y <= |s| && AllDigits(s[..y]) && (y < |s| ==> !IsDigit(s[y]))
    ensures x == y
  {
  }

  lemma CellSplitOf(letters: string, digits: string, rest: string)
    requires letters != [] && AllUpper(letters) && digits != [] && AllDigits(digits)
    requires rest == [] || !IsDigit(rest[0])
    ensures CellSplit(letters + digits + rest) == (|letters|, |letters| + |digits|)
  {
    var s := letters + digits + rest;
    var (i, j) := CellSplit(s);
    assert s[..|letters|] == letters;
    assert s[|letters|] == digits[0];
    UpperRunUnique(s, i, |letters|);
    var u := s[i..];
    assert u[..j - i] == s[i..j];
    assert u[..|digits|] == digits;
    assert rest != [] ==> u[|digits|] == rest[0];
    DigitRunUnique(u, j - i, |digits|);
  }

  lemma WholeCellOf(letters: string, digits: string)
    requires letters != [] && AllUpper(letters) && digits != [] && AllDigits(digits)
    ensures WholeCell(letters + digits) == Some((DecimalValue(digits), ColumnNumber(letters)))
  {
    var s := letters + digits;
    CellSplitOf(letters, digits, []);
    assert s == letters + digits + [];
    assert s[..|letters|] == letters && s[|letters|..|s|] == digits;
  }

  /** A single cell parses to the degenerate extent of its row and column. */
  lemma ParseCell(letters: string, digits: string)
    requires letters != [] && AllUpper(letters) && digits != [] && AllDigits(digits)
    ensures ParseA1(letters + digits)
         == Ok(Extent(DecimalValue(digits), ColumnNumber(letters), DecimalValue(digits), ColumnNumber(letters)))
  {
    var s := letters + digits;
    CellSplitOf(letters, digits, []);
    assert s == letters + digits + [];
    assert s[..|letters|] == letters && s[|letters|..|s|] == digits;
  }

  /** A range `L1D1:L2D2` parses to its two corners. */
  lemma ParseRange(l1: string, d1: string, l2: string, d2: string)
    requires l1 != [] && AllUpper(l1) && d1 != [] && AllDigits(d1)
    requires l2 != [] && AllUpper(l2) && d2 != [] && AllDigits(d2)
    ensures ParseA1(l1 + d1 + ":" + l2 + d2)
         == Ok(Extent(DecimalValue(d1), ColumnNumber(l1), DecimalValue(d2), ColumnNumber(l2)))
  {
    RangePieces(l1, d1, l2, d2);
    WholeCellOf(l2, d2);
    ParseSplitRange(l1 + d1 + ":" + l2 + d2, l1, d1, l2 + d2);
  }

  /** `ParseA1` on a string already cut into its start cell, colon and end cell. */
  lemma ParseSplitRange(s: string, l1: string, d1: string, tail: string)
    requires AllUpper(l1) && AllDigits(d1)
    requires var j := |l1| + |d1|;
      CellSplit(s) == (|l1|, j) && 0 < |l1| < j < |s| && s[..|l1|] == l1 && s[|l1|..j] == d1
      && s[j] == ':' && s[j + 1..] == tail && WholeCell(tail).Some?
    ensures ParseA1(s) == Ok(Extent(DecimalValue(d1), ColumnNumber(l1), WholeCell(tail).value.0, WholeCell(tail).value.1))
  {
    var rest := s[|l1| + |d1|..];
    FirstCellThen(s, l1, d1);
    assert rest[0] == ':' && rest[1..] == tail;
    ColonThenCell(DecimalValue(d1), ColumnNumber(l1), rest);
  }

  /** Once the first cell is cut out, `ParseA1` reads what follows it. */
  lemma FirstCellThen(s: string, l1: string, d1: string)
    requires AllUpper(l1) && AllDigits(d1)
    requires var j := |l1| + |d1|;
      CellSplit(s) == (|l1|, j) && 0 < |l1| < j <= |s| && s[..|l1|] == l1 && s[|l1|..j] == d1
    ensures ParseA1(s) == SecondCell(DecimalValue(d1), ColumnNumber(l1), s[|l1| + |d1|..])
  {
    assert ParseA1(s) == FirstCell(s, |l1|, |l1| + |d1|);
  }

  /** A colon and a whole cell after the first cell make a two-cell range. */
  lemma ColonThenCell(startRow: nat, startCol: nat, rest: string)
    requires rest != [] && rest[0] == ':' && WholeCell(rest[1..]).Some?
    ensures SecondCell(startRow, startCol, rest)
         == Ok(Extent(startRow, startCol, WholeCell(rest[1..]).value.0, WholeCell(rest[1..]).value.1))
  {
  }

  lemma RangePieces(l1: string, d1: string, l2: string, d2: string)
    requires l1 != [] && AllUpper(l1) && d1 != [] && AllDigits(d1)
    requires l2 != [] && AllUpper(l2) && d2 != [] && AllDigits(d2)
    ensures var s := l1 + d1 + ":" + l2 + d2;
      var j := |l1| + |d1|;
      CellSplit(s) == (|l1|, j) && j < |s| && s[..|l1|] == l1 && s[|l1|..j] == d1 && s[j] == ':' && s[j + 1..] == l2 + d2
  {
    var rest := ":" + l2 + d2;
    var s := l1 + d1 + rest;
    assert s == l1 + d1 + ":" + l2 + d2;
    CellSplitOf(l1, d1, rest);
    var j := |l1| + |d1|;
    assert s[..|l1|] == l1 && s[|l1|..j] == d1 && s[j] == ':';
    assert s[j + 1..] == l2 + d2;
  }

  /** The parser accepts exactly the notation's language. */
  lemma ParseA1Accepts(s: string)
    ensures ParseA1(s).Ok? <==> IsA1Notation(s)
  {
    if ParseA1(s).Ok? {
      ParseA1Sound(s);
    }
    if IsA1Notation(s) {
      ParseA1Complete(s);
    }
  }

  lemma WholeCellSound(t: string)
    requires WholeCell(t).Some?
    ensures IsCellRef(t)
  {
    var (k, l) := CellSplit(t);
    assert t[k..] == t[k..l];
  }

  lemma ParseA1Sound(s: string)
    requires ParseA1(s).Ok?
    ensures IsA1Notation(s)
  {
    var (i, j) := CellSplit(s);
    var rest := s[j..];
    if j == |s| {
      assert s[i..] == s[i..j];
      assert 0 < i < |s| && AllUpper(s[..i]) && AllDigits(s[i..]);
    } else {
      assert rest[0] == s[j] && rest[1..] == s[j + 1..];
      WholeCellSound(s[j + 1..]);
      var a := s[..j];
      assert a[..i] == s[..i] && a[i..] == s[i..j];
      assert IsCellRef(a);
    }
  }

  lemma ParseA1Complete(s: string)
    requires IsA1Notation(s)
    ensures ParseA1(s).Ok?
  {
    if IsCellRef(s) {
      var k :| 0 < k < |s| && AllUpper(s[..k]) && AllDigits(s[k..]);
      CompleteCell(s, k);
    } else {
      var m :| 0 < m < |s| && s[m] == ':' && IsCellRef(s[..m]) && IsCellRef(s[m + 1..]);
      CompleteColon(s, m);
    }
  }

  lemma CompleteColon(s: string, m: nat)
    requires 0 < m < |s| && s[m] == ':' && IsCellRef(s[..m]) && IsCellRef(s[m + 1..])
    ensures ParseA1(s).Ok?
  {
    var a, b := s[..m], s[m + 1..];
    assert s == a + ":" + b;
    var k1 :| 0 < k1 < |a| && AllUpper(a[..k1]) && AllDigits(a[k1..]);
    var k2 :| 0 < k2 < |b| && AllUpper(b[..k2]) && AllDigits(b[k2..]);
    CompleteRange(s, a, b, k1, k2);
  }

  lemma CompleteCell(s: string, k: nat)
    requires 0 < k < |s| && AllUpper(s[..k]) && AllDigits(s[k..])
    ensures ParseA1(s).Ok?
  {
    assert s == s[..k] + s[k..];
    ParseCell(s[..k], s[k..]);
  }

  lemma CompleteRange(s: string, a: string, b: string, k1: nat, k2: nat)
    requires s == a + ":" + b
    requires 0 < k1 < |a| && AllUpper(a[..k1]) && AllDigits(a[k1..])
    requires 0 < k2 < |b| && AllUpper(b[..k2]) && AllDigits(b[k2..])
    ensures ParseA1(s).Ok?
  {
    assert s == a[..k1] + a[k1..] + ":" + b[..k2] + b[k2..];
    ParseRange(a[..k1], a[k1..], b[..k2], b[k2..]);
  }

  /** What the host's `getA1Notation()` prints for an extent: the cell alone when
      the extent is one cell, both corners otherwise. */
  function HostA1Notation(e: Extent): string
    requires e.startRow >= 0 && e.endRow >= 0 && e.startCol >= 1 && e.endCol >= 1
  {
    var start := ColumnLetters(e.startCol) + DecimalString(e.startRow);
    if e.startRow == e.endRow && e.startCol == e.endCol then start
    else start + ":" + ColumnLetters(e.endCol) + DecimalString(e.endRow)
  }

  /** Parsing the host's notation of an extent gives that extent back. */
  lemma ParseHostNotation(e: Extent)
    requires e.startRow >= 0 && e.endRow >= 0 && e.startCol >= 1 && e.endCol >= 1
    ensures ParseA1(HostA1Notation(e)) == Ok(e)
  {
    ColumnRoundTrip(e.startCol);
    ColumnRoundTrip(e.endCol);
    DecimalRoundTrip(e.startRow);
    DecimalRoundTrip(e.endRow);
    var l1, d1 := ColumnLetters(e.startCol), DecimalString(e.startRow);
    if e.startRow == e.endRow && e.startCol == e.endCol {
      ParseCell(l1, d1);
    } else {
      ParseRange(l1, d1, ColumnLetters(e.endCol), DecimalString(e.endRow));
    }
  }

  /** The host's notation never contains the `#` that separates the fields of
      a bound image's alt text. */
  lemma HostNotationHasNoHash(e: Extent)
    requires e.startRow >= 0 && e.endRow >= 0 && e.startCol >= 1 && e.endCol >= 1
    ensures '#' !in HostA1Notation(e)
  {
    var l1, d1 := ColumnLetters(e.startCol), DecimalString(e.startRow);
    var rest := ColumnLetters(e.endCol) + DecimalString(e.endRow);
    var s := HostA1Notation(e);
    forall i | 0 <= i < |s| ensures s[i] != '#' {
      if i < |l1| {
        assert s[i] == l1[i];
      } else if i < |l1| + |d1| {
        assert s[i] == d1[i - |l1|];
      } else if i > |l1| + |d1| {
        assert s[i] == rest[i - |l1| - |d1| - 1];
        if i - |l1| - |d1| - 1 >= |ColumnLetters(e.endCol)| {
          assert rest[i - |l1| - |d1| - 1] == DecimalString(e.endRow)[i - |l1| - |d1| - 1 - |ColumnLetters(e.endCol)|];
        }
      }
    }
  }

  /** `A1` is the top-left cell. */
  lemma ParseFirstCell()
    ensures ParseA1("A1") == Ok(Extent(1, 1, 1, 1))
  {
    ParseCell("A", "1");
    assert "A" + "1" == "A1";
  }

  /** `A1:B2` spans two rows and two columns. */
  lemma ParseSquare()
    ensures ParseA1("A1:B2") == Ok(Extent(1, 1, 2, 2))
  {
    assert ColumnNumber("A") == 1 && ColumnNumber("B") == 2;
    assert DecimalValue("1") == 1 && DecimalValue("2") == 2;
    assert "A" + "1" + ":" + "B" + "2" == "A1:B2";
    ParseRange("A", "1", "B", "2");
  }

  /** Column `AA` follows `Z`. */
  lemma ParseColumnAA()
    ensures ParseA1("AA1") == Ok(Extent(1, 27, 1, 27))
  {
    ParseCell("AA", "1");
    assert "AA" + "1" == "AA1";
  }

  /** Digits before letters, lower-case letters and the empty string are rejected. */
  lemma ParseRejects()
    ensures ParseA1("1A").Err? && ParseA1("a1").Err? && ParseA1("").Err?
  {
    ParseA1Accepts("1A");
    ParseA1Accepts("a1");
  }
}
