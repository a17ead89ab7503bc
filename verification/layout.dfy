/**
 The text layout `printBenchmarkTable` builds with `std::setw`: cells padded
 on the left to a column width, separator lines of `-` runs closed by `+`,
 and rows of cells closed by `|`. A table line is a `|` or `+` followed by
 one part per column; each part ends with the column's delimiter.
 */
module Layout {

  /** n copies of the character c. */
  function Repeat(c: char, n: nat): (r: string)
    ensures |r| == n
    ensures forall i :: 0 <= i < n ==> r[i] == c
  {
    seq(n, _ => c)
  }

  /**
   What `os << std::setw(w) << s` writes when the fill character is `fill`
   and the stream is right-aligned: s, preceded by as many fill characters as
   make it w long. A string already w or more long is written whole.
   */
  function PadLeft(s: string, w: int, fill: char): (r: string)
    ensures |r| == if |s| < w then w else |s|
    ensures r[|r| - |s|..] == s
    ensures forall i :: 0 <= i < |r| - |s| ==> r[i] == fill
  {
    if |s| < w then Repeat(fill, w - |s|) + s else s
  }

  /** The parts written one after another. */
  function Concat(parts: seq<string>): string
    decreases |parts|
  {
    if |parts| == 0 then "" else Concat(parts[..|parts| - 1]) + parts[|parts| - 1]
  }

  /** The sum of the lengths of the parts. */
  function TotalLength(parts: seq<string>): nat
    decreases |parts|
  {
    if |parts| == 0 then 0 else TotalLength(parts[..|parts| - 1]) + |parts[|parts| - 1]|
  }

  lemma {:induction false} ConcatLength(parts: seq<string>)
    ensures |Concat(parts)| == TotalLength(parts)
    decreases |parts|
  {
    if |parts| > 0 {
      ConcatLength(parts[..|parts| - 1]);
    }
  }

  lemma {:induction false} ConcatAppend(a: seq<string>, b: seq<string>)
    ensures Concat(a + b) == Concat(a) + Concat(b)
    decreases |b|
  {
    if |b| == 0 {
      assert a + b == a;
    } else {
      var n := |b| - 1;
      assert (a + b)[..|a + b| - 1] == a + b[..n];
      ConcatAppend(a, b[..n]);
    }
  }

  /**
   Part i of a concatenation starts right after the parts before it, so it
   can be read back from the concatenation at that offset.
   */
  lemma ConcatSlice(parts: seq<string>, i: int)
    requires 0 <= i < |parts|
    ensures TotalLength(parts[..i]) + |parts[i]| <= |Concat(parts)|
    ensures Concat(parts)[TotalLength(parts[..i])..TotalLength(parts[..i]) + |parts[i]|] == parts[i]
  {
    var before := parts[..i];
    var after := parts[i + 1..];
    assert parts == before + ([parts[i]] + after);
    ConcatAppend(before, [parts[i]] + after);
    ConcatAppend([parts[i]], after);
    assert Concat([parts[i]]) == parts[i] by {
      assert [parts[i]][..0] == [];
    }
    ConcatLength(before);
    ConcatLength(parts);
  }

  /**
   The length a line needs for columns of widths ws when every cell fits: each
   column takes its width plus two padding characters and one delimiter.
   */
  function Span(ws: seq<nat>): nat
    decreases |ws|
  {
    if |ws| == 0 then 0 else Span(ws[..|ws| - 1]) + ws[|ws| - 1] + 3
  }

  /** Parts that each take their column's width plus three add up to the span. */
  lemma {:induction false} TotalLengthIsSpan(parts: seq<string>, ws: seq<nat>, i: int)
    requires |parts| == |ws|
    requires forall k :: 0 <= k < |ws| ==> |parts[k]| == ws[k] + 3
    requires 0 <= i <= |ws|
    ensures TotalLength(parts[..i]) == Span(ws[..i])
    decreases i
  {
    if i > 0 {
      assert parts[..i][..i - 1] == parts[..i - 1];
      assert ws[..i][..i - 1] == ws[..i - 1];
      TotalLengthIsSpan(parts, ws, i - 1);
    }
  }

  /**
   A line made of a leading delimiter and one part per column, each part its
   column's width plus three long: the line is 1 + Span(ws) long and part i
   sits at offset 1 + Span(ws[..i]).
   */
  lemma LineSlice(head: string, parts: seq<string>, ws: seq<nat>, i: int)
    requires |head| == 1
    requires |parts| == |ws|
    requires forall k :: 0 <= k < |ws| ==> |parts[k]| == ws[k] + 3
    requires 0 <= i < |ws|
    ensures |head + Concat(parts)| == 1 + Span(ws)
    ensures 1 + Span(ws[..i]) + ws[i] + 3 <= 1 + Span(ws)
    ensures (head + Concat(parts))[1 + Span(ws[..i])..1 + Span(ws[..i]) + ws[i] + 3] == parts[i]
  {
    var body := Concat(parts);
    var lo := TotalLength(parts[..i]);
    assert |body| == Span(ws) by {
      TotalLengthIsSpan(parts, ws, |ws|);
      assert ws[..|ws|] == ws && parts[..|parts|] == parts;
      ConcatLength(parts);
    }
    assert lo == Span(ws[..i]) by {
      TotalLengthIsSpan(parts, ws, i);
    }
    assert lo + |parts[i]| <= |body| && body[lo..lo + |parts[i]|] == parts[i] by {
      ConcatSlice(parts, i);
    }
    assert (head + body)[1 + lo..1 + lo + |parts[i]|] == body[lo..lo + |parts[i]|];
  }

  /** One column of a separator line: `std::setw(w + 2)` of "-" with fill '-', then "+". */
  function SeparatorPart(w: nat): string
  {
    PadLeft("-", w + 2, '-') + "+"
  }

  function SeparatorParts(ws: seq<nat>): (parts: seq<string>)
    ensures |parts| == |ws|
    ensures forall k :: 0 <= k < |ws| ==> parts[k] == SeparatorPart(ws[k])
  {
    seq(|ws|, k requires 0 <= k < |ws| => SeparatorPart(ws[k]))
  }

  /** A separator line for columns of widths ws. */
  function Separator(ws: seq<nat>): string
  {
    "+" + Concat(SeparatorParts(ws))
  }

  /** One cell of a row: a space, the cell padded to width w with spaces, " |". */
  function RowPart(cell: string, w: nat): string
  {
    " " + PadLeft(cell, w, ' ') + " |"
  }

  /** A separator part is w + 2 dashes and a "+". */
  lemma SeparatorPartShape(w: nat)
    ensures SeparatorPart(w) == Repeat('-', w + 2) + "+"
  {
  }

  /** A row part for a cell that fits: a space, padding spaces, the cell, " |". */
  lemma RowPartShape(cell: string, w: nat)
    requires |cell| <= w
    ensures RowPart(cell, w) == " " + Repeat(' ', w - |cell|) + cell + " |"
  {
    assert |cell| == w ==> Repeat(' ', 0) == "";
  }

  function RowParts(cells: seq<string>, ws: seq<nat>): (parts: seq<string>)
    requires |cells| == |ws|
    ensures |parts| == |ws|
    ensures forall k :: 0 <= k < |ws| ==> parts[k] == RowPart(cells[k], ws[k])
  {
    seq(|ws|, k requires 0 <= k < |ws| => RowPart(cells[k], ws[k]))
  }

  /** A row line: "|" then one part per cell, each cell in its column's width. */
  function Row(cells: seq<string>, ws: seq<nat>): string
    requires |cells| == |ws|
  {
    "|" + Concat(RowParts(cells, ws))
  }

  /** Every cell is at most as long as its column is wide. */
  predicate Fits(cells: seq<string>, ws: seq<nat>)
    requires |cells| == |ws|
  {
    forall k :: 0 <= k < |ws| ==> |cells[k]| <= ws[k]
  }

  /** Column i of a separator line sits at offset 1 + Span(ws[..i]). */
  lemma SeparatorColumn(ws: seq<nat>, i: int)
    requires 0 <= i < |ws|
    ensures |Separator(ws)| == 1 + Span(ws)
    ensures 1 + Span(ws[..i]) + ws[i] + 3 <= |Separator(ws)|
    ensures Separator(ws)[1 + Span(ws[..i])..1 + Span(ws[..i]) + ws[i] + 3] == SeparatorParts(ws)[i]
  {
    LineSlice("+", SeparatorParts(ws), ws, i);
  }

  lemma SeparatorPartAt(ws: seq<nat>, i: int)
    requires 0 <= i < |ws|
    ensures SeparatorParts(ws)[i] == Repeat('-', ws[i] + 2) + "+"
  {
    SeparatorPartShape(ws[i]);
  }

  /**
   A separator line: "+", then for each column of width w a run of w + 2
   dashes closed by "+"; its length is 1 plus the span of the widths.
   */
  lemma SeparatorShape(ws: seq<nat>, i: int)
    requires 0 <= i < |ws|
    ensures |Separator(ws)| == 1 + Span(ws)
    ensures Separator(ws)[0] == '+'
    ensures 1 + Span(ws[..i]) + ws[i] + 3 <= |Separator(ws)|
    ensures Separator(ws)[1 + Span(ws[..i])..1 + Span(ws[..i]) + ws[i] + 3] == Repeat('-', ws[i] + 2) + "+"
  {
    SeparatorColumn(ws, i);
    SeparatorPartAt(ws, i);
  }

  /** Column i of a row sits at offset 1 + Span(ws[..i]) when every cell fits. */
  lemma RowColumn(cells: seq<string>, ws: seq<nat>, i: int)
    requires |cells| == |ws|
    requires Fits(cells, ws)
    requires 0 <= i < |ws|
    ensures |Row(cells, ws)| == 1 + Span(ws)
    ensures 1 + Span(ws[..i]) + ws[i] + 3 <= |Row(cells, ws)|
    ensures Row(cells, ws)[1 + Span(ws[..i])..1 + Span(ws[..i]) + ws[i] + 3] == RowParts(cells, ws)[i]
  {
    LineSlice("|", RowParts(cells, ws), ws, i);
  }

  lemma RowPartAt(cells: seq<string>, ws: seq<nat>, i: int)
    requires |cells| == |ws|
    requires Fits(cells, ws)
    requires 0 <= i < |ws|
    ensures RowParts(cells, ws)[i] == " " + Repeat(' ', ws[i] - |cells[i]|) + cells[i] + " |"
  {
    RowPartShape(cells[i], ws[i]);
  }

  /**
   When every cell fits its column, a row is exactly as long as the
   separator for the same widths, and column i of the row holds a space, the
   cell right-aligned to the column width by leading spaces, a space and the
   "|" that sits under the separator's "+".
   */
  lemma RowAligned(cells: seq<string>, ws: seq<nat>, i: int)
    requires |cells| == |ws|
    requires Fits(cells, ws)
    requires 0 <= i < |ws|
    ensures |Row(cells, ws)| == 1 + Span(ws)
    ensures Row(cells, ws)[0] == '|'
    ensures 1 + Span(ws[..i]) + ws[i] + 3 <= |Row(cells, ws)|
    ensures Row(cells, ws)[1 + Span(ws[..i])..1 + Span(ws[..i]) + ws[i] + 3]
         == " " + Repeat(' ', ws[i] - |cells[i]|) + cells[i] + " |"
  {
    RowColumn(cells, ws, i);
    RowPartAt(cells, ws, i);
  }

  /** A separator line is one character longer than the span of its widths. */
  lemma SeparatorLength(ws: seq<nat>)
    ensures |Separator(ws)| == 1 + Span(ws)
  {
    var parts := SeparatorParts(ws);
    TotalLengthIsSpan(parts, ws, |ws|);
    assert ws[..|ws|] == ws && parts[..|parts|] == parts;
    ConcatLength(parts);
  }

  /** A row whose cells fit its columns is as long as the separator for the same widths. */
  lemma RowLength(cells: seq<string>, ws: seq<nat>)
    requires |cells| == |ws|
    requires Fits(cells, ws)
    ensures |Row(cells, ws)| == 1 + Span(ws)
  {
    var parts := RowParts(cells, ws);
    TotalLengthIsSpan(parts, ws, |ws|);
    assert ws[..|ws|] == ws && parts[..|parts|] == parts;
    ConcatLength(parts);
  }

  /** A character inside a slice is the character at the same offset of the line. */
  lemma CharOfSlice(s: string, lo: int, t: string, k: int)
    requires 0 <= lo && lo + |t| <= |s|
    requires s[lo..lo + |t|] == t
    requires 0 <= k < |t|
    ensures s[lo + k] == t[k]
  {
  }

  /** The last character of part i of a line sits at offset 1 + Span(ws[..i]) + ws[i] + 2. */
  lemma LineCloses(head: string, parts: seq<string>, ws: seq<nat>, i: int, c: char)
    requires |head| == 1
    requires |parts| == |ws|
    requires forall k :: 0 <= k < |ws| ==> |parts[k]| == ws[k] + 3
    requires 0 <= i < |ws|
    requires parts[i][ws[i] + 2] == c
    ensures |head + Concat(parts)| == 1 + Span(ws)
    ensures 1 + Span(ws[..i]) + ws[i] + 2 < 1 + Span(ws)
    ensures (head + Concat(parts))[1 + Span(ws[..i]) + ws[i] + 2] == c
  {
    LineSlice(head, parts, ws, i);
    CharOfSlice(head + Concat(parts), 1 + Span(ws[..i]), parts[i], ws[i] + 2);
  }

  lemma SeparatorPartAtCloses(ws: seq<nat>, i: int)
    requires 0 <= i < |ws|
    ensures |SeparatorParts(ws)[i]| == ws[i] + 3
    ensures SeparatorParts(ws)[i][ws[i] + 2] == '+'
  {
    SeparatorPartAt(ws, i);
  }

  lemma RowPartAtCloses(cells: seq<string>, ws: seq<nat>, i: int)
    requires |cells| == |ws|
    requires Fits(cells, ws)
    requires 0 <= i < |ws|
    ensures |RowParts(cells, ws)[i]| == ws[i] + 3
    ensures RowParts(cells, ws)[i][ws[i] + 2] == '|'
  {
    RowPartAt(cells, ws, i);
  }

  /** In a separator line, column i is closed by a "+" at offset 1 + Span(ws[..i]) + ws[i] + 2. */
  lemma SeparatorCloses(ws: seq<nat>, i: int)
    requires 0 <= i < |ws|
    ensures |Separator(ws)| == 1 + Span(ws)
    ensures 1 + Span(ws[..i]) + ws[i] + 2 < |Separator(ws)|
    ensures Separator(ws)[1 + Span(ws[..i]) + ws[i] + 2] == '+'
  {
    SeparatorPartAtCloses(ws, i);
    LineCloses("+", SeparatorParts(ws), ws, i, '+');
  }

  /**
   In a row whose cells fit, column i is closed by a "|" at the offset where
   the separator for the same widths has its "+".
   */
  lemma RowCloses(cells: seq<string>, ws: seq<nat>, i: int)
    requires |cells| == |ws|
    requires Fits(cells, ws)
    requires 0 <= i < |ws|
    ensures |Row(cells, ws)| == 1 + Span(ws)
    ensures 1 + Span(ws[..i]) + ws[i] + 2 < |Row(cells, ws)|
    ensures Row(cells, ws)[1 + Span(ws[..i]) + ws[i] + 2] == '|'
  {
    RowPartAtCloses(cells, ws, i);
    LineCloses("|", RowParts(cells, ws), ws, i, '|');
  }

  /**
   Parts at least as long as their column's width plus three add up to at
   least the span, and to more than it when part j is longer.
   */
  lemma {:induction false} TotalLengthAtLeast(parts: seq<string>, ws: seq<nat>, i: int, j: int)
    requires |parts| == |ws|
    requires forall k :: 0 <= k < |ws| ==> |parts[k]| >= ws[k] + 3
    requires 0 <= i <= |ws| && 0 <= j < |ws|
    requires |parts[j]| > ws[j] + 3
    ensures TotalLength(parts[..i]) >= Span(ws[..i])
    ensures j < i ==> TotalLength(parts[..i]) > Span(ws[..i])
    decreases i
  {
    if i > 0 {
      assert parts[..i][..i - 1] == parts[..i - 1];
      assert ws[..i][..i - 1] == ws[..i - 1];
      TotalLengthAtLeast(parts, ws, i - 1, j);
    }
  }

  /** A part never truncates its cell: it is at least the column's width plus three long. */
  lemma RowPartLength(cell: string, w: nat)
    ensures |RowPart(cell, w)| >= w + 3
    ensures |RowPart(cell, w)| > w + 3 <==> |cell| > w
  {
  }

  /**
   A row with a cell wider than its column is longer than the separator for
   the same widths: the cell is written whole and pushes the rest of the row right.
   */
  lemma RowOverflows(cells: seq<string>, ws: seq<nat>, j: int)
    requires |cells| == |ws|
    requires 0 <= j < |ws| && |cells[j]| > ws[j]
    ensures |Row(cells, ws)| > 1 + Span(ws)
  {
    var parts := RowParts(cells, ws);
    forall k | 0 <= k < |ws|
      ensures |parts[k]| >= ws[k] + 3
    {
      RowPartLength(cells[k], ws[k]);
    }
    RowPartLength(cells[j], ws[j]);
    TotalLengthAtLeast(parts, ws, |ws|, j);
    assert ws[..|ws|] == ws && parts[..|parts|] == parts;
    ConcatLength(parts);
  }
}
