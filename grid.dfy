/**
 * The crossword grid of src/crossword.rs: parsing a grid from text, the
 * two-pass scan that extracts the slots ("entries") words can occupy, and the
 * iterator that reads the characters a slot currently holds.
 */
module Grid {
  import opened Wrappers
  import opened Text

  /** A grid: `contents` holds the cells row by row, without separators. */
  datatype Crossword = Crossword(contents: string, width: nat, height: nat)

  datatype Direction = Across | Down

  /** A slot of the grid (`EntryLocation`). */
  datatype EntryLocation = EntryLocation(
    startRow: nat,
    startCol: nat,
    length: nat,
    direction: Direction,
    prefilled: bool)

  const BLOCK: char := '*'
  const BLANK: char := ' '
  const DIMENSION_ERROR: string := "Input dimensions do not match."

  /** The grid holds exactly `width * height` cells. */
  predicate Shaped(cw: Crossword) {
    |cw.contents| == cw.width * cw.height
  }

  /** What every grid built by `FromString` satisfies. */
  predicate WellFormed(cw: Crossword) {
    Shaped(cw) && IsAscii(cw.contents)
  }

  // ---------------------------------------------------------------- parsing

  /** `s` holds no line break. */
  predicate NoLineBreak(s: string) {
    forall i :: 0 <= i < |s| ==> s[i] != '\n'
  }

  /** `s` with every line break removed, the other characters kept in order. */
  function StripNewlines(s: string): (r: string)
    ensures |r| <= |s|
    ensures NoLineBreak(r)
    ensures IsAscii(s) ==> IsAscii(r)
  {
    if s == [] then []
    else (if s[0] == '\n' then [] else [s[0]]) + StripNewlines(s[1..])
  }

  /** Stripping works piece by piece: it commutes with concatenation. */
  lemma {:induction false} StripNewlinesConcat(a: string, b: string)
    ensures StripNewlines(a + b) == StripNewlines(a) + StripNewlines(b)
  {
    if a != [] {
      var head := if a[0] == '\n' then [] else [a[0]];
      assert (a + b)[0] == a[0] && (a + b)[1..] == a[1..] + b;
      calc {
        StripNewlines(a + b);
        head + StripNewlines(a[1..] + b);
        { StripNewlinesConcat(a[1..], b); }
        head + (StripNewlines(a[1..]) + StripNewlines(b));
        (head + StripNewlines(a[1..])) + StripNewlines(b);
        StripNewlines(a) + StripNewlines(b);
      }
    } else {
      assert a + b == b;
    }
  }

  /** A text without line breaks is kept exactly as it is. */
  lemma {:induction false} StripNewlinesKeeps(s: string)
    requires NoLineBreak(s)
    ensures StripNewlines(s) == s
  {
    if s != [] {
      StripNewlinesKeeps(s[1..]);
    }
  }

  /** Every character other than a line break survives stripping, as often as it occurs. */
  lemma {:induction false} StripNewlinesCounts(s: string, c: char)
    requires c != '\n'
    ensures multiset(StripNewlines(s))[c] == multiset(s)[c]
  {
    if s != [] {
      StripNewlinesCounts(s[1..], c);
      assert s == [s[0]] + s[1..];
      var head := if s[0] == '\n' then [] else [s[0]];
      assert StripNewlines(s) == head + StripNewlines(s[1..]);
      assert multiset(s)[c] == multiset([s[0]])[c] + multiset(s[1..])[c];
    }
  }

  /** `Crossword::from_string`. */
  function FromString(s: string, width: nat, height: nat): (r: Result<Crossword>)
    requires IsAscii(s)
    ensures r.Ok? <==> width * height == |StripNewlines(s)|
    ensures r.Ok? ==> WellFormed(r.value) && r.value.contents == StripNewlines(s)
                      && r.value.width == width && r.value.height == height
    ensures r.Err? ==> r.error == DIMENSION_ERROR
  {
    var stripped := StripNewlines(s);
    if width * height != |stripped| then Err(DIMENSION_ERROR)
    else Ok(Crossword(stripped, width, height))
  }

  /** The repository's own example: a 3 x 3 grid given on one line parses unchanged. */
  lemma FromStringExample()
    ensures FromString("ABCDEFGHI", 3, 3) == Ok(Crossword("ABCDEFGHI", 3, 3))
  {
    FromStringOneLine("ABCDEFGHI", 3, 3);
  }

  /** `rows` written one per line. */
  function JoinLines(rows: seq<string>): string {
    if |rows| <= 1 then (if rows == [] then [] else rows[0])
    else rows[0] + "\n" + JoinLines(rows[1..])
  }

  /** `rows` written one after another. */
  function Concat(rows: seq<string>): (r: string)
    ensures forall c :: c in r ==> exists k :: 0 <= k < |rows| && c in rows[k]
  {
    if rows == [] then [] else rows[0] + Concat(rows[1..])
  }

  /** Stripping a text written one row per line gives the rows one after another. */
  lemma {:induction false} StripJoinedLines(rows: seq<string>)
    requires forall k :: 0 <= k < |rows| ==> NoLineBreak(rows[k])
    ensures StripNewlines(JoinLines(rows)) == Concat(rows)
  {
    if |rows| == 1 {
      StripNewlinesKeeps(rows[0]);
      assert Concat(rows) == rows[0] + Concat([]);
    } else if |rows| > 1 {
      var line: string := "\n";
      assert StripNewlines(line) == [];
      StripJoinedLines(rows[1..]);
      StripNewlinesKeeps(rows[0]);
      StripNewlinesConcat(rows[0], line);
      StripNewlinesConcat(rows[0] + line, JoinLines(rows[1..]));
    }
  }

  /** `height` rows of `width` cells each hold `width * height` cells. */
  lemma {:induction false} ConcatLength(rows: seq<string>, width: nat)
    requires forall k :: 0 <= k < |rows| ==> |rows[k]| == width
    ensures |Concat(rows)| == width * |rows|
  {
    if rows != [] {
      ConcatLength(rows[1..], width);
    }
  }

  /**
   * Line breaks are cosmetic: a grid given as `height` lines of `width`
   * cells parses to the rows one after another.
   */
  lemma FromStringLines(rows: seq<string>, width: nat)
    requires forall k :: 0 <= k < |rows| ==> |rows[k]| == width && NoLineBreak(rows[k])
    requires IsAscii(JoinLines(rows))
    ensures FromString(JoinLines(rows), width, |rows|) == Ok(Crossword(Concat(rows), width, |rows|))
  {
    StripJoinedLines(rows);
    ConcatLength(rows, width);
  }

  /** A grid given on one line of `width * height` cells parses unchanged. */
  lemma FromStringOneLine(s: string, width: nat, height: nat)
    requires NoLineBreak(s) && IsAscii(s) && |s| == width * height
    ensures FromString(s, width, height) == Ok(Crossword(s, width, height))
  {
    StripNewlinesKeeps(s);
  }

  /** Text without line breaks whose length is not `width * height` is refused. */
  lemma FromStringOneLineMismatch(s: string, width: nat, height: nat)
    requires NoLineBreak(s) && IsAscii(s) && |s| != width * height
    ensures FromString(s, width, height) == Err(DIMENSION_ERROR)
  {
    StripNewlinesKeeps(s);
  }

  /** A text one cell short of 3 x 3 is refused. */
  lemma FromStringShortExample()
    ensures FromString("ABCDEFGH", 3, 3) == Err(DIMENSION_ERROR)
  {
    FromStringOneLineMismatch("ABCDEFGH", 3, 3);
  }

  // ------------------------------------------------------------ grid layout

  lemma CellIndexInBounds(width: nat, height: nat, row: nat, col: nat)
    requires row < height && col < width
    ensures row * width + col < width * height
  {
    var below := height - row - 1;
    assert width * height == width * row + width + width * below;
  }

  /** The cell at (`row`, `col`); rows are stored one after another. */
  function Cell(cw: Crossword, row: nat, col: nat): char
    requires Shaped(cw) && row < cw.height && col < cw.width
  {
    CellIndexInBounds(cw.width, cw.height, row, col);
    cw.contents[row * cw.width + col]
  }

  function Row(cw: Crossword, row: nat): (r: string)
    requires Shaped(cw) && row < cw.height
    ensures |r| == cw.width
  {
    seq(cw.width, col requires 0 <= col < cw.width => Cell(cw, row, col))
  }

  function Column(cw: Crossword, col: nat): (r: string)
    requires Shaped(cw) && col < cw.width
    ensures |r| == cw.height
  {
    seq(cw.height, row requires 0 <= row < cw.height => Cell(cw, row, col))
  }

  // ------------------------------------------------------ runs of one line

  /** A run of non-block cells in one line (a row or a column) of the grid. */
  datatype Run = Run(start: nat, length: nat, prefilled: bool, blocked: bool) {
    function End(): nat { start + length }
  }

  /**
   * `run` is a maximal run of non-block cells among the first `n` cells of
   * `line`: it cannot be extended on either side; `blocked` says that a
   * block rather than the `n`-th cell closes it, and `prefilled` that none of
   * its cells is blank.
   */
  predicate IsRunWithin(line: string, n: nat, run: Run)
    requires n <= |line|
  {
    1 <= run.length && run.End() <= n
    && (forall i :: run.start <= i < run.End() ==> line[i] != BLOCK)
    && (run.start == 0 || line[run.start - 1] == BLOCK)
    && (run.End() == n || line[run.End()] == BLOCK)
    && (run.blocked <==> run.End() < n)
    && (run.prefilled <==> forall i :: run.start <= i < run.End() ==> line[i] != BLANK)
  }

  /** `run` is a maximal run of non-block cells of the whole of `line`. */
  predicate IsRun(line: string, run: Run) {
    IsRunWithin(line, |line|, run)
  }

  /** The scanner's `length` after reading `n` cells: the non-block cells since the last block. */
  function OpenLength(line: string, n: nat): (k: nat)
    requires n <= |line|
    ensures k <= n
  {
    if n == 0 || line[n - 1] == BLOCK then 0 else OpenLength(line, n - 1) + 1
  }

  /** The scanner's `prefilled` after reading `n` cells. */
  function OpenPrefilled(line: string, n: nat): bool
    requires n <= |line|
  {
    if n == 0 || line[n - 1] == BLOCK then true
    else OpenPrefilled(line, n - 1) && line[n - 1] != BLANK
  }

  /** The run still open after reading `n` cells. */
  function OpenRun(line: string, n: nat): Run
    requires n <= |line| && OpenLength(line, n) > 0
  {
    Run(n - OpenLength(line, n), OpenLength(line, n), OpenPrefilled(line, n), false)
  }

  /** The runs a block has closed while reading `n` cells, in order. */
  function ClosedRuns(line: string, n: nat): seq<Run>
    requires n <= |line|
  {
    if n == 0 then []
    else if line[n - 1] == BLOCK && OpenLength(line, n - 1) > 0 then
      ClosedRuns(line, n - 1) + [OpenRun(line, n - 1).(blocked := true)]
    else
      ClosedRuns(line, n - 1)
  }

  /** All runs of a line: the closed ones and the one the end of the line closes. */
  function LineRuns(line: string): seq<Run> {
    ClosedRuns(line, |line|)
    + (if OpenLength(line, |line|) > 0 then [OpenRun(line, |line|)] else [])
  }

  ghost predicate OpenRunFacts(line: string, n: nat)
    requires n <= |line|
  {
    var o := OpenLength(line, n);
    (forall i :: n - o <= i < n ==> line[i] != BLOCK)
    && (o == n || line[n - o - 1] == BLOCK)
    && (OpenPrefilled(line, n) <==> forall i :: n - o <= i < n ==> line[i] != BLANK)
  }

  /** Every closed run is a maximal run that ends before the open one starts. */
  ghost predicate ClosedRunsMaximal(line: string, n: nat)
    requires n <= |line|
  {
    var runs, o := ClosedRuns(line, n), OpenLength(line, n);
    forall k :: 0 <= k < |runs| ==> IsRunWithin(line, n, runs[k]) && runs[k].End() < n - o
  }

  /** The closed runs are listed left to right. */
  ghost predicate ClosedRunsOrdered(line: string, n: nat)
    requires n <= |line|
  {
    var runs := ClosedRuns(line, n);
    forall k :: 0 <= k < |runs| - 1 ==> runs[k].End() < runs[k + 1].start
  }

  /** Every non-block cell before the open run lies in a closed run. */
  ghost predicate ClosedRunsCover(line: string, n: nat)
    requires n <= |line|
  {
    var runs, o := ClosedRuns(line, n), OpenLength(line, n);
    forall i :: 0 <= i < n - o && line[i] != BLOCK ==>
      exists k :: 0 <= k < |runs| && runs[k].start <= i < runs[k].End()
  }

  ghost predicate ClosedRunFacts(line: string, n: nat)
    requires n <= |line|
  {
    ClosedRunsMaximal(line, n) && ClosedRunsOrdered(line, n) && ClosedRunsCover(line, n)
  }

  lemma {:induction false} OpenRunLemma(line: string, n: nat)
    requires n <= |line|
    ensures OpenRunFacts(line, n)
  {
    if n > 0 && line[n - 1] != BLOCK {
      OpenRunLemma(line, n - 1);
    }
  }

  /** A maximal run that a block has closed stays one when the scan reads on. */
  lemma IsRunExtend(line: string, n: nat, run: Run)
    requires n < |line| && IsRunWithin(line, n, run) && run.End() < n
    ensures IsRunWithin(line, n + 1, run)
  {
  }

  lemma {:induction false} ClosedRunLemma(line: string, n: nat)
    requires n <= |line|
    ensures ClosedRunFacts(line, n)
    decreases n, 1
  {
    if n > 0 {
      ClosedRunStep(line, n - 1);
    }
  }

  /** Reading one more cell keeps the facts about the closed runs. */
  lemma {:induction false} ClosedRunStep(line: string, m: nat)
    requires m < |line|
    ensures ClosedRunFacts(line, m + 1)
    decreases m + 1, 0
  {
    ClosedRunLemma(line, m);
    OpenRunLemma(line, m);
    if line[m] != BLOCK || OpenLength(line, m) == 0 {
      ClosedRunsAfterNonClosingCell(line, m);
    } else {
      ClosedRunsAfterClosingBlock(line, m);
    }
  }

  lemma ClosedRunsAfterNonClosingCell(line: string, m: nat)
    requires m < |line| && (line[m] != BLOCK || OpenLength(line, m) == 0)
    requires ClosedRunFacts(line, m)
    ensures ClosedRunFacts(line, m + 1)
  {
    NonClosingKeepsMaximal(line, m);
    NonClosingKeepsOrder(line, m);
    NonClosingKeepsCover(line, m);
  }

  lemma NonClosingKeepsMaximal(line: string, m: nat)
    requires m < |line| && (line[m] != BLOCK || OpenLength(line, m) == 0)
    requires ClosedRunsMaximal(line, m)
    ensures ClosedRunsMaximal(line, m + 1)
  {
    var runs := ClosedRuns(line, m);
    assert ClosedRuns(line, m + 1) == runs;
    forall k | 0 <= k < |runs|
      ensures IsRunWithin(line, m + 1, runs[k])
    {
      IsRunExtend(line, m, runs[k]);
    }
  }

  lemma NonClosingKeepsOrder(line: string, m: nat)
    requires m < |line| && (line[m] != BLOCK || OpenLength(line, m) == 0)
    requires ClosedRunsOrdered(line, m)
    ensures ClosedRunsOrdered(line, m + 1)
  {
    assert ClosedRuns(line, m + 1) == ClosedRuns(line, m);
  }

  lemma NonClosingKeepsCover(line: string, m: nat)
    requires m < |line| && (line[m] != BLOCK || OpenLength(line, m) == 0)
    requires ClosedRunsCover(line, m)
    ensures ClosedRunsCover(line, m + 1)
  {
    assert ClosedRuns(line, m + 1) == ClosedRuns(line, m);
  }

  lemma ClosedRunsAfterClosingBlock(line: string, m: nat)
    requires m < |line| && line[m] == BLOCK && OpenLength(line, m) > 0
    requires ClosedRunFacts(line, m) && OpenRunFacts(line, m)
    ensures ClosedRunFacts(line, m + 1)
  {
    ClosingBlockKeepsMaximal(line, m);
    ClosingBlockKeepsOrder(line, m);
    ClosingBlockKeepsCover(line, m);
  }

  lemma ClosingBlockKeepsMaximal(line: string, m: nat)
    requires m < |line| && line[m] == BLOCK && OpenLength(line, m) > 0
    requires ClosedRunsMaximal(line, m) && OpenRunFacts(line, m)
    ensures ClosedRunsMaximal(line, m + 1)
  {
    var oldRuns := ClosedRuns(line, m);
    var closing := OpenRun(line, m).(blocked := true);
    var runs := ClosedRuns(line, m + 1);
    assert runs == oldRuns + [closing];
    assert OpenLength(line, m + 1) == 0;
    forall k | 0 <= k < |oldRuns|
      ensures IsRunWithin(line, m + 1, runs[k]) && runs[k].End() < m + 1
    {
      IsRunExtend(line, m, oldRuns[k]);
      assert runs[k] == oldRuns[k];
    }
    ClosingBlockClosesRun(line, m);
  }

  /** The block at `m` closes the open run: it becomes a maximal run of the first `m + 1` cells. */
  lemma ClosingBlockClosesRun(line: string, m: nat)
    requires m < |line| && line[m] == BLOCK && OpenLength(line, m) > 0
    requires OpenRunFacts(line, m)
    ensures IsRunWithin(line, m + 1, OpenRun(line, m).(blocked := true))
  {
  }

  lemma ClosingBlockKeepsOrder(line: string, m: nat)
    requires m < |line| && line[m] == BLOCK && OpenLength(line, m) > 0
    requires ClosedRunsMaximal(line, m) && ClosedRunsOrdered(line, m)
    ensures ClosedRunsOrdered(line, m + 1)
  {
    var oldRuns := ClosedRuns(line, m);
    var closing := OpenRun(line, m).(blocked := true);
    assert ClosedRuns(line, m + 1) == oldRuns + [closing];
  }

  lemma ClosingBlockKeepsCover(line: string, m: nat)
    requires m < |line| && line[m] == BLOCK && OpenLength(line, m) > 0
    requires ClosedRunsCover(line, m)
    ensures ClosedRunsCover(line, m + 1)
  {
    var oldRuns := ClosedRuns(line, m);
    var closing := OpenRun(line, m).(blocked := true);
    var runs := ClosedRuns(line, m + 1);
    assert runs == oldRuns + [closing];
    assert OpenLength(line, m + 1) == 0;
    forall i | 0 <= i < m + 1 && line[i] != BLOCK
      ensures exists k :: 0 <= k < |runs| && runs[k].start <= i < runs[k].End()
    {
      if i < m - OpenLength(line, m) {
        var k :| 0 <= k < |oldRuns| && oldRuns[k].start <= i < oldRuns[k].End();
        assert runs[k] == oldRuns[k];
      } else {
        assert runs[|oldRuns|] == closing;
      }
    }
  }

  /**
   * `LineRuns` lists exactly the maximal runs of `line`, left to right: every
   * element is one, they do not overlap, and every non-block cell lies in one.
   */
  lemma LineRunsAreMaximalRuns(line: string)
    ensures forall k :: 0 <= k < |LineRuns(line)| ==> IsRun(line, LineRuns(line)[k])
    ensures forall k :: 0 <= k < |LineRuns(line)| - 1 ==>
              LineRuns(line)[k].End() < LineRuns(line)[k + 1].start
    ensures forall i :: 0 <= i < |line| && line[i] != BLOCK ==>
              exists k :: 0 <= k < |LineRuns(line)| && LineRuns(line)[k].start <= i < LineRuns(line)[k].End()
  {
    var n := |line|;
    ClosedRunLemma(line, n);
    OpenRunLemma(line, n);
    if OpenLength(line, n) > 0 {
      assert LineRuns(line) == ClosedRuns(line, n) + [OpenRun(line, n)];
      assert IsRun(line, OpenRun(line, n));
      FinalRunCompletes(line, ClosedRuns(line, n), OpenRun(line, n));
    } else {
      assert LineRuns(line) == ClosedRuns(line, n);
    }
  }

  /** The closed runs followed by the run the end of the line closes are all the runs, in order. */
  lemma FinalRunCompletes(line: string, runs: seq<Run>, last: Run)
    requires IsRun(line, last) && last.End() == |line|
    requires forall k :: 0 <= k < |runs| ==> IsRun(line, runs[k]) && runs[k].End() < last.start
    requires forall k :: 0 <= k < |runs| - 1 ==> runs[k].End() < runs[k + 1].start
    requires forall i :: 0 <= i < last.start && line[i] != BLOCK ==>
               exists k :: 0 <= k < |runs| && runs[k].start <= i < runs[k].End()
    ensures var all := runs + [last];
      (forall k :: 0 <= k < |all| ==> IsRun(line, all[k]))
      && (forall k :: 0 <= k < |all| - 1 ==> all[k].End() < all[k + 1].start)
      && (forall i :: 0 <= i < |line| && line[i] != BLOCK ==>
            exists k :: 0 <= k < |all| && all[k].start <= i < all[k].End())
  {
    var all := runs + [last];
    forall i | 0 <= i < |line| && line[i] != BLOCK
      ensures exists k :: 0 <= k < |all| && all[k].start <= i < all[k].End()
    {
      if i < last.start {
        var k :| 0 <= k < |runs| && runs[k].start <= i < runs[k].End();
        assert all[k] == runs[k];
      } else {
        assert all[|runs|] == last;
      }
    }
  }

  // ----------------------------------------------------------------- slots

  /** A run of row `row`, as the row pass reports it. */
  function RowSlot(row: nat, run: Run): EntryLocation {
    EntryLocation(row, run.start, run.length, Across, run.prefilled)
  }

  /**
   * A run of column `col`, as the column pass reports it: `Down` only when
   * the run reaches the bottom edge; a run closed by a block is reported
   * `Across` (src/crossword.rs:103 against :120).
   */
  function ColumnSlot(col: nat, run: Run): EntryLocation {
    EntryLocation(run.start, col, run.length, if run.blocked then Across else Down, run.prefilled)
  }

  function RowSlots(row: nat, runs: seq<Run>): (r: seq<EntryLocation>)
    ensures |r| == |runs|
  {
    seq(|runs|, k requires 0 <= k < |runs| => RowSlot(row, runs[k]))
  }

  function ColumnSlots(col: nat, runs: seq<Run>): (r: seq<EntryLocation>)
    ensures |r| == |runs|
  {
    seq(|runs|, k requires 0 <= k < |runs| => ColumnSlot(col, runs[k]))
  }

  /** The slots of the first `rows` rows, row by row. */
  function AcrossPass(cw: Crossword, rows: nat): seq<EntryLocation>
    requires Shaped(cw) && rows <= cw.height
  {
    if rows == 0 then []
    else AcrossPass(cw, rows - 1) + RowSlots(rows - 1, LineRuns(Row(cw, rows - 1)))
  }

  /** The slots of the first `cols` columns, column by column. */
  function DownPass(cw: Crossword, cols: nat): seq<EntryLocation>
    requires Shaped(cw) && cols <= cw.width
  {
    if cols == 0 then []
    else DownPass(cw, cols - 1) + ColumnSlots(cols - 1, LineRuns(Column(cw, cols - 1)))
  }

  /** The slot list `get_entries` returns: the row pass, then the column pass. */
  function Entries(cw: Crossword): seq<EntryLocation>
    requires Shaped(cw)
  {
    AcrossPass(cw, cw.height) + DownPass(cw, cw.width)
  }

  lemma RowSlotsAppend(row: nat, runs: seq<Run>, run: Run)
    ensures RowSlots(row, runs + [run]) == RowSlots(row, runs) + [RowSlot(row, run)]
  {
  }

  lemma ColumnSlotsAppend(col: nat, runs: seq<Run>, run: Run)
    ensures ColumnSlots(col, runs + [run]) == ColumnSlots(col, runs) + [ColumnSlot(col, run)]
  {
  }

  /**
   * One row of the row pass of `Crossword::get_entries`: the slots row `row`
   * reports, each a maximal run of the row, all labelled `Across`.
   */
  method ScanRow(cw: Crossword, row: nat) returns (slots: seq<EntryLocation>)
    requires Shaped(cw) && row < cw.height
    ensures slots == RowSlots(row, LineRuns(Row(cw, row)))
  {
    ghost var line := Row(cw, row);
    slots := [];
    var startRow: Option<nat> := None;
    var startCol: Option<nat> := None;
    var length: nat := 0;
    var prefilled := true;
    for col := 0 to cw.width
      invariant slots == RowSlots(row, ClosedRuns(line, col))
      invariant length == OpenLength(line, col) && prefilled == OpenPrefilled(line, col)
      invariant length == 0 ==> startRow.None? && startCol.None?
      invariant length > 0 ==> startRow == Some(row) && startCol == Some(col - length)
    {
      var c := Cell(cw, row, col);
      if c != BLOCK {
        // A white square or a letter.
        if startRow.None? {
          startRow := Some(row);
          startCol := Some(col);
        }
        length := length + 1;
        prefilled := prefilled && c != BLANK;
      } else if startRow.Some? {
        // A block closes the open run.
        RowSlotsAppend(row, ClosedRuns(line, col), OpenRun(line, col).(blocked := true));
        var newEntry := EntryLocation(startRow.value, startCol.value, length, Across, prefilled);
        slots := slots + [newEntry];
        startRow, startCol, length, prefilled := None, None, 0, true;
      }
    }
    // The end of the row closes the open run.
    if length > 0 {
      RowSlotsAppend(row, ClosedRuns(line, |line|), OpenRun(line, |line|));
      var newEntry := EntryLocation(startRow.value, startCol.value, length, Across, prefilled);
      slots := slots + [newEntry];
    }
  }

  /**
   * One column of the column pass: the slots column `col` reports, each a
   * maximal run of the column; only a run that reaches the bottom edge is
   * labelled `Down`.
   */
  method ScanColumn(cw: Crossword, col: nat) returns (slots: seq<EntryLocation>)
    requires Shaped(cw) && col < cw.width
    ensures slots == ColumnSlots(col, LineRuns(Column(cw, col)))
  {
    ghost var line := Column(cw, col);
    slots := [];
    var startRow: Option<nat> := None;
    var startCol: Option<nat> := None;
    var length: nat := 0;
    var prefilled := true;
    for row := 0 to cw.height
      invariant slots == ColumnSlots(col, ClosedRuns(line, row))
      invariant length == OpenLength(line, row) && prefilled == OpenPrefilled(line, row)
      invariant length == 0 ==> startRow.None? && startCol.None?
      invariant length > 0 ==> startRow == Some(row - length) && startCol == Some(col)
    {
      var c := Cell(cw, row, col);
      if c != BLOCK {
        // A white square or a letter.
        if startRow.None? {
          startRow := Some(row);
          startCol := Some(col);
        }
        length := length + 1;
        prefilled := prefilled && c != BLANK;
      } else if startRow.Some? {
        // A block closes the open run, which this pass labels Across.
        ColumnSlotsAppend(col, ClosedRuns(line, row), OpenRun(line, row).(blocked := true));
        var newEntry := EntryLocation(startRow.value, startCol.value, length, Across, prefilled);
        slots := slots + [newEntry];
        startRow, startCol, length, prefilled := None, None, 0, true;
      }
    }
    // The end of the column closes the open run.
    if length > 0 {
      ColumnSlotsAppend(col, ClosedRuns(line, |line|), OpenRun(line, |line|));
      var newEntry := EntryLocation(startRow.value, startCol.value, length, Down, prefilled);
      slots := slots + [newEntry];
    }
  }

  /** Appending one column's slots to the slot list extends the column pass by that column. */
  lemma DownPassStep(cw: Crossword, col: nat, result: seq<EntryLocation>, slots: seq<EntryLocation>)
    requires Shaped(cw) && col < cw.width
    requires result == AcrossPass(cw, cw.height) + DownPass(cw, col)
    requires slots == ColumnSlots(col, LineRuns(Column(cw, col)))
    ensures result + slots == AcrossPass(cw, cw.height) + DownPass(cw, col + 1)
  {
  }

  /** `Crossword::get_entries`: the row pass, then the column pass. */
  method GetEntries(cw: Crossword) returns (result: seq<EntryLocation>)
    requires WellFormed(cw)
    ensures result == Entries(cw)
  {
    result := [];
    for row := 0 to cw.height
      invariant result == AcrossPass(cw, row)
    {
      var slots := ScanRow(cw, row);
      assert AcrossPass(cw, row + 1) == AcrossPass(cw, row) + slots;
      result := result + slots;
    }
    for col := 0 to cw.width
      invariant result == AcrossPass(cw, cw.height) + DownPass(cw, col)
    {
      var slots := ScanColumn(cw, col);
      DownPassStep(cw, col, result, slots);
      result := result + slots;
    }
  }

  // ------------------------------------------------- what the slots are

  /** Two maximal runs of a line that share their first cell are the same run. */
  lemma RunsOverlapEqual(line: string, a: Run, b: Run)
    requires IsRun(line, a) && IsRun(line, b) && a.start <= b.start < a.End()
    ensures a == b
  {
  }

  /** `LineRuns` misses no maximal run. */
  lemma LineRunsComplete(line: string, run: Run)
    requires IsRun(line, run)
    ensures run in LineRuns(line)
  {
    var runs := LineRuns(line);
    assert line[run.start] != BLOCK;
    LineRunsAreMaximalRuns(line);
    var k :| 0 <= k < |runs| && runs[k].start <= run.start < runs[k].End();
    assert IsRun(line, runs[k]);
    RunsOverlapEqual(line, runs[k], run);
  }

  /** `e` is the slot of a maximal run of row `e.startRow`, as the row pass reports it. */
  predicate IsRowSlot(cw: Crossword, e: EntryLocation)
    requires Shaped(cw)
  {
    e.startRow < cw.height && e.direction == Across
    && IsRun(Row(cw, e.startRow), Run(e.startCol, e.length, e.prefilled, e.startCol + e.length < cw.width))
  }

  /**
   * `e` is the slot of a maximal run of column `e.startCol`, as the column
   * pass reports it: labelled `Down` only when the run reaches the bottom edge.
   */
  predicate IsColumnSlot(cw: Crossword, e: EntryLocation)
    requires Shaped(cw)
  {
    var blocked := e.startRow + e.length < cw.height;
    e.startCol < cw.width && e.direction == (if blocked then Across else Down)
    && IsRun(Column(cw, e.startCol), Run(e.startRow, e.length, e.prefilled, blocked))
  }

  lemma RowSlotsOfRow(cw: Crossword, row: nat)
    requires Shaped(cw) && row < cw.height
    ensures forall e :: e in RowSlots(row, LineRuns(Row(cw, row))) <==> IsRowSlot(cw, e) && e.startRow == row
  {
    var line := Row(cw, row);
    var runs := LineRuns(line);
    var slots := RowSlots(row, runs);
    LineRunsAreMaximalRuns(line);
    forall e | e in slots
      ensures IsRowSlot(cw, e) && e.startRow == row
    {
      var k :| 0 <= k < |slots| && slots[k] == e;
      assert IsRun(line, runs[k]);
    }
    forall e | IsRowSlot(cw, e) && e.startRow == row
      ensures e in slots
    {
      var run := Run(e.startCol, e.length, e.prefilled, e.startCol + e.length < cw.width);
      LineRunsComplete(line, run);
      var k :| 0 <= k < |runs| && runs[k] == run;
      assert slots[k] == e;
    }
  }

  lemma ColumnSlotsOfColumn(cw: Crossword, col: nat)
    requires Shaped(cw) && col < cw.width
    ensures forall e :: e in ColumnSlots(col, LineRuns(Column(cw, col))) <==> IsColumnSlot(cw, e) && e.startCol == col
  {
    var line := Column(cw, col);
    var runs := LineRuns(line);
    var slots := ColumnSlots(col, runs);
    LineRunsAreMaximalRuns(line);
    forall e | e in slots
      ensures IsColumnSlot(cw, e) && e.startCol == col
    {
      var k :| 0 <= k < |slots| && slots[k] == e;
      assert IsRun(line, runs[k]);
    }
    forall e | IsColumnSlot(cw, e) && e.startCol == col
      ensures e in slots
    {
      var run := Run(e.startRow, e.length, e.prefilled, e.startRow + e.length < cw.height);
      LineRunsComplete(line, run);
      var k :| 0 <= k < |runs| && runs[k] == run;
      assert slots[k] == e;
    }
  }

  lemma {:induction false} AcrossPassSlots(cw: Crossword, rows: nat)
    requires Shaped(cw) && rows <= cw.height
    ensures forall e :: e in AcrossPass(cw, rows) <==> IsRowSlot(cw, e) && e.startRow < rows
  {
    if rows > 0 {
      AcrossPassSlots(cw, rows - 1);
      RowSlotsOfRow(cw, rows - 1);
    }
  }

  lemma {:induction false} DownPassSlots(cw: Crossword, cols: nat)
    requires Shaped(cw) && cols <= cw.width
    ensures forall e :: e in DownPass(cw, cols) <==> IsColumnSlot(cw, e) && e.startCol < cols
  {
    if cols > 0 {
      DownPassSlots(cw, cols - 1);
      ColumnSlotsOfColumn(cw, cols - 1);
    }
  }

  /**
   * `get_entries` reports exactly the maximal runs: its row pass lists the
   * slot of every maximal run of every row and nothing else, its column pass
   * the slot of every maximal run of every column and nothing else.
   */
  lemma EntriesAreSlots(cw: Crossword)
    requires Shaped(cw)
    ensures forall e :: e in AcrossPass(cw, cw.height) <==> IsRowSlot(cw, e)
    ensures forall e :: e in DownPass(cw, cw.width) <==> IsColumnSlot(cw, e)
  {
    AcrossPassSlots(cw, cw.height);
    DownPassSlots(cw, cw.width);
  }

  // ------------------------------------------------ reading a slot's cells

  /** The position in `contents` of the `i`-th cell of `e`, as `EntryIterator::next` computes it. */
  function CharIndex(cw: Crossword, e: EntryLocation, i: nat): nat {
    match e.direction
    case Across => e.startRow * cw.width + e.startCol + i
    case Down => (e.startRow + i) * cw.width + e.startCol
  }

  /** Every cell `EntryIterator::next` reads for `e` lies inside the grid. */
  predicate InBounds(cw: Crossword, e: EntryLocation) {
    forall i :: 0 <= i < e.length ==> CharIndex(cw, e, i) < |cw.contents|
  }

  /** The characters an `EntryIterator` over `e` yields, in order. */
  function Projection(cw: Crossword, e: EntryLocation): (r: string)
    requires InBounds(cw, e)
    ensures |r| == e.length
  {
    seq(e.length, i requires 0 <= i < e.length => cw.contents[CharIndex(cw, e, i)])
  }

  /** A row slot is read along its row: it yields exactly the cells of its run. */
  lemma RowSlotProjection(cw: Crossword, e: EntryLocation)
    requires Shaped(cw) && IsRowSlot(cw, e)
    ensures InBounds(cw, e)
    ensures Projection(cw, e) == Row(cw, e.startRow)[e.startCol .. e.startCol + e.length]
  {
    forall i | 0 <= i < e.length
      ensures CharIndex(cw, e, i) < |cw.contents|
      ensures cw.contents[CharIndex(cw, e, i)] == Row(cw, e.startRow)[e.startCol + i]
    {
      CellIndexInBounds(cw.width, cw.height, e.startRow, e.startCol + i);
    }
  }

  /** `e` is labelled `Down` and stands for a maximal run of column `e.startCol`. */
  predicate IsDownSlot(cw: Crossword, e: EntryLocation)
    requires Shaped(cw)
  {
    e.startCol < cw.width && e.direction == Down
    && IsRun(Column(cw, e.startCol), Run(e.startRow, e.length, e.prefilled, e.startRow + e.length < cw.height))
  }

  /** A slot labelled `Down` is read down its column: it yields exactly the cells of its run. */
  lemma DownSlotProjection(cw: Crossword, e: EntryLocation)
    requires Shaped(cw) && IsDownSlot(cw, e)
    ensures InBounds(cw, e)
    ensures Projection(cw, e) == Column(cw, e.startCol)[e.startRow .. e.startRow + e.length]
  {
    forall i | 0 <= i < e.length
      ensures CharIndex(cw, e, i) < |cw.contents|
      ensures cw.contents[CharIndex(cw, e, i)] == Column(cw, e.startCol)[e.startRow + i]
    {
      CellIndexInBounds(cw.width, cw.height, e.startRow + i, e.startCol);
    }
  }

  /**
   * A column slot that a block closes is labelled `Across`, so it is read
   * along row `e.startRow` from column `e.startCol`; those cells still lie
   * inside the grid, because the block below the run leaves at least one row
   * for the read to run into.
   */
  lemma BlockedColumnSlotInBounds(cw: Crossword, e: EntryLocation)
    requires Shaped(cw) && IsColumnSlot(cw, e) && e.direction == Across
    ensures InBounds(cw, e)
  {
    forall i | 0 <= i < e.length
      ensures CharIndex(cw, e, i) < |cw.contents|
    {
      ReadBelowBlockFits(cw.width, cw.height, e.startRow, e.startCol, e.length, i);
    }
  }

  lemma ReadBelowBlockFits(w: nat, h: nat, r: nat, c: nat, len: nat, i: nat)
    requires c < w && r + len < h && i < len
    ensures r * w + c + i < w * h
  {
    var d := h - r - 1;
    assert w * h == (r + 1) * w + d * w;
    assert d * w >= d;
  }

  /** Every slot `get_entries` reports can be read without leaving the grid. */
  lemma EntriesInBounds(cw: Crossword)
    requires Shaped(cw)
    ensures forall e :: e in Entries(cw) ==> InBounds(cw, e)
  {
    EntriesAreSlots(cw);
    forall e | e in Entries(cw)
      ensures InBounds(cw, e)
    {
      if IsRowSlot(cw, e) {
        RowSlotProjection(cw, e);
      } else if e.direction == Down {
        DownSlotProjection(cw, e);
      } else {
        BlockedColumnSlotInBounds(cw, e);
      }
    }
  }

  /** `EntryIterator`: reads the characters of one slot of a grid, one per call to `Next`. */
  class EntryIterator {
    const crossword: Crossword
    const entryLocation: EntryLocation
    var index: nat

    ghost predicate Valid()
      reads this
    {
      InBounds(crossword, entryLocation) && index <= entryLocation.length
    }

    /** Characters `Next` has not yielded yet. */
    ghost function Remaining(): string
      reads this
      requires Valid()
    {
      Projection(crossword, entryLocation)[index..]
    }

    constructor (crossword: Crossword, entryLocation: EntryLocation)
      requires InBounds(crossword, entryLocation)
      ensures Valid() && this.crossword == crossword && this.entryLocation == entryLocation
      ensures index == 0 && Remaining() == Projection(crossword, entryLocation)
    {
      this.crossword := crossword;
      this.entryLocation := entryLocation;
      index := 0;
    }

    /** `EntryIterator::next`: the next character of the slot, `None` once all are read. */
    method Next() returns (c: Option<char>)
      requires Valid()
      modifies this
      ensures Valid()
      ensures old(index) == entryLocation.length ==> c == None && index == old(index)
      ensures old(index) < entryLocation.length ==>
                c == Some(old(Remaining())[0]) && Remaining() == old(Remaining())[1..]
                && index == old(index) + 1
    {
      if index >= entryLocation.length {
        return None;
      }
      var charIndex := CharIndex(crossword, entryLocation, index);
      index := index + 1;
      c := Some(crossword.contents[charIndex]);
    }
  }

  /** Drains an `EntryIterator` into a string, as `collect::<String>()` does. */
  method CollectEntry(cw: Crossword, e: EntryLocation) returns (s: string)
    requires InBounds(cw, e)
    ensures s == Projection(cw, e)
  {
    var it := new EntryIterator(cw, e);
    s := [];
    while true
      invariant it.Valid() && it.crossword == cw && it.entryLocation == e
      invariant s == Projection(cw, e)[..it.index]
      decreases e.length - it.index
    {
      var c := it.Next();
      if c.None? {
        break;
      }
      s := s + [c.value];
    }
  }

  // ------------------------------------- the column pass's labels, corrected

  /** The column pass as evidently intended: every column slot labelled `Down`. */
  function Relabel(slots: seq<EntryLocation>): (r: seq<EntryLocation>)
    ensures |r| == |slots|
  {
    seq(|slots|, k requires 0 <= k < |slots| => slots[k].(direction := Down))
  }

  /** The slot list with every column slot labelled `Down`. */
  function IntendedEntries(cw: Crossword): seq<EntryLocation>
    requires Shaped(cw)
  {
    AcrossPass(cw, cw.height) + Relabel(DownPass(cw, cw.width))
  }

  /** With the labels corrected, the column pass reports exactly the column runs, each labelled `Down`. */
  lemma IntendedDownSlots(cw: Crossword)
    requires Shaped(cw)
    ensures forall e :: e in Relabel(DownPass(cw, cw.width)) <==> IsDownSlot(cw, e)
  {
    var down := DownPass(cw, cw.width);
    var relabelled := Relabel(down);
    EntriesAreSlots(cw);
    forall e | e in relabelled
      ensures IsDownSlot(cw, e)
    {
      var k :| 0 <= k < |relabelled| && relabelled[k] == e;
      assert IsColumnSlot(cw, down[k]);
    }
    forall e | IsDownSlot(cw, e)
      ensures e in relabelled
    {
      var f := e.(direction := if e.startRow + e.length < cw.height then Across else Down);
      assert IsColumnSlot(cw, f);
      var k :| 0 <= k < |down| && down[k] == f;
      assert relabelled[k] == e;
    }
  }

  /**
   * What an `EntryIterator` over `e` is for: it yields exactly the cells of
   * the run `e` stands for, along its row or down its column.
   */
  predicate ReadsOwnRun(cw: Crossword, e: EntryLocation)
    requires Shaped(cw)
  {
    InBounds(cw, e)
    && ((IsRowSlot(cw, e) && Projection(cw, e) == Row(cw, e.startRow)[e.startCol .. e.startCol + e.length])
        || (IsDownSlot(cw, e) && Projection(cw, e) == Column(cw, e.startCol)[e.startRow .. e.startRow + e.length]))
  }

  /** The corrected slot list keeps that promise for every slot. */
  lemma IntendedEntriesReadRuns(cw: Crossword)
    requires Shaped(cw)
    ensures forall e :: e in IntendedEntries(cw) ==> ReadsOwnRun(cw, e)
  {
    EntriesAreSlots(cw);
    IntendedDownSlots(cw);
    forall e | e in IntendedEntries(cw)
      ensures ReadsOwnRun(cw, e)
    {
      if e in AcrossPass(cw, cw.height) {
        RowSlotProjection(cw, e);
      } else {
        DownSlotProjection(cw, e);
      }
    }
  }

  // ---------------------------------------------------- the sample grid

  /** The 5 x 5 grid of the repository's tests: one block, one blank. */
  const SAMPLE: Crossword := Crossword("ABCDEFGHIJK*MNOPQRSTUVWX ", 5, 5)

  /** The tests build the sample grid by parsing its 25 cells, given on one line. */
  lemma SampleParses()
    ensures IsAscii(SAMPLE.contents) && FromString(SAMPLE.contents, 5, 5) == Ok(SAMPLE)
  {
    FromStringOneLine(SAMPLE.contents, 5, 5);
  }

  /** The slots the row pass reports on the sample grid. */
  const SAMPLE_ACROSS: seq<EntryLocation> := [
    EntryLocation(0, 0, 5, Across, true),
    EntryLocation(1, 0, 5, Across, true),
    EntryLocation(2, 0, 1, Across, true),
    EntryLocation(2, 2, 3, Across, true),
    EntryLocation(3, 0, 5, Across, true),
    EntryLocation(4, 0, 5, Across, false)]

  /** The slots the column pass reports on the sample grid; the run the block closes is labelled `Across`. */
  const SAMPLE_DOWN: seq<EntryLocation> := [
    EntryLocation(0, 0, 5, Down, true),
    EntryLocation(0, 1, 2, Across, true),
    EntryLocation(3, 1, 2, Down, true),
    EntryLocation(0, 2, 5, Down, true),
    EntryLocation(0, 3, 5, Down, true),
    EntryLocation(0, 4, 5, Down, false)]

  lemma SampleRow0()
    ensures Shaped(SAMPLE) && Row(SAMPLE, 0) == "ABCDE"
  {
    var line := Row(SAMPLE, 0);
    assert line[0] == 'A' && line[1] == 'B' && line[2] == 'C' && line[3] == 'D' && line[4] == 'E';
  }

  lemma SampleRow1()
    ensures Shaped(SAMPLE) && Row(SAMPLE, 1) == "FGHIJ"
  {
    var line := Row(SAMPLE, 1);
    assert line[0] == 'F' && line[1] == 'G' && line[2] == 'H' && line[3] == 'I' && line[4] == 'J';
  }

  lemma SampleRow2()
    ensures Shaped(SAMPLE) && Row(SAMPLE, 2) == "K*MNO"
  {
    var line := Row(SAMPLE, 2);
    assert line[0] == 'K' && line[1] == BLOCK && line[2] == 'M' && line[3] == 'N' && line[4] == 'O';
  }

  lemma SampleRow3()
    ensures Shaped(SAMPLE) && Row(SAMPLE, 3) == "PQRST"
  {
    var line := Row(SAMPLE, 3);
    assert line[0] == 'P' && line[1] == 'Q' && line[2] == 'R' && line[3] == 'S' && line[4] == 'T';
  }

  lemma SampleRow4()
    ensures Shaped(SAMPLE) && Row(SAMPLE, 4) == "UVWX "
  {
    var line := Row(SAMPLE, 4);
    assert line[0] == 'U' && line[1] == 'V' && line[2] == 'W' && line[3] == 'X' && line[4] == BLANK;
  }

  lemma SampleColumn0()
    ensures Shaped(SAMPLE) && Column(SAMPLE, 0) == "AFKPU"
  {
    var line := Column(SAMPLE, 0);
    assert line[0] == 'A' && line[1] == 'F' && line[2] == 'K' && line[3] == 'P' && line[4] == 'U';
  }

  lemma SampleColumn1()
    ensures Shaped(SAMPLE) && Column(SAMPLE, 1) == "BG*QV"
  {
    var line := Column(SAMPLE, 1);
    assert line[0] == 'B' && line[1] == 'G' && line[2] == BLOCK && line[3] == 'Q' && line[4] == 'V';
  }

  lemma SampleColumn2()
    ensures Shaped(SAMPLE) && Column(SAMPLE, 2) == "CHMRW"
  {
    var line := Column(SAMPLE, 2);
    assert line[0] == 'C' && line[1] == 'H' && line[2] == 'M' && line[3] == 'R' && line[4] == 'W';
  }

  lemma SampleColumn3()
    ensures Shaped(SAMPLE) && Column(SAMPLE, 3) == "DINSX"
  {
    var line := Column(SAMPLE, 3);
    assert line[0] == 'D' && line[1] == 'I' && line[2] == 'N' && line[3] == 'S' && line[4] == 'X';
  }

  lemma SampleColumn4()
    ensures Shaped(SAMPLE) && Column(SAMPLE, 4) == "EJOT "
  {
    var line := Column(SAMPLE, 4);
    assert line[0] == 'E' && line[1] == 'J' && line[2] == 'O' && line[3] == 'T' && line[4] == BLANK;
  }

  /** The runs of the sample rows: one run each, except around the block. */
  lemma SampleRowRuns()
    ensures LineRuns("ABCDE") == [Run(0, 5, true, false)]
    ensures LineRuns("FGHIJ") == [Run(0, 5, true, false)]
    ensures LineRuns("K*MNO") == [Run(0, 1, true, true), Run(2, 3, true, false)]
    ensures LineRuns("PQRST") == [Run(0, 5, true, false)]
    ensures LineRuns("UVWX ") == [Run(0, 5, false, false)]
  {
    assert OpenLength("K*MNO", 1) == 1;
    assert ClosedRuns("K*MNO", 2) == [Run(0, 1, true, true)];
    assert ClosedRuns("K*MNO", 5) == [Run(0, 1, true, true)];
  }

  /** The runs of the sample columns: one run each, except around the block. */
  lemma SampleColumnRuns()
    ensures LineRuns("AFKPU") == [Run(0, 5, true, false)]
    ensures LineRuns("BG*QV") == [Run(0, 2, true, true), Run(3, 2, true, false)]
    ensures LineRuns("CHMRW") == [Run(0, 5, true, false)]
    ensures LineRuns("DINSX") == [Run(0, 5, true, false)]
    ensures LineRuns("EJOT ") == [Run(0, 5, false, false)]
  {
    assert OpenLength("BG*QV", 2) == 2;
    assert ClosedRuns("BG*QV", 3) == [Run(0, 2, true, true)];
    assert ClosedRuns("BG*QV", 5) == [Run(0, 2, true, true)];
  }

  lemma RowSlotsOfOne(row: nat, run: Run)
    ensures RowSlots(row, [run]) == [RowSlot(row, run)]
  {
  }

  lemma RowSlotsOfTwo(row: nat, run: Run, run': Run)
    ensures RowSlots(row, [run, run']) == [RowSlot(row, run), RowSlot(row, run')]
  {
  }

  lemma ColumnSlotsOfOne(col: nat, run: Run)
    ensures ColumnSlots(col, [run]) == [ColumnSlot(col, run)]
  {
  }

  lemma ColumnSlotsOfTwo(col: nat, run: Run, run': Run)
    ensures ColumnSlots(col, [run, run']) == [ColumnSlot(col, run), ColumnSlot(col, run')]
  {
  }

  /** The first three rows of the row pass over a grid whose rows are those of the sample. */
  lemma RowsAcrossPassTop(cw: Crossword)
    requires Shaped(cw) && cw.height == 5
    requires Row(cw, 0) == "ABCDE" && Row(cw, 1) == "FGHIJ" && Row(cw, 2) == "K*MNO"
    ensures AcrossPass(cw, 3) == SAMPLE_ACROSS[..4]
  {
    SampleRowRuns();
    RowSlotsOfOne(0, Run(0, 5, true, false));
    RowSlotsOfOne(1, Run(0, 5, true, false));
    RowSlotsOfTwo(2, Run(0, 1, true, true), Run(2, 3, true, false));
    assert AcrossPass(cw, 1) == SAMPLE_ACROSS[..1];
    assert AcrossPass(cw, 2) == SAMPLE_ACROSS[..2];
  }

  /** The row pass over a grid whose five rows are those of the sample. */
  lemma RowsAcrossPass(cw: Crossword)
    requires Shaped(cw) && cw.height == 5
    requires Row(cw, 0) == "ABCDE" && Row(cw, 1) == "FGHIJ" && Row(cw, 2) == "K*MNO"
    requires Row(cw, 3) == "PQRST" && Row(cw, 4) == "UVWX "
    ensures AcrossPass(cw, 5) == SAMPLE_ACROSS
  {
    RowsAcrossPassTop(cw);
    SampleRowRuns();
    RowSlotsOfOne(3, Run(0, 5, true, false));
    RowSlotsOfOne(4, Run(0, 5, false, false));
    assert AcrossPass(cw, 4) == SAMPLE_ACROSS[..5];
  }

  /** The first three columns of the column pass over a grid whose columns are those of the sample. */
  lemma ColumnsDownPassLeft(cw: Crossword)
    requires Shaped(cw) && cw.width == 5
    requires Column(cw, 0) == "AFKPU" && Column(cw, 1) == "BG*QV" && Column(cw, 2) == "CHMRW"
    ensures DownPass(cw, 3) == SAMPLE_DOWN[..4]
  {
    SampleColumnRuns();
    ColumnSlotsOfOne(0, Run(0, 5, true, false));
    ColumnSlotsOfTwo(1, Run(0, 2, true, true), Run(3, 2, true, false));
    ColumnSlotsOfOne(2, Run(0, 5, true, false));
    assert DownPass(cw, 1) == SAMPLE_DOWN[..1];
    assert DownPass(cw, 2) == SAMPLE_DOWN[..3];
  }

  /** The column pass over a grid whose five columns are those of the sample. */
  lemma ColumnsDownPass(cw: Crossword)
    requires Shaped(cw) && cw.width == 5
    requires Column(cw, 0) == "AFKPU" && Column(cw, 1) == "BG*QV" && Column(cw, 2) == "CHMRW"
    requires Column(cw, 3) == "DINSX" && Column(cw, 4) == "EJOT "
    ensures DownPass(cw, 5) == SAMPLE_DOWN
  {
    ColumnsDownPassLeft(cw);
    SampleColumnRuns();
    ColumnSlotsOfOne(3, Run(0, 5, true, false));
    ColumnSlotsOfOne(4, Run(0, 5, false, false));
    assert DownPass(cw, 4) == SAMPLE_DOWN[..5];
  }

  /** The row pass over the sample grid. */
  lemma SampleAcrossPass()
    ensures Shaped(SAMPLE) && AcrossPass(SAMPLE, 5) == SAMPLE_ACROSS
  {
    SampleRow0();
    SampleRow1();
    SampleRow2();
    SampleRow3();
    SampleRow4();
    RowsAcrossPass(SAMPLE);
  }

  /** The column pass over the sample grid. */
  lemma SampleDownPass()
    ensures Shaped(SAMPLE) && DownPass(SAMPLE, 5) == SAMPLE_DOWN
  {
    SampleColumn0();
    SampleColumn1();
    SampleColumn2();
    SampleColumn3();
    SampleColumn4();
    ColumnsDownPass(SAMPLE);
  }

  /** The slots of a grid whose two passes report what they report on the sample grid. */
  lemma SlotsOfSamplePasses(cw: Crossword)
    requires Shaped(cw) && AcrossPass(cw, cw.height) == SAMPLE_ACROSS && DownPass(cw, cw.width) == SAMPLE_DOWN
    ensures |Entries(cw)| == 12 && !Entries(cw)[11].prefilled
    ensures Entries(cw)[0] == EntryLocation(0, 0, 5, Across, true)
    ensures Entries(cw)[7] == EntryLocation(0, 1, 2, Across, true)
    ensures |IntendedEntries(cw)| == 12 && IntendedEntries(cw)[7] == EntryLocation(0, 1, 2, Down, true)
  {
    assert Entries(cw) == SAMPLE_ACROSS + SAMPLE_DOWN;
    assert Relabel(SAMPLE_DOWN)[1] == EntryLocation(0, 1, 2, Down, true);
  }

  /** The repository's `get_entries` test: 12 slots, the last of them not prefilled. */
  lemma SampleEntryCount()
    ensures Shaped(SAMPLE)
    ensures |Entries(SAMPLE)| == 12 && !Entries(SAMPLE)[11].prefilled
  {
    SampleAcrossPass();
    SampleDownPass();
    SlotsOfSamplePasses(SAMPLE);
  }

  /** The cells read for the first across slot of the sample grid. */
  lemma SampleTopRowReads()
    ensures InBounds(SAMPLE, EntryLocation(0, 0, 5, Across, true))
    ensures Projection(SAMPLE, EntryLocation(0, 0, 5, Across, true)) == "ABCDE"
  {
    var p := Projection(SAMPLE, EntryLocation(0, 0, 5, Across, true));
    assert p[0] == 'A' && p[1] == 'B' && p[2] == 'C' && p[3] == 'D' && p[4] == 'E';
  }

  /** The repository's `get_entry_iterator` test: the first slot reads "ABCDE". */
  lemma SampleFirstEntryReads()
    ensures Shaped(SAMPLE) && |Entries(SAMPLE)| > 0 && InBounds(SAMPLE, Entries(SAMPLE)[0])
    ensures Projection(SAMPLE, Entries(SAMPLE)[0]) == "ABCDE"
  {
    SampleAcrossPass();
    SampleDownPass();
    SlotsOfSamplePasses(SAMPLE);
    SampleTopRowReads();
  }

  /**
   * Slot 7 of the sample grid stands for the run "BG" of column 1, which the
   * block closes, and the column pass labels it `Across`.
   */
  lemma SampleColumnMislabelled()
    ensures Shaped(SAMPLE) && |Entries(SAMPLE)| > 7
    ensures Entries(SAMPLE)[7] == EntryLocation(0, 1, 2, Across, true)
    ensures Column(SAMPLE, 1)[0..2] == "BG"
  {
    SampleAcrossPass();
    SampleDownPass();
    SlotsOfSamplePasses(SAMPLE);
    SampleShortColumn();
  }

  /** The first two cells of column 1 are "BG". */
  lemma SampleShortColumn()
    ensures Shaped(SAMPLE) && Column(SAMPLE, 1)[0..2] == "BG"
  {
    SampleColumn1();
  }

  /** An iterator over that slot reads "BC" along row 0, which is no run of the grid: the slot does not read its run. */
  lemma SampleMislabelledSlotReads()
    ensures Shaped(SAMPLE) && InBounds(SAMPLE, EntryLocation(0, 1, 2, Across, true))
    ensures Projection(SAMPLE, EntryLocation(0, 1, 2, Across, true)) == "BC"
    ensures !ReadsOwnRun(SAMPLE, EntryLocation(0, 1, 2, Across, true))
  {
    var p := Projection(SAMPLE, EntryLocation(0, 1, 2, Across, true));
    assert p[0] == 'B' && p[1] == 'C';
    SampleRow0();
    assert "ABCDE"[0] != BLOCK;
  }

  /** The cells read for the run "BG" of column 1, labelled `Down`. */
  lemma SampleShortColumnReads()
    ensures InBounds(SAMPLE, EntryLocation(0, 1, 2, Down, true))
    ensures Projection(SAMPLE, EntryLocation(0, 1, 2, Down, true)) == "BG"
  {
    var p := Projection(SAMPLE, EntryLocation(0, 1, 2, Down, true));
    assert p[0] == 'B' && p[1] == 'G';
  }

  /** "BG" is the run the block closes in column 1. */
  lemma SampleShortColumnRun()
    ensures IsRun("BG*QV", Run(0, 2, true, true))
  {
    assert "BG*QV"[0] == 'B' && "BG*QV"[1] == 'G' && "BG*QV"[2] == BLOCK;
  }

  /** Labelled `Down`, the run "BG" of column 1 is a slot that reads its run. */
  lemma SampleShortColumnReadsOwnRun()
    ensures Shaped(SAMPLE) && ReadsOwnRun(SAMPLE, EntryLocation(0, 1, 2, Down, true))
  {
    SampleShortColumn();
    SampleColumn1();
    SampleShortColumnRun();
    SampleShortColumnReads();
  }

  /** With the labels corrected, slot 7 is a `Down` slot that reads its run "BG". */
  lemma SampleColumnIntended()
    ensures Shaped(SAMPLE) && |IntendedEntries(SAMPLE)| > 7
    ensures IntendedEntries(SAMPLE)[7] == EntryLocation(0, 1, 2, Down, true)
    ensures ReadsOwnRun(SAMPLE, IntendedEntries(SAMPLE)[7])
    ensures Projection(SAMPLE, IntendedEntries(SAMPLE)[7]) == "BG"
  {
    SampleAcrossPass();
    SampleDownPass();
    SlotsOfSamplePasses(SAMPLE);
    SampleShortColumnReadsOwnRun();
    SampleShortColumnReads();
  }
}
