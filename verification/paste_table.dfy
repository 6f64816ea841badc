/** The editor's paste handler for Markdown tables: the clipboard text is cut
    into lines, separator lines are dropped, each remaining line is cut into
    cells at `|`, and a table is inserted whose first parsed line (if it has
    cells) is the header row. */
module PasteTable {
  import opened Wrappers
  import opened Text

  /** One table row as inserted: header cells or body cells. */
  datatype Row = Row(isHeader: bool, cells: seq<string>)

  /** The handler's answer: `false` (the editor pastes normally) or one table inserted. */
  datatype Paste = NotHandled | Inserted(rows: seq<Row>)

  /** A piece kept by the parser: non-empty, trimmed, free of `sep`. */
  predicate CleanPiece(p: string, sep: char) {
    p != "" && IsTrimmed(p) && sep !in p
  }

  /** Trims every part and drops the ones that become empty, keeping order. */
  function TrimNonBlank(parts: seq<string>, sep: char): (r: seq<string>)
    requires forall i :: 0 <= i < |parts| ==> sep !in parts[i]
    ensures |r| <= |parts|
    ensures forall i :: 0 <= i < |r| ==> CleanPiece(r[i], sep)
  {
    if |parts| == 0 then []
    else
      var t := Trim(parts[0]);
      TrimLacks(parts[0], sep);
      var rest := TrimNonBlank(parts[1..], sep);
      if t == "" then rest else [t] + rest
  }

  lemma TrimLacks(s: string, c: char)
    requires c !in s
    ensures c !in Trim(s)
  {
    TrimIsSlice(s);
  }

  /** The clipboard text cut at line feeds, each line trimmed, blank lines dropped. */
  function Lines(text: string): (r: seq<string>)
    ensures forall i :: 0 <= i < |r| ==> CleanPiece(r[i], '\n')
  {
    TrimNonBlank(Split(text, '\n'), '\n')
  }

  /** The characters of the class `[\s-|]`. */
  predicate SeparatorChar(c: char) {
    IsSpace(c) || c == '-' || c == '|'
  }

  /** The line matches `^\|[\s-|]+\|$`. */
  predicate IsSeparator(line: string) {
    && |line| >= 3
    && line[0] == '|'
    && line[|line| - 1] == '|'
    && forall i :: 1 <= i < |line| - 1 ==> SeparatorChar(line[i])
  }

  /** The cells of one line: cut at `|`, trimmed, empty cells dropped. */
  function Cells(line: string): (r: seq<string>)
    ensures forall i :: 0 <= i < |r| ==> CleanPiece(r[i], '|')
  {
    TrimNonBlank(Split(line, '|'), '|')
  }

  function DropSeparators(lines: seq<string>): (r: seq<string>)
    ensures |r| <= |lines|
    ensures forall i :: 0 <= i < |r| ==> !IsSeparator(r[i]) && r[i] in lines
  {
    if |lines| == 0 then []
    else if IsSeparator(lines[0]) then DropSeparators(lines[1..])
    else [lines[0]] + DropSeparators(lines[1..])
  }

  /** The cell lists of the lines that are not separators. */
  function TableData(lines: seq<string>): (r: seq<seq<string>>)
    ensures forall i, j :: 0 <= i < |r| && 0 <= j < |r[i]| ==> CleanPiece(r[i][j], '|')
  {
    var kept := DropSeparators(lines);
    seq(|kept|, i requires 0 <= i < |kept| => Cells(kept[i]))
  }

  /** The rows built from the parsed lines, `first` being the index of `data[0]`
      among all parsed lines: only index 0 makes header cells, and lines without
      cells make no row. */
  function BuildRows(data: seq<seq<string>>, first: nat): (r: seq<Row>)
    ensures |r| <= |data|
    ensures forall i :: 0 <= i < |r| ==> |r[i].cells| > 0
    ensures forall i :: 0 <= i < |r| && r[i].isHeader ==> i == 0 && first == 0 && r[i].cells == data[0]
    ensures forall i :: 0 <= i < |r| ==> r[i].cells in data
  {
    if |data| == 0 then []
    else
      var rest := BuildRows(data[1..], first + 1);
      if |data[0]| > 0 then [Row(first == 0, data[0])] + rest else rest
  }

  function ContainsPipe(lines: seq<string>): bool {
    exists i :: 0 <= i < |lines| && '|' in lines[i]
  }

  /** `handlePaste`; `clipboard` is `None` when the event carries no clipboard data. */
  function HandlePaste(clipboard: Option<string>): (r: Paste)
    ensures clipboard.None? ==> r == NotHandled
    ensures clipboard.Some? && !ContainsPipe(Lines(clipboard.value)) ==> r == NotHandled
    ensures r.Inserted? ==> |r.rows| > 0
    ensures r.Inserted? ==> forall i :: 0 <= i < |r.rows| ==> |r.rows[i].cells| > 0
    ensures r.Inserted? ==> forall i :: 1 <= i < |r.rows| ==> !r.rows[i].isHeader
    ensures r.Inserted? ==> forall i, j :: 0 <= i < |r.rows| && 0 <= j < |r.rows[i].cells| ==>
                              CleanPiece(r.rows[i].cells[j], '|')
  {
    if clipboard.None? then NotHandled
    else
      var lines := Lines(clipboard.value);
      if !ContainsPipe(lines) then NotHandled
      else
        var data := TableData(lines);
        if |data| == 0 then NotHandled
        else
          var rows := BuildRows(data, 0);
          if |rows| == 0 then NotHandled else Inserted(rows)
  }

  /** An alignment row such as `|:---|` is not a separator, so it is kept as data. */
  lemma AlignmentRowIsData()
    ensures !IsSeparator("|:---|")
    ensures IsSeparator("|---|---|")
  {
    assert !SeparatorChar("|:---|"[1]);
  }

  /** If the first parsed line has no cells, the table gets no header row. */
  lemma {:induction false} NoHeaderWhenFirstLineEmpty(data: seq<seq<string>>)
    requires |data| > 0 && |data[0]| == 0
    ensures forall i :: 0 <= i < |BuildRows(data, 0)| ==> !BuildRows(data, 0)[i].isHeader
  {
    assert BuildRows(data, 0) == BuildRows(data[1..], 1);
  }

  // ---------------------------------------------------------------------------
  // What is kept, and in what order: each stage keeps every input it does not
  // drop, in place.

  lemma AroundIndex<T>(xs: seq<T>, i: nat)
    requires i < |xs|
    ensures xs == (xs[..i] + [xs[i]]) + xs[i + 1..]
  {
  }

  lemma AppendFront<T>(a: seq<T>, b: seq<T>)
    ensures |a| == 0 ==> a + b == b
    ensures |a| > 0 ==> (a + b)[0] == a[0] && (a + b)[1..] == a[1..] + b
  {
  }

  /** What one part becomes: itself trimmed, or nothing when that is blank. */
  function KeptPiece(p: string): (r: seq<string>)
    ensures |r| <= 1
    ensures |r| == 1 <==> !AllSpace(p)
  {
    TrimEmptyIff(p);
    if Trim(p) == "" then [] else [Trim(p)]
  }

  lemma {:induction false} TrimNonBlankAppend(a: seq<string>, b: seq<string>, sep: char)
    requires forall i :: 0 <= i < |a| ==> sep !in a[i]
    requires forall i :: 0 <= i < |b| ==> sep !in b[i]
    ensures TrimNonBlank(a + b, sep) == TrimNonBlank(a, sep) + TrimNonBlank(b, sep)
  {
    AppendFront(a, b);
    if |a| > 0 {
      TrimNonBlankAppend(a[1..], b, sep);
    }
  }

  lemma TrimNonBlankOne(p: string, sep: char)
    requires sep !in p
    ensures TrimNonBlank([p], sep) == KeptPiece(p)
  {
    assert [p][1..] == [];
  }

  /** Every part is kept in its place, trimmed, unless it is blank: the parts
      before it are parsed before it and the parts after it after it. */
  lemma TrimNonBlankAt(parts: seq<string>, sep: char, i: nat)
    requires forall j :: 0 <= j < |parts| ==> sep !in parts[j]
    requires i < |parts|
    ensures TrimNonBlank(parts, sep)
         == TrimNonBlank(parts[..i], sep) + KeptPiece(parts[i]) + TrimNonBlank(parts[i + 1..], sep)
  {
    var before, after := parts[..i], parts[i + 1..];
    AroundIndex(parts, i);
    TrimNonBlankAppend(before + [parts[i]], after, sep);
    TrimNonBlankAppend(before, [parts[i]], sep);
    TrimNonBlankOne(parts[i], sep);
  }

  lemma SplitWithoutSep(s: string, sep: char)
    requires sep !in s
    ensures Split(s, sep) == [s]
  {
  }

  /** The lines of two texts joined by a line feed are the lines of the first
      followed by the lines of the second. */
  lemma LinesAppend(a: string, b: string)
    ensures Lines(a + "\n" + b) == Lines(a) + Lines(b)
  {
    SplitAppend(a, '\n', b);
    TrimNonBlankAppend(Split(a, '\n'), Split(b, '\n'), '\n');
  }

  /** A text without a line feed is one line: kept trimmed, or dropped when blank. */
  lemma LinesOfOneLine(s: string)
    requires '\n' !in s
    ensures Lines(s) == KeptPiece(s)
  {
    SplitWithoutSep(s, '\n');
    TrimNonBlankOne(s, '\n');
  }

  /** The cells of two pieces joined by a pipe are the cells of the first
      followed by the cells of the second. */
  lemma CellsAppend(a: string, b: string)
    ensures Cells(a + "|" + b) == Cells(a) + Cells(b)
  {
    SplitAppend(a, '|', b);
    TrimNonBlankAppend(Split(a, '|'), Split(b, '|'), '|');
  }

  /** A piece without a pipe is one cell: kept trimmed, or dropped when blank. */
  lemma CellsOfOneCell(s: string)
    requires '|' !in s
    ensures Cells(s) == KeptPiece(s)
  {
    SplitWithoutSep(s, '|');
    TrimNonBlankOne(s, '|');
  }

  lemma {:induction false} DropSeparatorsAppend(a: seq<string>, b: seq<string>)
    ensures DropSeparators(a + b) == DropSeparators(a) + DropSeparators(b)
  {
    AppendFront(a, b);
    if |a| > 0 {
      DropSeparatorsAppend(a[1..], b);
    }
  }

  /** Every line that is not a separator is kept in its place; a separator
      line is dropped and nothing else with it. */
  lemma DropSeparatorsAt(lines: seq<string>, i: nat)
    requires i < |lines|
    ensures DropSeparators(lines)
         == DropSeparators(lines[..i]) + KeptLine(lines[i]) + DropSeparators(lines[i + 1..])
  {
    var before, after := lines[..i], lines[i + 1..];
    AroundIndex(lines, i);
    DropSeparatorsAppend(before + [lines[i]], after);
    DropSeparatorsAppend(before, [lines[i]]);
    DropSeparatorsOne(lines[i]);
  }

  /** What one line becomes: itself, or nothing when it is a separator. */
  function KeptLine(line: string): (r: seq<string>)
    ensures |r| <= 1
    ensures |r| == 1 <==> !IsSeparator(line)
  {
    if IsSeparator(line) then [] else [line]
  }

  lemma DropSeparatorsOne(line: string)
    ensures DropSeparators([line]) == KeptLine(line)
  {
    assert [line][1..] == [];
  }

  /** The cell lists of the given lines, one per line, built from the front. */
  function CellLists(kept: seq<string>): (r: seq<seq<string>>)
    ensures |r| == |kept|
  {
    if |kept| == 0 then [] else [Cells(kept[0])] + CellLists(kept[1..])
  }

  lemma {:induction false} CellListsAt(kept: seq<string>, k: nat)
    requires k < |kept|
    ensures CellLists(kept)[k] == Cells(kept[k])
  {
    if k > 0 {
      CellListsAt(kept[1..], k - 1);
    }
  }

  lemma {:induction false} CellListsAppend(a: seq<string>, b: seq<string>)
    ensures CellLists(a + b) == CellLists(a) + CellLists(b)
  {
    AppendFront(a, b);
    if |a| > 0 {
      CellListsAppend(a[1..], b);
    }
  }

  lemma TableDataIsCellLists(lines: seq<string>)
    ensures TableData(lines) == CellLists(DropSeparators(lines))
  {
    var kept := DropSeparators(lines);
    forall k | 0 <= k < |kept| ensures Cells(kept[k]) == CellLists(kept)[k] {
      CellListsAt(kept, k);
    }
    TableDataOfKept(lines, kept, CellLists(kept));
  }

  lemma TableDataAppend(a: seq<string>, b: seq<string>)
    ensures TableData(a + b) == TableData(a) + TableData(b)
  {
    DropSeparatorsAppend(a, b);
    TableDataIsCellLists(a + b);
    TableDataIsCellLists(a);
    TableDataIsCellLists(b);
    CellListsAppend(DropSeparators(a), DropSeparators(b));
  }

  /** Every line that is not a separator yields its cells in its place, even
      when it has none; a separator line yields nothing. */
  lemma TableDataAt(lines: seq<string>, i: nat)
    requires i < |lines|
    ensures TableData(lines)
         == TableData(lines[..i])
            + (if IsSeparator(lines[i]) then [] else [Cells(lines[i])])
            + TableData(lines[i + 1..])
  {
    var before, after := lines[..i], lines[i + 1..];
    AroundIndex(lines, i);
    TableDataAppend(before + [lines[i]], after);
    TableDataAppend(before, [lines[i]]);
    TableDataOne(lines[i]);
  }

  lemma TableDataOne(line: string)
    ensures TableData([line]) == if IsSeparator(line) then [] else [Cells(line)]
  {
    DropSeparatorsOne(line);
  }

  lemma {:induction false} BuildRowsAppend(a: seq<seq<string>>, b: seq<seq<string>>, first: nat)
    ensures BuildRows(a + b, first) == BuildRows(a, first) + BuildRows(b, first + |a|)
  {
    AppendFront(a, b);
    if |a| > 0 {
      BuildRowsAppend(a[1..], b, first + 1);
    }
  }

  /** Every parsed line with cells makes a row in its place, a header row
      exactly when it is the very first parsed line; a line without cells
      makes none. */
  lemma BuildRowsAt(data: seq<seq<string>>, first: nat, i: nat)
    requires i < |data|
    ensures BuildRows(data, first)
         == BuildRows(data[..i], first)
            + (if |data[i]| > 0 then [Row(first + i == 0, data[i])] else [])
            + BuildRows(data[i + 1..], first + i + 1)
  {
    var before, after := data[..i], data[i + 1..];
    AroundIndex(data, i);
    BuildRowsAppend(before + [data[i]], after, first);
    BuildRowsAppend(before, [data[i]], first);
    BuildRowsOne(data[i], first + i);
  }

  lemma BuildRowsOne(cells: seq<string>, first: nat)
    ensures BuildRows([cells], first) == if |cells| > 0 then [Row(first == 0, cells)] else []
  {
    assert [cells][1..] == [];
  }

  /** Rows are made exactly when some parsed line has cells. */
  lemma BuildRowsEmptyIff(data: seq<seq<string>>, first: nat)
    ensures |BuildRows(data, first)| == 0 <==> forall i :: 0 <= i < |data| ==> |data[i]| == 0
  {
    if i :| 0 <= i < |data| && |data[i]| > 0 {
      BuildRowsAt(data, first, i);
    }
  }

  /** Every parsed line with cells has its row among the rows built, and the
      first line, when it has cells, makes the first row. */
  lemma BuildRowsHas(data: seq<seq<string>>, first: nat)
    ensures forall i :: 0 <= i < |data| && |data[i]| > 0 ==> Row(first + i == 0, data[i]) in BuildRows(data, first)
    ensures |data| > 0 && |data[0]| > 0 ==> BuildRows(data, first)[0] == Row(first == 0, data[0])
  {
    forall i | 0 <= i < |data| && |data[i]| > 0 ensures Row(first + i == 0, data[i]) in BuildRows(data, first) {
      BuildRowsAt(data, first, i);
    }
  }

  lemma HandlePasteWithPipe(clipboard: Option<string>)
    requires clipboard.Some? && ContainsPipe(Lines(clipboard.value))
    ensures var rows := BuildRows(TableData(Lines(clipboard.value)), 0);
            HandlePaste(clipboard) == if |rows| == 0 then NotHandled else Inserted(rows)
  {
  }

  /** The handler inserts a table exactly when the clipboard has text, some
      line of it has a pipe, and some parsed line has cells; the table then
      holds a row for every parsed line with cells, headed by the first one
      when that has cells. */
  lemma HandlePasteInserts(clipboard: Option<string>)
    ensures HandlePaste(clipboard).Inserted? <==>
              && clipboard.Some?
              && ContainsPipe(Lines(clipboard.value))
              && exists i :: 0 <= i < |TableData(Lines(clipboard.value))| && |TableData(Lines(clipboard.value))[i]| > 0
    ensures HandlePaste(clipboard).Inserted? ==>
              var data := TableData(Lines(clipboard.value));
              && (|data[0]| > 0 ==> HandlePaste(clipboard).rows[0] == Row(true, data[0]))
              && forall i :: 0 <= i < |data| && |data[i]| > 0 ==> Row(i == 0, data[i]) in HandlePaste(clipboard).rows
  {
    if clipboard.Some? && ContainsPipe(Lines(clipboard.value)) {
      var data := TableData(Lines(clipboard.value));
      HandlePasteWithPipe(clipboard);
      BuildRowsEmptyIff(data, 0);
      BuildRowsHas(data, 0);
    }
  }

  // ---------------------------------------------------------------------------
  // Round trip: a table written in the usual Markdown form pastes back as itself.

  /** A cell value that survives a paste unchanged. */
  predicate PasteableCell(c: string) {
    CleanPiece(c, '|') && '\n' !in c
  }

  /** A row that survives a paste: at least one cell, and not made only of
      dashes and spaces (which would read as a separator line). */
  predicate PasteableRow(cells: seq<string>) {
    && |cells| > 0
    && (forall i :: 0 <= i < |cells| ==> PasteableCell(cells[i]))
    && exists i, k :: 0 <= i < |cells| && 0 <= k < |cells[i]| && !SeparatorChar(cells[i][k])
  }

  /** Each cell with one space on either side. */
  function Padded(cells: seq<string>): (r: seq<string>)
    ensures |r| == |cells|
  {
    if cells == [] then [] else [" " + cells[0] + " "] + Padded(cells[1..])
  }

  lemma {:induction false} PaddedAt(cells: seq<string>, i: nat)
    requires i < |cells|
    ensures Padded(cells)[i] == " " + cells[i] + " "
  {
    if i > 0 {
      PaddedAt(cells[1..], i - 1);
    }
  }

  /** `| a | b |` */
  function RenderRow(cells: seq<string>): string {
    Join([""] + Padded(cells) + [""], "|")
  }

  /** `|---|---|` */
  function RenderSeparator(n: nat): string {
    Join([""] + seq(n, _ => "---") + [""], "|")
  }

  function RenderTable(header: seq<string>, body: seq<seq<string>>): string {
    Join(TableLines(header, body), "\n")
  }

  function BodyRows(body: seq<seq<string>>): seq<Row> {
    seq(|body|, i requires 0 <= i < |body| => Row(false, body[i]))
  }

  lemma {:induction false} RenderRowShape(cells: seq<string>)
    requires |cells| >= 1
    ensures RenderRow(cells) == "|" + Join(Padded(cells), "|") + "|"
  {
    var p := Padded(cells);
    assert [""] + p + [""] == ([""] + p) + [""];
    JoinAppend([""] + p, "", "|");
    assert ([""] + p)[1..] == p;
  }

  lemma {:induction false} RenderSeparatorShape(n: nat)
    requires n >= 1
    ensures RenderSeparator(n) == "|" + Join(seq(n, _ => "---"), "|") + "|"
  {
    var p: seq<string> := seq(n, _ => "---");
    assert [""] + p + [""] == ([""] + p) + [""];
    JoinAppend([""] + p, "", "|");
    assert ([""] + p)[1..] == p;
  }

  /** The pieces of a rendered row, before joining at `|`. */
  function RowPieces(cells: seq<string>): seq<string> {
    [""] + Padded(cells) + [""]
  }

  lemma RowPiecesClean(cells: seq<string>, c: char)
    requires forall i :: 0 <= i < |cells| ==> PasteableCell(cells[i])
    requires c == '|' || c == '\n'
    ensures forall i :: 0 <= i < |RowPieces(cells)| ==> c !in RowPieces(cells)[i]
  {
    var ps := RowPieces(cells);
    forall i | 0 <= i < |ps| ensures c !in ps[i] {
      if 0 < i < |ps| - 1 {
        PaddedAt(cells, i - 1);
        assert ps[i] == " " + cells[i - 1] + " ";
      }
    }
  }

  /** No padded cell, nor the empty piece after the last bar, holds a bar. */
  lemma PaddedClean(cells: seq<string>)
    requires PasteableCells(cells)
    ensures forall i :: 0 <= i < |Padded(cells) + [""]| ==> '|' !in (Padded(cells) + [""])[i]
  {
    var ps := Padded(cells) + [""];
    forall i | 0 <= i < |ps| ensures '|' !in ps[i] {
      if i < |cells| {
        PaddedAt(cells, i);
        assert ps[i] == " " + cells[i] + " ";
        assert PasteableCell(cells[i]);
      }
    }
  }

  lemma {:induction false} TrimNonBlankPadded(cells: seq<string>)
    requires PasteableCells(cells)
    ensures forall i :: 0 <= i < |Padded(cells) + [""]| ==> '|' !in (Padded(cells) + [""])[i]
    ensures TrimNonBlank(Padded(cells) + [""], '|') == cells
  {
    PaddedClean(cells);
    var ps := Padded(cells) + [""];
    if |cells| == 0 {
      assert ps == [""];
      assert Trim("") == "";
    } else {
      var tail := cells[1..];
      PasteableTail(cells);
      PaddedTail(cells);
      FirstPaddedTrims(cells);
      TrimNonBlankPadded(tail);
      TrimNonBlankCons(ps, '|');
      assert cells == [cells[0]] + tail;
    }
  }

  lemma PasteableTail(cells: seq<string>)
    requires |cells| > 0 && PasteableCells(cells)
    ensures PasteableCells(cells[1..])
  {
    var tail := cells[1..];
    forall j | 0 <= j < |tail| ensures PasteableCell(tail[j]) {
      assert tail[j] == cells[j + 1];
    }
  }

  lemma ConsTail<T>(a: T, xs: seq<T>, b: T)
    ensures ([a] + xs + [b])[1..] == xs + [b]
  {
  }

  lemma PaddedTail(cells: seq<string>)
    requires |cells| > 0
    ensures (Padded(cells) + [""])[1..] == Padded(cells[1..]) + [""]
  {
    ConsTail(" " + cells[0] + " ", Padded(cells[1..]), "");
  }

  /** A first part that trims to something non-blank is kept, trimmed. */
  lemma TrimNonBlankCons(parts: seq<string>, sep: char)
    requires |parts| > 0 && Trim(parts[0]) != ""
    requires forall i :: 0 <= i < |parts| ==> sep !in parts[i]
    ensures TrimNonBlank(parts, sep) == [Trim(parts[0])] + TrimNonBlank(parts[1..], sep)
  {
  }

  /** A first part that trims to nothing is dropped. */
  lemma TrimNonBlankSkip(parts: seq<string>, sep: char)
    requires |parts| > 0 && parts[0] == ""
    requires forall i :: 0 <= i < |parts| ==> sep !in parts[i]
    ensures TrimNonBlank(parts, sep) == TrimNonBlank(parts[1..], sep)
  {
    assert Trim("") == "";
  }

  lemma FirstPaddedTrims(cells: seq<string>)
    requires |cells| > 0 && PasteableCell(cells[0])
    ensures Trim((Padded(cells) + [""])[0]) == cells[0] != ""
  {
    assert (Padded(cells) + [""])[0] == " " + cells[0] + " ";
    TrimPadded(" ", cells[0], " ");
  }

  /** Cutting a rendered row into cells gives back its cells. */
  lemma {:induction false} CellsOfRenderedRow(cells: seq<string>)
    requires forall i :: 0 <= i < |cells| ==> PasteableCell(cells[i])
    ensures Cells(RenderRow(cells)) == cells
  {
    var ps := RowPieces(cells);
    RowPiecesClean(cells, '|');
    SplitJoin(ps, '|');
    assert Split(RenderRow(cells), '|') == ps;
    assert ps[1..] == Padded(cells) + [""];
    TrimNonBlankPadded(cells);
    TrimNonBlankSkip(ps, '|');
  }

  lemma RenderedRowHasNoNewline(cells: seq<string>)
    requires forall i :: 0 <= i < |cells| ==> PasteableCell(cells[i])
    ensures '\n' !in RenderRow(cells)
  {
    var ps := RowPieces(cells);
    RowPiecesClean(cells, '\n');
    if '\n' in RenderRow(cells) {
      JoinCharOrigin(ps, "|", '\n');
    }
  }

  lemma RenderedSeparatorClean(n: nat)
    requires n >= 1
    ensures IsSeparator(RenderSeparator(n))
    ensures '\n' !in RenderSeparator(n)
  {
    var p: seq<string> := seq(n, _ => "---");
    var m := Join(p, "|");
    RenderSeparatorShape(n);
    var line := RenderSeparator(n);
    assert Join(p, "|") == p[0] + (if n == 1 then "" else "|" + Join(p[1..], "|"));
    assert |m| >= 3;
    forall i | 1 <= i < |line| - 1 ensures SeparatorChar(line[i]) {
      assert line[i] == m[i - 1];
      JoinCharOrigin(p, "|", m[i - 1]);
    }
    if '\n' in line {
      var k :| 0 <= k < |line| && line[k] == '\n';
      assert 0 < k < |line| - 1;
      assert m[k - 1] == '\n';
      JoinCharOrigin(p, "|", '\n');
    }
  }

  lemma RenderedRowNotSeparator(cells: seq<string>)
    requires PasteableRow(cells)
    ensures !IsSeparator(RenderRow(cells))
  {
    var i, k :| 0 <= i < |cells| && 0 <= k < |cells[i]| && !SeparatorChar(cells[i][k]);
    var x := cells[i][k];
    var p := Padded(cells);
    var m := Join(p, "|");
    RenderRowShape(cells);
    PaddedAt(cells, i);
    assert p[i][k + 1] == x;
    JoinKeepsChars(p, "|", i, x);
    var j :| 0 <= j < |m| && m[j] == x;
    assert RenderRow(cells)[j + 1] == x;
  }

  lemma RenderedRowClean(cells: seq<string>)
    requires PasteableRow(cells)
    ensures CleanPiece(RenderRow(cells), '\n')
    ensures '|' in RenderRow(cells)
  {
    RenderRowShape(cells);
    RenderedRowHasNoNewline(cells);
    var line := RenderRow(cells);
    assert line[0] == '|' && line[|line| - 1] == '|';
  }

  lemma {:induction false} TrimNonBlankOfClean(parts: seq<string>, sep: char)
    requires forall i :: 0 <= i < |parts| ==> parts[i] != "" && IsTrimmed(parts[i]) && sep !in parts[i]
    ensures TrimNonBlank(parts, sep) == parts
  {
    if |parts| > 0 {
      assert parts == [parts[0]] + parts[1..];
      TrimNonBlankOfClean(parts[1..], sep);
      TrimOfTrimmed(parts[0]);
    }
  }

  lemma {:induction false} DropBodySeparators(body: seq<seq<string>>)
    requires forall i :: 0 <= i < |body| ==> PasteableRow(body[i])
    ensures DropSeparators(BodyLines(body)) == BodyLines(body)
  {
    var ls := BodyLines(body);
    if |body| > 0 {
      RenderedRowNotSeparator(body[0]);
      DropBodySeparators(body[1..]);
      assert ls[1..] == BodyLines(body[1..]);
    }
  }

  lemma {:induction false} BuildBodyRows(body: seq<seq<string>>, first: nat)
    requires first >= 1
    requires forall i :: 0 <= i < |body| ==> |body[i]| > 0
    ensures BuildRows(body, first) == BodyRows(body)
  {
    if |body| > 0 {
      BuildBodyRows(body[1..], first + 1);
      assert BodyRows(body) == [Row(false, body[0])] + BodyRows(body[1..]);
    }
  }

  /** The rendered body rows, one line each. */
  function BodyLines(body: seq<seq<string>>): (r: seq<string>)
    ensures |r| == |body|
    ensures forall i :: 0 <= i < |body| ==> r[i] == RenderRow(body[i])
  {
    seq(|body|, i requires 0 <= i < |body| => RenderRow(body[i]))
  }

  /** The lines of a rendered table, before joining at line feeds. */
  function TableLines(header: seq<string>, body: seq<seq<string>>): seq<string> {
    [RenderRow(header), RenderSeparator(|header|)] + BodyLines(body)
  }

  /** Every line of a rendered table is a clean piece between newlines. */
  lemma TableLinesClean(header: seq<string>, body: seq<seq<string>>)
    requires PasteableRow(header)
    requires forall i :: 0 <= i < |body| ==> PasteableRow(body[i])
    ensures forall i :: 0 <= i < |TableLines(header, body)| ==> CleanPiece(TableLines(header, body)[i], '\n')
  {
    var ls := TableLines(header, body);
    var bodyLines := BodyLines(body);
    forall i | 0 <= i < |ls| ensures CleanPiece(ls[i], '\n') {
      if i == 0 {
        RenderedRowClean(header);
      } else if i == 1 {
        RenderedSeparatorClean(|header|);
      } else {
        assert ls[i] == bodyLines[i - 2];
        RenderedRowClean(body[i - 2]);
      }
    }
  }

  lemma LinesOfRenderedTable(header: seq<string>, body: seq<seq<string>>)
    requires PasteableRow(header)
    requires forall i :: 0 <= i < |body| ==> PasteableRow(body[i])
    ensures Lines(RenderTable(header, body)) == TableLines(header, body)
  {
    var ls := TableLines(header, body);
    TableLinesClean(header, body);
    SplitJoin(ls, '\n');
    TrimNonBlankOfClean(ls, '\n');
  }

  lemma KeptOfRenderedTable(header: seq<string>, body: seq<seq<string>>)
    requires PasteableRow(header)
    requires forall i :: 0 <= i < |body| ==> PasteableRow(body[i])
    ensures DropSeparators(TableLines(header, body))
         == [RenderRow(header)] + BodyLines(body)
  {
    var bodyLines := BodyLines(body);
    var ls := TableLines(header, body);
    assert ls == [RenderRow(header)] + ([RenderSeparator(|header|)] + bodyLines);
    RenderedSeparatorClean(|header|);
    RenderedRowNotSeparator(header);
    DropBodySeparators(body);
    assert ls[1..] == [RenderSeparator(|header|)] + bodyLines;
    assert ls[1..][1..] == bodyLines;
  }

  /** Every cell of a rendered row is pasteable. */
  predicate PasteableCells(cells: seq<string>) {
    forall j :: 0 <= j < |cells| ==> PasteableCell(cells[j])
  }

  lemma CellsOfKeptLine(header: seq<string>, body: seq<seq<string>>, i: nat)
    requires PasteableCells(header)
    requires forall k :: 0 <= k < |body| ==> PasteableCells(body[k])
    requires i < |body| + 1
    ensures Cells(([RenderRow(header)] + BodyLines(body))[i]) == ([header] + body)[i]
  {
    var kept := [RenderRow(header)] + BodyLines(body);
    var want := [header] + body;
    var cells := want[i];
    assert kept[i] == RenderRow(cells);
    assert PasteableCells(cells);
    CellsOfRenderedRow(cells);
  }

  lemma CellsOfKeptLines(header: seq<string>, body: seq<seq<string>>)
    requires PasteableCells(header)
    requires forall k :: 0 <= k < |body| ==> PasteableCells(body[k])
    ensures forall i :: 0 <= i < |body| + 1 ==>
              Cells(([RenderRow(header)] + BodyLines(body))[i]) == ([header] + body)[i]
  {
    forall i | 0 <= i < |body| + 1
      ensures Cells(([RenderRow(header)] + BodyLines(body))[i]) == ([header] + body)[i]
    {
      CellsOfKeptLine(header, body, i);
    }
  }

  lemma TableDataOfKept(lines: seq<string>, kept: seq<string>, rows: seq<seq<string>>)
    requires DropSeparators(lines) == kept
    requires |kept| == |rows|
    requires forall i :: 0 <= i < |kept| ==> Cells(kept[i]) == rows[i]
    ensures TableData(lines) == rows
  {
  }

  lemma DataOfRenderedTable(header: seq<string>, body: seq<seq<string>>)
    requires PasteableRow(header)
    requires forall i :: 0 <= i < |body| ==> PasteableRow(body[i])
    ensures TableData(TableLines(header, body)) == [header] + body
  {
    KeptOfRenderedTable(header, body);
    CellsOfKeptLines(header, body);
    TableDataOfKept(TableLines(header, body), [RenderRow(header)] + BodyLines(body), [header] + body);
  }

  /** A table rendered in the usual Markdown form, with a `|---|` separator
      under its header, pastes back as exactly that header and those rows. */
  lemma PasteRenderedTable(header: seq<string>, body: seq<seq<string>>)
    requires PasteableRow(header)
    requires forall i :: 0 <= i < |body| ==> PasteableRow(body[i])
    ensures HandlePaste(Some(RenderTable(header, body))) == Inserted([Row(true, header)] + BodyRows(body))
  {
    var text := RenderTable(header, body);
    var ls := TableLines(header, body);
    LinesOfRenderedTable(header, body);
    RenderedRowClean(header);
    assert '|' in ls[0];
    assert ContainsPipe(Lines(text));
    HandlePasteWithPipe(Some(text));
    DataOfRenderedTable(header, body);
    BuildRowsAppend([header], body, 0);
    BuildRowsOne(header, 0);
    BuildBodyRows(body, 1);
  }
}
