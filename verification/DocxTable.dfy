/** `_table_text`: the text of a DOCX table, and exactly when it loses a cell. */
module DocxTable {
  import opened Strings
  import opened Normalisation

  // ----- The specification

  /** A cell's normalised text with its line ends shown as slashes. */
  function CellText(cell: string): string {
    Join(Split(Normalise(cell, false), '\n'), " / ")
  }

  /** The texts of the cells that show anything. */
  function CellTexts(cells: seq<string>): (r: seq<string>)
    ensures |r| <= |cells|
  {
    if cells == [] then []
    else (if CellText(cells[0]) == "" then [] else [CellText(cells[0])]) + CellTexts(cells[1..])
  }

  /** What is left of a list when an item equal to the one before it is dropped; `last` stands before the first. */
  function Squeezed(values: seq<string>, last: string): seq<string> {
    if values == [] then []
    else if values[0] == last then Squeezed(values[1..], last)
    else [values[0]] + Squeezed(values[1..], values[0])
  }

  function RowText(cells: seq<string>): string {
    Join(Squeezed(CellTexts(cells), ""), " | ")
  }

  function RowLine(cells: seq<string>): seq<string> {
    if CellTexts(cells) == [] then [] else [RowText(cells)]
  }

  /** One line for every row that has a text. */
  function RowTexts(rows: seq<seq<string>>): seq<string> {
    if rows == [] then [] else RowLine(rows[0]) + RowTexts(rows[1..])
  }

  function TableText(rows: seq<seq<string>>): string {
    Join(RowTexts(rows), "\n")
  }

  // ----- The loops

  function LastOf(values: seq<string>): string {
    if values == [] then "" else values[|values| - 1]
  }

  lemma CellTextsFrom(cells: seq<string>, i: nat)
    requires i < |cells|
    ensures CellTexts(cells[i..])
         == (if CellText(cells[i]) == "" then [] else [CellText(cells[i])]) + CellTexts(cells[i + 1..])
  {
    assert cells[i..][1..] == cells[i + 1..];
  }

  lemma SqueezedStep(values: seq<string>, value: string, later: seq<string>)
    ensures values + Squeezed([value] + later, LastOf(values))
         == if value == LastOf(values) then values + Squeezed(later, LastOf(values))
            else (values + [value]) + Squeezed(later, LastOf(values + [value]))
  {
    assert ([value] + later)[1..] == later;
    if value != LastOf(values) {
      assert Squeezed([value] + later, LastOf(values)) == [value] + Squeezed(later, value);
      Associative(values, [value], Squeezed(later, value));
    }
    hide Squeezed;
  }

  lemma SqueezedEmpty(values: seq<string>)
    requires "" !in values
    ensures Squeezed(values, "") == [] <==> values == []
  {
    if values != [] {
      assert values[0] in values;
    }
  }

  lemma {:induction false} CellTextsShow(cells: seq<string>)
    ensures "" !in CellTexts(cells)
  {
    if cells != [] {
      CellTextsShow(cells[1..]);
    }
  }

  /** The inner loop: a value is kept if it shows anything and differs from the last one kept. */
  method RowValues(cells: seq<string>) returns (values: seq<string>)
    ensures values == Squeezed(CellTexts(cells), "")
    ensures values == [] <==> CellTexts(cells) == []
  {
    hide CellText;
    values := [];
    assert cells[0..] == cells;
    for i := 0 to |cells|
      invariant values + Squeezed(CellTexts(cells[i..]), LastOf(values)) == Squeezed(CellTexts(cells), "")
      invariant "" !in values
    {
      var value := CellText(cells[i]);
      CellTextsFrom(cells, i);
      var later := CellTexts(cells[i + 1..]);
      if value != "" {
        SqueezedStep(values, value, later);
        if values == [] || values[|values| - 1] != value {
          values := values + [value];
        }
      } else {
        assert [] + later == later;
      }
    }
    CellTextsShow(cells);
    SqueezedEmpty(CellTexts(cells));
  }

  lemma RowTextsFrom(rows: seq<seq<string>>, i: nat, lines: seq<string>)
    requires i < |rows|
    ensures lines + RowTexts(rows[i..]) == (lines + RowLine(rows[i])) + RowTexts(rows[i + 1..])
  {
    hide RowLine;
    assert rows[i..][1..] == rows[i + 1..];
    Associative(lines, RowLine(rows[i]), RowTexts(rows[i + 1..]));
  }

  method PrintTable(rows: seq<seq<string>>) returns (text: string)
    ensures text == TableText(rows)
  {
    hide RowTexts, CellTexts, Squeezed;
    var lines: seq<string> := [];
    assert rows[0..] == rows;
    for i := 0 to |rows|
      invariant lines + RowTexts(rows[i..]) == RowTexts(rows)
    {
      RowTextsFrom(rows, i, lines);
      var values := RowValues(rows[i]);
      if values != [] {
        lines := lines + [Join(values, " | ")];
      } else {
        assert lines + [] == lines;
      }
    }
    assert rows[|rows|..] == [];
    NoRows();
    assert lines == RowTexts(rows);
    return Join(lines, "\n");
  }

  lemma NoRows()
    ensures RowTexts([]) == []
  {
  }

  // ----- The same table with no cell dropped

  function FullRow(cells: seq<string>): string {
    Join(CellTexts(cells), " | ")
  }

  function FullLine(cells: seq<string>): seq<string> {
    if CellTexts(cells) == [] then [] else [FullRow(cells)]
  }

  function FullRows(rows: seq<seq<string>>): seq<string> {
    if rows == [] then [] else FullLine(rows[0]) + FullRows(rows[1..])
  }

  function FullTable(rows: seq<seq<string>>): string {
    Join(FullRows(rows), "\n")
  }

  /** Two neighbouring cells of the row, blank ones aside, have the same text. */
  predicate Repeats(cells: seq<string>) {
    exists i :: 0 <= i < |CellTexts(cells)| - 1 && CellTexts(cells)[i] == CellTexts(cells)[i + 1]
  }

  // ----- What a cell shows

  function VisibleEach(lines: seq<string>): (r: seq<string>)
    ensures |r| == |lines|
  {
    if lines == [] then [] else [Visible(lines[0])] + VisibleEach(lines[1..])
  }

  lemma {:induction false} VisibleMarked(lines: seq<string>, sep: string, mark: string)
    requires Visible(sep) == mark
    ensures Visible(Join(lines, sep)) == Join(VisibleEach(lines), mark)
  {
    if |lines| > 1 {
      VisibleMarked(lines[1..], sep, mark);
      VisibleConcat(lines[0], sep);
      VisibleConcat(lines[0] + sep, Join(lines[1..], sep));
    } else if |lines| == 1 {
      assert VisibleEach(lines[1..]) == [];
    }
  }

  lemma {:induction false} VisibleOfEach(lines: seq<string>)
    ensures Concat(VisibleEach(lines)) == Visible(Concat(lines))
  {
    if lines != [] {
      VisibleOfEach(lines[1..]);
      VisibleConcat(lines[0], Concat(lines[1..]));
    }
  }

  lemma Marks()
    ensures Visible(" / ") == "/" && Visible(" | ") == "|" && Visible("\n") == ""
  {
    assert " / "[1..] == "/ " && "/ "[1..] == " " && " "[1..] == "";
    assert " | "[1..] == "| " && "| "[1..] == " ";
    assert "\n"[1..] == "";
    assert Visible(" / ") == Shown(' ') + (Shown('/') + (Shown(' ') + ""));
    assert Visible(" | ") == Shown(' ') + (Shown('|') + (Shown(' ') + ""));
  }

  /** A cell shows exactly its own visible characters, with a slash at each line end of its normalised text. */
  lemma CellShows(cell: string)
    ensures var lines := VisibleEach(Split(Normalise(cell, false), '\n'));
            Visible(CellText(cell)) == Join(lines, "/") && Concat(lines) == Visible(cell)
  {
    hide Visible, Normalise, Split;
    var text := Normalise(cell, false);
    Marks();
    VisibleMarked(Split(text, '\n'), " / ", "/");
    NormaliseResult(cell, false);
    JoinSplit(text, '\n');
    assert forall c :: c in "\n" ==> IsSpace(c);
    VisibleJoin(Split(text, '\n'), "\n");
    VisibleOfEach(Split(text, '\n'));
  }

  lemma {:induction false} JoinLonger(lines: seq<string>, sep: string)
    ensures |Join(lines, sep)| >= |Concat(lines)|
  {
    if |lines| > 1 {
      JoinLonger(lines[1..], sep);
    } else if |lines| == 1 {
      assert Concat(lines[1..]) == "";
    }
  }

  lemma CellVisible(cell: string)
    requires CellText(cell) != ""
    ensures Visible(CellText(cell)) != ""
  {
    hide Normalise, Split, NoTrailingBlank;
    var text := Normalise(cell, false);
    SplitSingle("", '\n');
    if text != "" {
      NormaliseResult(cell, false);
      assert text[0] in text && IsVisible(text[0]);
      CellShows(cell);
      JoinLonger(VisibleEach(Split(text, '\n')), "/");
    }
  }

  lemma {:induction false} CellTextsVisible(cells: seq<string>)
    ensures AllVisible(CellTexts(cells))
  {
    hide CellText, Visible;
    if cells != [] {
      CellTextsVisible(cells[1..]);
      if CellText(cells[0]) != "" {
        CellVisible(cells[0]);
      }
    }
  }

  predicate AllVisible(values: seq<string>) {
    forall v :: v in values ==> Visible(v) != ""
  }

  // ----- What dropping costs

  predicate Neighbours(values: seq<string>, last: string) {
    values != [] && (values[0] == last || exists i :: 0 <= i < |values| - 1 && values[i] == values[i + 1])
  }

  lemma {:induction false} NeighboursTail(values: seq<string>, last: string)
    requires values != []
    ensures Neighbours(values, last) <==> values[0] == last || Neighbours(values[1..], values[0])
  {
    var rest := values[1..];
    if i :| 0 <= i < |values| - 1 && values[i] == values[i + 1] {
      if i > 0 {
        assert rest[i - 1] == rest[i];
      }
    }
    if i :| 0 <= i < |rest| - 1 && rest[i] == rest[i + 1] {
      assert values[i + 1] == values[i + 2];
    }
    if rest != [] && rest[0] == values[0] {
      assert values[0] == values[1];
    }
  }

  /** The visible characters of a row, marks included. */
  function Weight(values: seq<string>): nat {
    |Visible(Join(values, " | "))|
  }

  lemma WeightStep(value: string, rest: seq<string>)
    ensures Weight([value] + rest) == |Visible(value)| + (if rest == [] then 0 else 1 + Weight(rest))
  {
    hide Visible;
    var all := [value] + rest;
    assert all[1..] == rest;
    if rest != [] {
      Marks();
      VisibleConcat(value, " | ");
      VisibleConcat(value + " | ", Join(rest, " | "));
    }
  }

  /** Dropping equal neighbours makes a row lighter exactly when there are any. */
  lemma {:induction false} SqueezedWeight(values: seq<string>, last: string)
    requires AllVisible(values)
    ensures Neighbours(values, last) ==> Weight(Squeezed(values, last)) < Weight(values)
    ensures !Neighbours(values, last) ==> Squeezed(values, last) == values
  {
    hide Visible, Weight, Neighbours;
    NoNeighbours(last);
    if values != [] {
      var value, rest := values[0], values[1..];
      assert Visible(value) != "" by {
        assert value in values;
      }
      assert values == [value] + rest;
      SqueezedWeight(rest, value);
      NeighboursTail(values, last);
      WeightStep(value, rest);
      WeightStep(value, Squeezed(rest, value));
    }
  }

  lemma NoNeighbours(last: string)
    ensures !Neighbours([], last) && Weight([]) == 0
  {
  }

  lemma RowLoses(cells: seq<string>)
    ensures Repeats(cells) ==> |Visible(RowText(cells))| < |Visible(FullRow(cells))|
    ensures !Repeats(cells) ==> RowText(cells) == FullRow(cells)
  {
    hide Visible;
    CellTextsVisible(cells);
    CellTextsShow(cells);
    SqueezedWeight(CellTexts(cells), "");
    if CellTexts(cells) != [] {
      assert CellTexts(cells)[0] in CellTexts(cells);
    }
  }

  lemma LineLoses(cells: seq<string>)
    ensures Repeats(cells) ==> |Visible(Concat(RowLine(cells)))| < |Visible(Concat(FullLine(cells)))|
    ensures !Repeats(cells) ==> RowLine(cells) == FullLine(cells)
  {
    hide Visible, RowText, FullRow;
    RowLoses(cells);
    ConcatOne(RowText(cells));
    ConcatOne(FullRow(cells));
  }

  lemma ConcatOne(text: string)
    ensures Concat([text]) == text
  {
    assert Concat([text][1..]) == "";
  }

  lemma VisibleLines(a: seq<string>, b: seq<string>)
    ensures |Visible(Concat(a + b))| == |Visible(Concat(a))| + |Visible(Concat(b))|
  {
    ConcatAppend(a, b);
    VisibleConcat(Concat(a), Concat(b));
  }

  lemma {:induction false} RowsLose(rows: seq<seq<string>>)
    ensures TableRepeats(rows) ==> |Visible(Concat(RowTexts(rows)))| < |Visible(Concat(FullRows(rows)))|
    ensures !TableRepeats(rows) ==> RowTexts(rows) == FullRows(rows)
  {
    hide Visible, Repeats, RowLine, FullLine, Concat;
    if rows != [] {
      var row, rest := rows[0], rows[1..];
      RowsLose(rest);
      LineLoses(row);
      assert forall r :: r in rows <==> r == row || r in rest;
      VisibleLines(RowLine(row), RowTexts(rest));
      VisibleLines(FullLine(row), FullRows(rest));
    }
  }

  predicate TableRepeats(rows: seq<seq<string>>) {
    exists row :: row in rows && Repeats(row)
  }

  /** A table shows less than its cells, one line a row with marks between, exactly when a row repeats a neighbour. */
  lemma TableLosesExactly(rows: seq<seq<string>>)
    ensures |Visible(TableText(rows))| <= |Visible(FullTable(rows))|
    ensures TableRepeats(rows) <==> |Visible(TableText(rows))| < |Visible(FullTable(rows))|
    ensures !TableRepeats(rows) <==> TableText(rows) == FullTable(rows)
  {
    hide Visible, Repeats, RowTexts, FullRows;
    RowsLose(rows);
    assert forall c :: c in "\n" ==> IsSpace(c);
    VisibleJoin(RowTexts(rows), "\n");
    VisibleJoin(FullRows(rows), "\n");
  }

  /** The row "5", "5" is printed as "5". */
  lemma RepeatedCellDropped()
    ensures TableText([["5", "5"]]) == "5" && FullTable([["5", "5"]]) == "5 | 5"
    ensures TableRepeats([["5", "5"]])
  {
    hide Normalise;
    NormalisedIffFixed("5", false);
    SplitSingle("5", '\n');
    assert CellText("5") == "5";
    var cells := ["5", "5"];
    assert cells[1..] == ["5"] && cells[1..][1..] == [];
    assert CellTexts(cells[1..]) == ["5"];
    assert CellTexts(cells) == ["5", "5"];
    assert Squeezed(["5", "5"], "") == ["5"] by {
      assert ["5", "5"][1..] == ["5"] && ["5"][1..] == [];
    }
    assert ["5", "5"][1..] == ["5"];
    var none: seq<seq<string>> := [];
    assert [cells][1..] == none;
    assert Join(["5", "5"], " | ") == "5" + " | " + Join(["5"], " | ") == "5 | 5";
    assert RowLine(cells) == ["5"] && FullLine(cells) == ["5 | 5"];
    assert FullRows([cells]) == FullLine(cells) + FullRows(none) && FullRows(none) == [];
    assert RowTexts([cells]) == RowLine(cells) + RowTexts(none) && RowTexts(none) == [];
    assert Repeats(cells);
    assert cells in [cells];
  }
}
