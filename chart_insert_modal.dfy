/**
 * The chart editor dialog (frontend/src/components/models/ChartInsertModal.tsx):
 * its row table, the rows that make it into the chart, the colour each
 * gets, and the insert validation. The table's rows are objects, as in
 * the source: `updateRow` writes into the row object itself, which the
 * old and the new list share. `parseFloat` of the values, the chart
 * preview and the Enter key sent to the editor afterwards are left out.
 */
module ChartInsertModal {
  import opened Wrappers
  import opened Seqs

  /** The ten fallback colours, in order. */
  const DefaultColors: seq<string> := ["#f87171", "#60a5fa", "#34d399", "#fbbf24", "#a78bfa", "#fb7185",
    "#38bdf8", "#facc15", "#4ade80", "#c084fc"]

  /** A row's contents. */
  datatype RowValue = RowValue(labelText: string, value: string, color: string)

  /** The row `addRow` appends. */
  const Blank: RowValue := RowValue("", "", "")

  /** The three editable fields of a row. */
  datatype Field = Label | Value | Color

  /** `row[key] = value` on a row's contents. */
  function SetField(r: RowValue, key: Field, v: string): (u: RowValue)
    ensures (key == Label ==> u.labelText == v) && (key != Label ==> u.labelText == r.labelText)
    ensures (key == Value ==> u.value == v) && (key != Value ==> u.value == r.value)
    ensures (key == Color ==> u.color == v) && (key != Color ==> u.color == r.color)
  {
    match key
    case Label => r.(labelText := v)
    case Value => r.(value := v)
    case Color => r.(color := v)
  }

  /** `rows.filter((_, i) => i !== idx)`. */
  function WithoutIndex(rows: seq<RowValue>, idx: int): (r: seq<RowValue>)
    ensures 0 <= idx < |rows| ==> (|r| == |rows| - 1
      && (forall k :: 0 <= k < idx ==> r[k] == rows[k])
      && (forall k :: idx <= k < |r| ==> r[k] == rows[k + 1]))
    ensures !(0 <= idx < |rows|) ==> r == rows
  {
    if 0 <= idx < |rows| then rows[..idx] + rows[idx + 1..] else rows
  }

  /** A row counts for the chart when its label and its value are both non-empty. */
  predicate Filled(r: RowValue) {
    r.labelText != "" && r.value != ""
  }

  /** `filteredRows`. */
  function FilteredRows(rows: seq<RowValue>): seq<RowValue> {
    Filter(rows, Filled)
  }

  /** `r.color || defaultColors[i % defaultColors.length]`: a row's own colour, else the fallback for its position. */
  function ColorAt(color: string, i: nat): string {
    if color != "" then color else DefaultColors[i % |DefaultColors|]
  }

  /** What `onInsert` receives: the labels, the values (as typed) and the colours of the filled rows. */
  datatype ChartData = ChartData(labels: seq<string>, values: seq<string>, colors: seq<string>)

  function ChartDataOf(rows: seq<RowValue>): (d: ChartData)
    ensures |d.labels| == |d.values| == |d.colors| == |FilteredRows(rows)|
  {
    var f := FilteredRows(rows);
    ChartData(seq(|f|, i requires 0 <= i < |f| => f[i].labelText),
              seq(|f|, i requires 0 <= i < |f| => f[i].value),
              seq(|f|, i requires 0 <= i < |f| => ColorAt(f[i].color, i)))
  }

  /** The chart takes exactly the filled rows, in table order. */
  lemma FilteredRowsMembers(rows: seq<RowValue>, r: RowValue)
    ensures r in FilteredRows(rows) <==> r in rows && Filled(r)
  {
    FilterMembers(rows, Filled, r);
  }

  /** A blank row appended to the table changes nothing in the chart. */
  lemma BlankRowIsIgnored(rows: seq<RowValue>)
    ensures FilteredRows(rows + [Blank]) == FilteredRows(rows)
    ensures ChartDataOf(rows + [Blank]) == ChartDataOf(rows)
  {
    FilterConcat(rows, [Blank], Filled);
    assert Filter([Blank], Filled) == [];
    assert FilteredRows(rows) + [] == FilteredRows(rows);
  }

  /**
   * Every filled row gets a colour: its own when it has one, else the
   * fallback for its position among the filled rows, so that rows without
   * their own colour cycle through the ten defaults.
   */
  lemma ColorsCycle(rows: seq<RowValue>, i: nat)
    requires i < |FilteredRows(rows)|
    ensures var f, c := FilteredRows(rows), ChartDataOf(rows).colors;
      && c[i] != ""
      && (f[i].color != "" ==> c[i] == f[i].color)
      && (f[i].color == "" ==> c[i] == DefaultColors[i % 10])
      && (i + 10 < |f| && f[i].color == "" && f[i + 10].color == "" ==> c[i + 10] == c[i])
  {
    var f, c := FilteredRows(rows), ChartDataOf(rows).colors;
    assert c[i] == ColorAt(f[i].color, i);
    assert forall k :: 0 <= k < |DefaultColors| ==> DefaultColors[k] != "";
    if i + 10 < |f| {
      assert c[i + 10] == ColorAt(f[i + 10].color, i + 10);
      assert (i + 10) % 10 == i % 10;
    }
  }

  /** One row of the table: an object whose fields `updateRow` assigns. */
  class ChartRow {
    var labelText: string
    var value: string
    var color: string

    constructor (r: RowValue)
      ensures labelText == r.labelText && value == r.value && color == r.color
    {
      labelText := r.labelText;
      value := r.value;
      color := r.color;
    }
  }

  /** What a list of row objects holds. */
  function ContentsOf(rs: seq<ChartRow>): (c: seq<RowValue>)
    reads rs
    ensures |c| == |rs|
  {
    seq(|rs|, i reads rs requires 0 <= i < |rs| => RowValue(rs[i].labelText, rs[i].value, rs[i].color))
  }

  /** The dialog's state: the chart type, the rows and whether the validation message shows. */
  class Modal {
    var chartType: string
    var rows: seq<ChartRow>
    var showValidation: bool

    /** There is always a row, and no row object appears twice. */
    predicate Valid()
      reads this`rows
    {
      |rows| >= 1 && forall i, j :: 0 <= i < j < |rows| ==> rows[i] != rows[j]
    }

    /** The rows' contents. */
    function Contents(): (c: seq<RowValue>)
      reads this`rows, rows
      ensures |c| == |rows|
    {
      ContentsOf(rows)
    }

    /** A fresh dialog: a bar chart with one blank row. */
    constructor ()
      ensures Valid() && chartType == "bar" && Contents() == [Blank] && !showValidation
    {
      var r := new ChartRow(Blank);
      chartType := "bar";
      rows := [r];
      showValidation := false;
    }

    /** `addRow`: one blank row more at the end. */
    method AddRow()
      requires Valid()
      modifies this
      ensures Valid() && Contents() == old(Contents()) + [Blank]
      ensures chartType == old(chartType) && showValidation == old(showValidation)
    {
      var r := new ChartRow(Blank);
      rows := rows + [r];
      assert Contents() == old(Contents()) + [Blank];
    }

    /** `removeRow(idx)`: refused when one row is left, otherwise that row goes. */
    method RemoveRow(idx: int)
      requires Valid()
      modifies this
      ensures Valid()
      ensures Contents() == if |old(rows)| == 1 then old(Contents()) else WithoutIndex(old(Contents()), idx)
      ensures chartType == old(chartType) && showValidation == old(showValidation)
    {
      if |rows| == 1 {
        return;
      }
      if 0 <= idx < |rows| {
        rows := rows[..idx] + rows[idx + 1..];
      }
    }

    /** `updateRow(index, key, value)`: field `key` of row `index` takes `v`; the list keeps the same row objects. */
    method UpdateRow(index: nat, key: Field, v: string)
      requires Valid() && index < |rows|
      modifies rows[index]
      ensures Valid() && rows == old(rows)
      ensures Contents() == old(Contents())[index := SetField(old(Contents())[index], key, v)]
    {
      var r := rows[index];
      match key {
        case Label => r.labelText := v;
        case Value => r.value := v;
        case Color => r.color := v;
      }
    }

    /** Choosing the chart type. */
    method SetType(t: string)
      modifies this
      ensures chartType == t && rows == old(rows) && showValidation == old(showValidation)
    {
      chartType := t;
    }

    /**
     * `handleInsert`: with fewer than two filled rows the validation
     * message shows and nothing is inserted or closed; otherwise the
     * chart type and data are inserted and the dialog closes.
     */
    method HandleInsert() returns (inserted: Option<(string, ChartData)>, closed: bool)
      requires Valid()
      modifies this
      ensures Valid() && rows == old(rows) && chartType == old(chartType)
      ensures closed <==> |FilteredRows(Contents())| >= 2
      ensures inserted.Some? <==> closed
      ensures closed ==> inserted.value == (chartType, ChartDataOf(Contents())) && showValidation == old(showValidation)
      ensures !closed ==> showValidation
    {
      if |FilteredRows(Contents())| < 2 {
        showValidation := true;
        return None, false;
      }
      inserted := Some((chartType, ChartDataOf(Contents())));
      closed := true;
    }
  }
}
