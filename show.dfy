/**
 * The show command: a text table with one column per field, "id" first and
 * the owner last, every column as wide as its widest cell, a row of dashes
 * under the header and one row per element in the collection's order.
 */
module ShowCommand {
  import opened Util
  import opened Models
  import opened Envelope
  import opened Collection
  import opened CommandBase

  /** getFieldNames: "id", the declared fields of Product in order, "username". */
  const HEADERS: seq<string> :=
    ["id", "name", "coordinates", "creationDate", "price", "unitOfMeasure", "organization", "username"]

  /** String.valueOf of each declared field, as the product's own toString methods render them. */
  datatype FieldTexts = FieldTexts(
    name: string, coordinates: string, creationDate: string,
    price: string, unitOfMeasure: string, organization: string)

  /** String.valueOf(getId(element)): the number, or "null". */
  function IdText(id: Option<int>): string
  {
    if id.Some? then IntToString(id.value) else "null"
  }

  predicate AllOwned(s: seq<Product>)
  {
    forall k :: 0 <= k < |s| ==> s[k].username.Some?
  }

  /** getFieldValues of an element whose owner is set. */
  function Row(p: Product, render: Product -> FieldTexts): (r: seq<string>)
    requires p.username.Some?
    ensures |r| == |HEADERS|
  {
    var f := render(p);
    [IdText(p.id), f.name, f.coordinates, f.creationDate, f.price, f.unitOfMeasure, f.organization, p.username.value]
  }

  function Rows(s: seq<Product>, render: Product -> FieldTexts): (rows: seq<seq<string>>)
    requires AllOwned(s)
    ensures |rows| == |s| && forall k :: 0 <= k < |s| ==> rows[k] == Row(s[k], render)
  {
    seq(|s|, k requires 0 <= k < |s| && AllOwned(s) => Row(s[k], render))
  }

  predicate Shaped(rows: seq<seq<string>>, n: nat)
  {
    forall k :: 0 <= k < |rows| ==> |rows[k]| == n
  }

  function Max(a: nat, b: nat): nat { if a < b then b else a }

  /** The width of column i: the header's length, raised to each longer value in turn. */
  function Width(header: string, rows: seq<seq<string>>, i: nat): nat
    requires forall k :: 0 <= k < |rows| ==> i < |rows[k]|
  {
    if rows == [] then |header| else Max(Width(header, rows[..|rows| - 1], i), |rows[|rows| - 1][i]|)
  }

  function Widths(headers: seq<string>, rows: seq<seq<string>>): (w: seq<nat>)
    requires Shaped(rows, |headers|)
    ensures |w| == |headers|
  {
    seq(|headers|, i requires 0 <= i < |headers| && Shaped(rows, |headers|) => Width(headers[i], rows, i))
  }

  /** The column width is the length of the header or of some value, and no cell in the column is longer. */
  lemma {:induction false} WidthIsMax(header: string, rows: seq<seq<string>>, i: nat)
    requires forall k :: 0 <= k < |rows| ==> i < |rows[k]|
    ensures Width(header, rows, i) >= |header|
    ensures forall k :: 0 <= k < |rows| ==> Width(header, rows, i) >= |rows[k][i]|
    ensures Width(header, rows, i) == |header| || exists k :: 0 <= k < |rows| && Width(header, rows, i) == |rows[k][i]|
  {
    if rows != [] {
      var init := rows[..|rows| - 1];
      WidthIsMax(header, init, i);
      assert forall k :: 0 <= k < |init| ==> init[k] == rows[k];
    }
  }

  /** The cells of a row, each padded to its column's width and followed by " | ". */
  function Cells(row: seq<string>, w: seq<nat>): string
    requires |row| <= |w|
  {
    if row == [] then "" else Cells(row[..|row| - 1], w) + PadRight(row[|row| - 1], w[|row| - 1]) + " | "
  }

  /** formatRow. */
  function FormatRow(row: seq<string>, w: seq<nat>): string
    requires |row| <= |w|
  {
    Trim(Cells(row, w))
  }

  /** getSeparator: a run of dashes as wide as each column. */
  function Separator(w: seq<nat>): (sep: seq<string>)
    ensures |sep| == |w|
    ensures forall i :: 0 <= i < |w| ==> |sep[i]| == w[i] && forall j :: 0 <= j < w[i] ==> sep[i][j] == '-'
  {
    seq(|w|, i requires 0 <= i < |w| => Repeat('-', w[i]))
  }

  /** The element rows of the table, each formatted and ended by a newline. */
  function Lines(rows: seq<seq<string>>, w: seq<nat>): string
    requires Shaped(rows, |w|)
  {
    if rows == [] then "" else Lines(rows[..|rows| - 1], w) + FormatRow(rows[|rows| - 1], w) + "\n"
  }

  /** Header row, separator row, element rows; the whole text trimmed. */
  function Table(headers: seq<string>, rows: seq<seq<string>>): string
    requires Shaped(rows, |headers|)
  {
    var w := Widths(headers, rows);
    Trim(FormatRow(headers, w) + "\n" + FormatRow(Separator(w), w) + "\n" + Lines(rows, w))
  }

  /** The width a row occupies before trimming when every cell fits its column. */
  function RowWidth(w: seq<nat>): nat
  {
    if w == [] then 0 else RowWidth(w[..|w| - 1]) + w[|w| - 1] + 3
  }

  lemma {:induction false} CellsFit(row: seq<string>, w: seq<nat>)
    requires |row| <= |w| && forall i :: 0 <= i < |row| ==> |row[i]| <= w[i]
    ensures |Cells(row, w)| == RowWidth(w[..|row|])
  {
    if row != [] {
      var n := |row|;
      CellsFit(row[..n - 1], w);
      assert w[..n][..n - 1] == w[..n - 1];
    }
  }

  /**
   * Every row of the table, the header, the dashes and each element, takes
   * up the same width before trimming: the columns line up.
   */
  lemma TableAligned(headers: seq<string>, rows: seq<seq<string>>, k: nat)
    requires Shaped(rows, |headers|) && k < |rows|
    ensures var w := Widths(headers, rows);
      |Cells(headers, w)| == RowWidth(w)
      && |Cells(Separator(w), w)| == RowWidth(w)
      && |Cells(rows[k], w)| == RowWidth(w)
  {
    var w := Widths(headers, rows);
    WidthsCover(headers, rows, k);
    assert w[..|w|] == w;
    CellsFit(headers, w);
    CellsFit(Separator(w), w);
    CellsFit(rows[k], w);
  }

  /** No header and no value of the k-th row is wider than its column. */
  lemma WidthsCover(headers: seq<string>, rows: seq<seq<string>>, k: nat)
    requires Shaped(rows, |headers|) && k < |rows|
    ensures forall i :: 0 <= i < |headers| ==>
      |headers[i]| <= Widths(headers, rows)[i] && |rows[k][i]| <= Widths(headers, rows)[i]
  {
    forall i | 0 <= i < |headers|
      ensures |headers[i]| <= Widths(headers, rows)[i] && |rows[k][i]| <= Widths(headers, rows)[i]
    {
      WidthIsMax(headers[i], rows, i);
    }
  }

  /** Show.execute over the store's contents. */
  function ShowResult(req: RequestView, items: seq<Product>, render: Product -> FieldTexts): Reply
  {
    if req.data.Some? then Responded(Usage(ShowCmd))
    else if items == [] then Responded(Ok("Коллекция пуста."))
    else if !AllOwned(items) then Escaped(NullPointer)   // values[i].length() on the null owner
    else Responded(Ok(Table(HEADERS, Rows(items, render))))
  }

  /**
   * Without an argument show always succeeds, except that an element with
   * no owner makes the width computation throw; the header row starts with
   * the id column.
   */
  lemma ShowContract(req: RequestView, items: seq<Product>, render: Product -> FieldTexts)
    ensures req.data.Some? ==> ShowResult(req, items, render) == Responded(Usage(ShowCmd))
    ensures req.data.None? ==> (ShowResult(req, items, render).Escaped? <==> !AllOwned(items))
    ensures req.data.None? && items == [] ==> ShowResult(req, items, render) == Responded(Ok("Коллекция пуста."))
    ensures req.data.None? && AllOwned(items) ==> ShowResult(req, items, render).response.success
  {
  }

  // ---------------------------------------------------------------------
  // The loops of Show, over arrays

  /** getColumnWidths: start from the header lengths, then widen for every element; a null owner throws. */
  method ColumnWidths(headers: array<string>, items: seq<Product>, render: Product -> FieldTexts)
    returns (widths: array<nat>, ok: bool)
    requires headers.Length == |HEADERS|
    ensures widths.Length == headers.Length
    ensures ok <==> AllOwned(items)
    ensures ok ==> widths[..] == Widths(headers[..], Rows(items, render))
  {
    widths := new nat[headers.Length];
    for i := 0 to headers.Length
      invariant forall j :: 0 <= j < i ==> widths[j] == |headers[j]|
    {
      widths[i] := |headers[i]|;
    }
    for e := 0 to |items|
      invariant AllOwned(items[..e])
      invariant forall j :: 0 <= j < widths.Length ==> widths[j] == Width(headers[j], Rows(items[..e], render), j)
    {
      if items[e].username.None? {
        return widths, false;
      }
      var values := Row(items[e], render);
      ghost var before := Rows(items[..e], render);
      ghost var after := Rows(items[..e + 1], render);
      assert after == before + [values] by {
        assert after[..e] == before;
      }
      Widen(widths, headers, values, before);
    }
    assert items[..|items|] == items;
    return widths, true;
  }

  /** The inner loop of getColumnWidths: each column grows to the element's value when that is longer. */
  method Widen(widths: array<nat>, headers: array<string>, values: seq<string>, ghost before: seq<seq<string>>)
    requires widths.Length == headers.Length == |values| && Shaped(before, |values|)
    requires forall j :: 0 <= j < widths.Length ==> widths[j] == Width(headers[j], before, j)
    modifies widths
    ensures forall j :: 0 <= j < widths.Length ==> widths[j] == Width(headers[j], before + [values], j)
  {
    ghost var after := before + [values];
    assert after[..|before|] == before;
    for i := 0 to |values|
      invariant forall j :: 0 <= j < i ==> widths[j] == Width(headers[j], after, j)
      invariant forall j :: i <= j < widths.Length ==> widths[j] == Width(headers[j], before, j)
    {
      if |values[i]| > widths[i] {
        widths[i] := |values[i]|;
      }
    }
  }

  /** formatRow: append each padded cell and " | " to a builder, then trim. */
  method FormatRowOf(row: array<string>, widths: array<nat>) returns (s: string)
    requires row.Length <= widths.Length
    ensures s == FormatRow(row[..], widths[..])
  {
    var b := "";
    for i := 0 to row.Length
      invariant b == Cells(row[..i], widths[..])
    {
      assert row[..i + 1][..i] == row[..i];
      b := b + PadRight(row[i], widths[i]) + " | ";
    }
    assert row[..row.Length] == row[..];
    return Trim(b);
  }

  /** getSeparator. */
  method SeparatorOf(widths: array<nat>) returns (sep: array<string>)
    ensures fresh(sep)
    ensures sep[..] == Separator(widths[..])
  {
    sep := new string[widths.Length];
    for i := 0 to widths.Length
      invariant forall j :: 0 <= j < i ==> sep[j] == Repeat('-', widths[j])
    {
      sep[i] := Repeat('-', widths[i]);
    }
  }

  lemma LinesSnoc(rows: seq<seq<string>>, e: nat, w: seq<nat>)
    requires Shaped(rows, |w|) && e < |rows|
    ensures Lines(rows[..e + 1], w) == Lines(rows[..e], w) + FormatRow(rows[e], w) + "\n"
  {
    var r := rows[..e + 1];
    assert Shaped(r, |w|);
    assert r[..|r| - 1] == rows[..e];
    assert r[|r| - 1] == rows[e];
    LinesLast(r, w);
  }

  /** The last row's line comes after the lines of the others. */
  lemma LinesLast(r: seq<seq<string>>, w: seq<nat>)
    requires Shaped(r, |w|) && r != []
    ensures Shaped(r[..|r| - 1], |w|)
    ensures Lines(r, w) == Lines(r[..|r| - 1], w) + FormatRow(r[|r| - 1], w) + "\n"
  {
  }

  /** One element's row of the table. */
  method RowLineOf(p: Product, widths: array<nat>, render: Product -> FieldTexts) returns (line: string)
    requires p.username.Some? && widths.Length == |HEADERS|
    ensures line == FormatRow(Row(p, render), widths[..])
  {
    var values := Row(p, render);
    var cells := new string[|values|](i requires 0 <= i < |values| => values[i]);
    assert cells[..] == values;
    line := FormatRowOf(cells, widths);
  }

  /** The element rows: each element's values formatted and ended by a newline. */
  method LinesOf(items: seq<Product>, widths: array<nat>, render: Product -> FieldTexts) returns (s: string)
    requires AllOwned(items) && widths.Length == |HEADERS|
    ensures s == Lines(Rows(items, render), widths[..])
  {
    ghost var rows := Rows(items, render);
    s := "";
    for e := 0 to |items|
      invariant s == Lines(rows[..e], widths[..])
    {
      var line := RowLineOf(items[e], widths, render);
      LinesSnoc(rows, e, widths[..]);
      s := s + line + "\n";
    }
    assert rows[..|items|] == rows;
  }

  method ExecuteShow(store: ProductCollectionManager, req: RequestView, render: Product -> FieldTexts) returns (reply: Reply)
    ensures reply == ShowResult(req, store.items, render)
  {
    if req.data.Some? {
      return Responded(Usage(ShowCmd));
    }
    var items := store.items;
    if |items| == 0 {
      return Responded(Ok("Коллекция пуста."));
    }
    var headers := new string[|HEADERS|](i requires 0 <= i < |HEADERS| => HEADERS[i]);
    assert headers[..] == HEADERS;
    var widths, ok := ColumnWidths(headers, items, render);
    if !ok {
      return Escaped(NullPointer);
    }
    var head := FormatRowOf(headers, widths);
    var sep := SeparatorOf(widths);
    var dashes := FormatRowOf(sep, widths);
    var body := LinesOf(items, widths, render);
    return Responded(Ok(Trim(head + "\n" + dashes + "\n" + body)));
  }
}
