/**
 The tree that sqlite_to_xml.py builds from its tables, and the proof that every row can be read back
 from the indented tree.
 */
module XmlDecode {
  import opened Decimal
  import opened XmlExport

  /** A database value: NULL, or the text that str() gives for it. */
  datatype Value = Null | Text(text: string)

  datatype Table = Table(name: string, columns: seq<string>, rows: seq<seq<Value>>)

  // ---------------------------------------------------------------- the tree

  function CellElement(column: string, value: Value): Element {
    match value
    case Null => Element(SanitizeTag(column), map["null" := "true"], None, None, [])
    case Text(t) => Element(SanitizeTag(column), map[], Some(SanitizeText(t)), None, [])
  }

  /** zip(column_names, row): as many cells as both have. */
  function Width(columns: seq<string>, row: seq<Value>): nat {
    if |columns| < |row| then |columns| else |row|
  }

  function RowElement(columns: seq<string>, row: seq<Value>): Element {
    Element("row", map[], None, None,
            seq(Width(columns, row), i requires 0 <= i < Width(columns, row) => CellElement(columns[i], row[i])))
  }

  function TableElement(t: Table): Element {
    Element("table", map["name" := t.name, "rows" := ToDecimal(|t.rows|)], None, None,
            seq(|t.rows|, i requires 0 <= i < |t.rows| => RowElement(t.columns, t.rows[i])))
  }

  function SummaryEntry(t: Table): Element {
    var attributes := map["name" := t.name, "rows" := ToDecimal(|t.rows|), "columns" := ToDecimal(|t.columns|)];
    Element("table", attributes, None, None, [])
  }

  function DatabaseElement(tables: seq<Table>): Element {
    var entries := seq(|tables|, i requires 0 <= i < |tables| => SummaryEntry(tables[i]));
    var summary := Element("summary", map[], None, None, entries);
    Element("database", map[], None, None,
            [summary] + seq(|tables|, i requires 0 <= i < |tables| => TableElement(tables[i])))
  }

  /** The nested loops of export_sqlite_to_xml, and the summary inserted in front. */
  method BuildTree(tables: seq<Table>) returns (root: Element)
    ensures root == DatabaseElement(tables)
  {
    var tableElems, summary := [], [];
    for k := 0 to |tables|
      invariant tableElems == seq(k, i requires 0 <= i < k => TableElement(tables[i]))
      invariant summary == seq(k, i requires 0 <= i < k => SummaryEntry(tables[i]))
    {
      var t := tables[k];
      var rowElems, rowCount := [], 0;
      for r := 0 to |t.rows|
        invariant rowCount == r && rowElems == seq(r, i requires 0 <= i < r => RowElement(t.columns, t.rows[i]))
      {
        var cells := BuildRow(t.columns, t.rows[r]);
        rowElems := rowElems + [Element("row", map[], None, None, cells)];
        rowCount := rowCount + 1;
      }
      assert rowElems == TableElement(t).children;
      var attributes := map["name" := t.name, "rows" := ToDecimal(rowCount)];
      tableElems := tableElems + [Element("table", attributes, None, None, rowElems)];
      summary := summary
        + [Element("table", attributes["columns" := ToDecimal(|t.columns|)], None, None, [])];
    }
    root := Element("database", map[], None, None, [Element("summary", map[], None, None, summary)] + tableElems);
  }

  method BuildRow(columns: seq<string>, row: seq<Value>) returns (cells: seq<Element>)
    ensures cells == RowElement(columns, row).children
  {
    cells := [];
    for i := 0 to Width(columns, row)
      invariant cells == seq(i, k requires 0 <= k < i => CellElement(columns[k], row[k]))
    {
      var safe := SanitizeTag(columns[i]);
      var cell := if row[i] == Null then Element(safe, map["null" := "true"], None, None, [])
                  else Element(safe, map[], Some(SanitizeText(row[i].text)), None, []);
      cells := cells + [cell];
    }
  }

  // ---------------------------------------------------------------- reading it back

  /** A cell as a reader sees it: its tag, whether it is marked null, and its text. */
  datatype Cell = Cell(tag: string, isNull: bool, text: Option<string>)

  function ReadCell(e: Element): Cell {
    Cell(e.tag, "null" in e.attributes && e.attributes["null"] == "true", e.text)
  }

  function ReadRow(e: Element): seq<Cell> {
    seq(|e.children|, i requires 0 <= i < |e.children| => ReadCell(e.children[i]))
  }

  /** The children with a tag, in order. */
  function WithTag(es: seq<Element>, tag: string): seq<Element> {
    if es == [] then [] else (if es[0].tag == tag then [es[0]] else []) + WithTag(es[1..], tag)
  }

  function ReadTable(e: Element): seq<seq<Cell>> {
    var rows := WithTag(e.children, "row");
    seq(|rows|, i requires 0 <= i < |rows| => ReadRow(rows[i]))
  }

  lemma {:induction false} AllTagged(es: seq<Element>, tag: string)
    requires forall i :: 0 <= i < |es| ==> es[i].tag == tag
    ensures WithTag(es, tag) == es
  {
    if es != [] {
      AllTagged(es[1..], tag);
    }
  }

  lemma {:induction false} NoneTagged(es: seq<Element>, tag: string)
    requires forall i :: 0 <= i < |es| ==> es[i].tag != tag
    ensures WithTag(es, tag) == []
  {
    if es != [] {
      NoneTagged(es[1..], tag);
    }
  }

  /** What a reader should find for a value of a column. */
  ghost function Expected(column: string, value: Value): Cell {
    Cell(SanitizeTag(column), value.Null?, if value.Null? then None else Some(SanitizeText(value.text)))
  }

  /** Indenting changes neither tags nor attributes nor the number of children, and no leaf's text. */
  ghost predicate SameData(a: Element, b: Element) {
    && a.tag == b.tag && a.attributes == b.attributes && |a.children| == |b.children|
    && (a.children == [] ==> a.text == b.text)
    && forall i :: 0 <= i < |a.children| ==> SameData(a.children[i], b.children[i])
  }

  lemma {:induction false} SameDataOfTail(a: Element, b: Element, tail: Option<string>)
    requires SameData(a, b)
    ensures SameData(a, b.(tail := tail))
  {
  }

  lemma {:induction false} IndentKeepsData(e: Element, level: nat)
    ensures SameData(e, Indent(e, level))
  {
    forall i | 0 <= i < |e.children| ensures SameData(e.children[i], Indent(e, level).children[i]) {
      IndentKeepsData(e.children[i], level + 1);
      IndentAllAt(e.children, level + 1, i);
      SameDataOfTail(e.children[i], Indent(e.children[i], level + 1), Indent(e, level).children[i].tail);
    }
  }

  lemma {:induction false} SameDataReadsSame(a: Element, b: Element)
    requires SameData(a, b) && forall i :: 0 <= i < |a.children| ==> forall j :: 0 <= j < |a.children[i].children| ==>
               a.children[i].children[j].children == []
    requires forall i :: 0 <= i < |a.children| ==> a.children[i].tag == "row"
    ensures ReadTable(a) == ReadTable(b)
  {
    AllTagged(a.children, "row");
    forall i | 0 <= i < |a.children|
      ensures ReadRow(a.children[i]) == ReadRow(b.children[i]) && b.children[i].tag == "row"
    {
      assert SameData(a.children[i], b.children[i]);
      forall j | 0 <= j < |a.children[i].children|
        ensures ReadCell(a.children[i].children[j]) == ReadCell(b.children[i].children[j])
      {
        assert SameData(a.children[i].children[j], b.children[i].children[j]);
      }
    }
    AllTagged(b.children, "row");
  }

  lemma {:induction false} ReadsTable(t: Table)
    ensures var rows := ReadTable(TableElement(t));
            && |rows| == |t.rows|
            && forall r :: 0 <= r < |t.rows| ==>
                 && |rows[r]| == Width(t.columns, t.rows[r])
                 && forall i :: 0 <= i < |rows[r]| ==> rows[r][i] == Expected(t.columns[i], t.rows[r][i])
  {
    AllTagged(TableElement(t).children, "row");
  }

  /** A reader who looks for tags finds one summary, with one table per table, and after it the tables. */
  lemma {:induction false} FoundByTag(tables: seq<Table>)
    ensures var root := Indent(DatabaseElement(tables), 0);
            && root.tag == "database" && |root.children| == |tables| + 1
            && WithTag(root.children, "summary") == [root.children[0]]
            && WithTag(root.children, "table") == root.children[1..]
            && WithTag(root.children[0].children, "table") == root.children[0].children
  {
    var e := DatabaseElement(tables);
    var root := Indent(e, 0);
    IndentKeepsData(e, 0);
    forall i | 0 <= i < |e.children|
      ensures root.children[i].tag == if i == 0 then "summary" else "table"
    {
      assert SameData(e.children[i], root.children[i]);
    }
    assert SameData(e.children[0], root.children[0]);
    forall i | 0 <= i < |e.children[0].children| ensures root.children[0].children[i].tag == "table" {
      assert SameData(e.children[0].children[i], root.children[0].children[i]);
    }
    var rest := root.children[1..];
    AllTagged(rest, "table");
    NoneTagged(rest, "summary");
    AllTagged(root.children[0].children, "table");
  }

  /**
   From the indented tree a reader, who looks for the tags "table" and "row", recovers for every exported
   table its name, every row in order, and in every row each column's value: the sanitised text, or that
   it is null.
   */
  lemma {:induction false} RowsAreRecovered(tables: seq<Table>, k: nat)
    requires k < |tables|
    ensures var found := WithTag(Indent(DatabaseElement(tables), 0).children, "table");
            && |found| == |tables|
            && "name" in found[k].attributes && found[k].attributes["name"] == tables[k].name
            && var rows := ReadTable(found[k]);
               && |rows| == |tables[k].rows|
               && forall r :: 0 <= r < |rows| ==>
                    && |rows[r]| == (if |tables[k].rows[r]| < |tables[k].columns| then |tables[k].rows[r]|
                                     else |tables[k].columns|)
                    && forall i :: 0 <= i < |rows[r]| ==>
                         rows[r][i] == Expected(tables[k].columns[i], tables[k].rows[r][i])
  {
    var e := DatabaseElement(tables);
    var root := Indent(e, 0);
    IndentKeepsData(e, 0);
    FoundByTag(tables);
    assert e.children[k + 1] == TableElement(tables[k]);
    assert SameData(e.children[k + 1], root.children[k + 1]);
    SameDataReadsSame(e.children[k + 1], root.children[k + 1]);
    ReadsTable(tables[k]);
    assert WithTag(root.children, "table")[k] == root.children[k + 1];
  }

  /** The row counts in a table and in the summary are numerals of the number of rows actually present. */
  lemma {:induction false} CountsAgree(tables: seq<Table>, k: nat)
    requires k < |tables|
    ensures var root := Indent(DatabaseElement(tables), 0);
            var found, summary := WithTag(root.children, "table"), WithTag(root.children, "summary");
            && |found| == |tables| && |summary| == 1 && |WithTag(summary[0].children, "table")| == |tables|
            && var table, entry := found[k], WithTag(summary[0].children, "table")[k];
               && "rows" in table.attributes && "rows" in entry.attributes && "columns" in entry.attributes
               && "name" in table.attributes && "name" in entry.attributes
               && table.attributes["name"] == entry.attributes["name"]
               && table.attributes["rows"] == entry.attributes["rows"] == ToDecimal(|table.children|)
               && AllDigits(entry.attributes["rows"]) && FromDecimal(entry.attributes["rows"]) == |table.children|
               && AllDigits(entry.attributes["columns"])
               && FromDecimal(entry.attributes["columns"]) == |tables[k].columns|
  {
    var e := DatabaseElement(tables);
    var root := Indent(e, 0);
    IndentKeepsData(e, 0);
    assert e.children[k + 1] == TableElement(tables[k]) && e.children[0].children[k] == SummaryEntry(tables[k]);
    assert SameData(e.children[k + 1], root.children[k + 1]);
    assert SameData(e.children[0], root.children[0]);
    assert SameData(e.children[0].children[k], root.children[0].children[k]);
    FoundByTag(tables);
    assert WithTag(root.children, "table")[k] == root.children[k + 1];
    DecimalRoundTrip(|tables[k].rows|);
    DecimalRoundTrip(|tables[k].columns|);
  }
}
