/**
 * The data-dictionary page of the database lab: the CSV text of the
 * downloaded dictionary and the row-count table of the six domain tables.
 */
module UnitOne {
  import opened Wrappers
  import opened Text

  /** A row of the dictionary procedure: nullable strings, as the procedure's rows are untyped. */
  datatype DictionaryEntry = DictionaryEntry(
    tableName: Option<string>, columnName: Option<string>, dataType: Option<string>,
    isNullable: Option<string>, columnDefault: Option<string>)

  const HeaderFields: seq<string> := ["Table", "Column", "Type", "Nullable", "Default"]
  const HeaderLine := "Table,Column,Type,Nullable,Default"

  /** A cell as `join` writes it: a null becomes the empty string. */
  function Cell(v: Option<string>): string {
    v.GetOr("")
  }

  /** The five cells of an entry; a falsy default is the empty cell. */
  function Fields(d: DictionaryEntry): (f: seq<string>)
    ensures |f| == 5
    ensures f[4] == OrDefault(d.columnDefault, "")
  {
    [Cell(d.tableName), Cell(d.columnName), Cell(d.dataType), Cell(d.isNullable), OrDefault(d.columnDefault, "")]
  }

  function Line(d: DictionaryEntry): string {
    Join(Fields(d), ',')
  }

  function Lines(dictionary: seq<DictionaryEntry>): (r: seq<string>)
    ensures |r| == |dictionary|
    ensures forall i :: 0 <= i < |dictionary| ==> r[i] == Line(dictionary[i])
  {
    seq(|dictionary|, i requires 0 <= i < |dictionary| => Line(dictionary[i]))
  }

  /** The downloaded text: the header line, then one line per entry, joined by newlines, no trailing newline. */
  function Csv(dictionary: seq<DictionaryEntry>): string {
    Join([HeaderLine] + Lines(dictionary), '\n')
  }

  lemma HeaderLineIsHeaderFields()
    ensures Join(HeaderFields, ',') == HeaderLine
    ensures '\n' !in HeaderLine && ',' !in HeaderFields[0]
  {
  }

  /** Whatever the entries hold, the text starts with the header line. */
  lemma CsvStartsWithHeader(dictionary: seq<DictionaryEntry>)
    ensures Split(Csv(dictionary), '\n')[0] == HeaderLine
  {
    var parts := [HeaderLine] + Lines(dictionary);
    if |parts| == 1 {
      SplitNoSeparator(HeaderLine, '\n');
    } else {
      assert Csv(dictionary) == HeaderLine + ['\n'] + Join(parts[1..], '\n');
      SplitAfterPrefix(HeaderLine, Join(parts[1..], '\n'), '\n');
    }
  }

  /** No cell of the entry holds a separator. */
  predicate Plain(d: DictionaryEntry) {
    forall i :: 0 <= i < 5 ==> ',' !in Fields(d)[i] && '\n' !in Fields(d)[i]
  }

  /** A line of plain cells splits back into its cells. */
  lemma LineRoundTrip(d: DictionaryEntry)
    requires Plain(d)
    ensures Split(Line(d), ',') == Fields(d)
    ensures '\n' !in Line(d)
  {
    SplitJoin(Fields(d), ',');
    JoinKeepsOut(Fields(d), ',', '\n');
  }

  /** Joining pieces without `c` on a separator other than `c` gives a text without `c`. */
  lemma {:induction false} JoinKeepsOut(parts: seq<string>, sep: char, c: char)
    requires c != sep
    requires forall i :: 0 <= i < |parts| ==> c !in parts[i]
    ensures c !in Join(parts, sep)
  {
    if |parts| > 1 {
      JoinKeepsOut(parts[1..], sep, c);
    }
  }

  /**
   * With plain cells the text parses back: split on newlines it is the
   * header and one line per entry, and each line splits on commas into the
   * entry's cells.
   */
  lemma CsvRoundTrip(dictionary: seq<DictionaryEntry>)
    requires forall i :: 0 <= i < |dictionary| ==> Plain(dictionary[i])
    ensures Split(Csv(dictionary), '\n') == [HeaderLine] + Lines(dictionary)
    ensures |Split(Csv(dictionary), '\n')| == |dictionary| + 1
    ensures forall i :: 0 <= i < |dictionary| ==>
      Split(Split(Csv(dictionary), '\n')[i + 1], ',') == Fields(dictionary[i])
  {
    var parts := [HeaderLine] + Lines(dictionary);
    forall i | 0 <= i < |parts|
      ensures '\n' !in parts[i]
    {
      if i > 0 {
        LineRoundTrip(dictionary[i - 1]);
      }
    }
    SplitJoin(parts, '\n');
    forall i | 0 <= i < |dictionary|
      ensures Split(parts[i + 1], ',') == Fields(dictionary[i])
    {
      LineRoundTrip(dictionary[i]);
    }
  }

  /** Without quoting, a comma inside a cell makes the line split into six pieces. */
  lemma CommaInCellBreaksLine()
    ensures |Split(Line(DictionaryEntry(Some("a,b"), Some("c"), Some("t"), Some("NO"), None)), ',')| == 6
  {
    var d := DictionaryEntry(Some("a,b"), Some("c"), Some("t"), Some("NO"), None);
    assert Fields(d) == ["a,b", "c", "t", "NO", ""];
    var pieces := ["a", "b", "c", "t", "NO", ""];
    assert Join(pieces, ',') == Line(d);
    SplitJoin(pieces, ',');
  }

  // ---------------------------------------------------------------------
  // Instance statistics
  // ---------------------------------------------------------------------

  const StatsTables: seq<string> := ["property", "unit", "tenant", "lease", "payment", "maintenance_request"]

  /**
   * The row counts, one head-only count query per table in turn; `count`
   * is what the store answers for a table, `None` for no count.
   */
  method FetchInstanceStats(count: string -> Option<nat>) returns (counts: map<string, nat>)
    ensures counts.Keys == set t | t in StatsTables
    ensures forall t :: t in StatsTables ==> counts[t] == count(t).GetOr(0)
  {
    counts := map[];
    for i := 0 to |StatsTables|
      invariant counts.Keys == set k | 0 <= k < i :: StatsTables[k]
      invariant forall k :: 0 <= k < i ==> counts[StatsTables[k]] == count(StatsTables[k]).GetOr(0)
    {
      counts := counts[StatsTables[i] := count(StatsTables[i]).GetOr(0)];
    }
  }
}
