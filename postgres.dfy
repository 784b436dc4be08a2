/**
 The statement builders of the `postgres` package: the SQL text that each
 operation of `PostgresDB` hands to the driver, the `$1, $2, ...` list of
 positional parameters that InsertRow sizes to its argument count, and the
 connection wrapper itself, whose driver is stood in for by a log of the
 calls made to it.
 */
module Postgres {
  import opened Strings

  /** A column of a table: its name and its type, both raw SQL text. */
  datatype TableColumn = TableColumn(name: string, sqlType: string)

  /** A table: its name and its columns, in order. */
  datatype Table = Table(name: string, columns: seq<TableColumn>)

  /** The separator between list items in every statement built here. */
  const ListSeparator: string := ", "

  // ---------------------------------------------------------------------
  // Positional parameters

  /** The k-th positional parameter, written `$` and `k` in decimal. */
  function Marker(k: nat): string
  {
    "$" + NatToDecimal(k)
  }

  /** A PostgreSQL positional parameter reference: a dollar sign and a
      positive decimal number without leading zeros. */
  predicate IsPositionalParameter(m: string)
  {
    |m| >= 2 && m[0] == '$' && IsCanonicalDecimal(m[1..]) && m[1] != '0'
  }

  /** The number a positional parameter refers to. */
  function ParameterNumber(m: string): nat
    requires IsPositionalParameter(m)
  {
    DecimalValue(m[1..])
  }

  /** The markers `$1` to `$n`, in order. */
  function Markers(n: nat): (r: seq<string>)
    ensures |r| == n
  {
    if n == 0 then [] else Markers(n - 1) + [Marker(n)]
  }

  /** What createPlaceholders returns for a count of n. */
  function Placeholders(n: nat): string
  {
    Join(Markers(n), ListSeparator)
  }

  /** createPlaceholders: fills a list of `count` strings with `$1` ...
      `$count` and joins it with ", ". */
  method CreatePlaceholders(count: nat) returns (s: string)
    ensures s == Placeholders(count)
  {
    var placeholders := new string[count];
    for i := 0 to count
      invariant forall k :: 0 <= k < i ==> placeholders[k] == Marker(k + 1)
    {
      placeholders[i] := "$" + NatToDecimal(i + 1);
    }
    forall k | 0 <= k < count
      ensures placeholders[..][k] == Markers(count)[k]
    {
      MarkerAt(count, k);
    }
    assert placeholders[..] == Markers(count);
    s := Join(placeholders[..], ", ");
  }

  /** The marker at index i is the one for parameter i + 1. */
  lemma {:induction false} MarkerAt(n: nat, i: nat)
    requires i < n
    ensures Markers(n)[i] == Marker(i + 1)
  {
    if i < n - 1 {
      MarkerAt(n - 1, i);
    }
  }

  /** `$k` is a well-formed positional parameter that refers to k. */
  lemma MarkerRefersTo(k: nat)
    requires k >= 1
    ensures IsPositionalParameter(Marker(k))
    ensures ParameterNumber(Marker(k)) == k
    ensures ',' !in Marker(k) && ' ' !in Marker(k)
  {
    var d := NatToDecimal(k);
    assert Marker(k)[1..] == d;
    DecimalRoundTrip(k);
    assert Marker(k) == ['$'] + d;
    assert ',' !in d;
    assert ' ' !in d;
  }

  /** The markers are positional parameters numbered 1 to n by position, so
      their numbers increase strictly from left to right. */
  lemma MarkersNumberedInOrder(n: nat)
    ensures forall i :: 0 <= i < n ==>
      IsPositionalParameter(Markers(n)[i]) && ParameterNumber(Markers(n)[i]) == i + 1
    ensures forall i, j :: 0 <= i < j < n ==>
      ParameterNumber(Markers(n)[i]) < ParameterNumber(Markers(n)[j])
  {
    forall i | 0 <= i < n
      ensures IsPositionalParameter(Markers(n)[i]) && ParameterNumber(Markers(n)[i]) == i + 1
    {
      MarkerAt(n, i);
      MarkerRefersTo(i + 1);
    }
  }

  /** The placeholder list is empty exactly when there are no values. */
  lemma PlaceholdersEmpty(n: nat)
    ensures Placeholders(n) == "" <==> n == 0
  {
    if n > 0 {
      MarkerAt(n, 0);
      JoinStartsWithFirst(Markers(n), ListSeparator);
    }
  }

  /** Splitting the placeholder list on ", " gives back the n markers. */
  lemma PlaceholdersSplit(n: nat)
    requires n > 0
    ensures Split(Placeholders(n), ListSeparator) == Markers(n)
  {
    forall i | 0 <= i < n
      ensures ListSeparator[0] !in Markers(n)[i]
    {
      MarkerAt(n, i);
      MarkerRefersTo(i + 1);
    }
    JoinThenSplit(Markers(n), ListSeparator);
  }

  /** The placeholder list holds n dollar signs, one per marker, and n - 1
      separators (as many commas and as many spaces). */
  lemma {:induction false} PlaceholderCounts(n: nat)
    ensures multiset(Placeholders(n))['$'] == n
    ensures multiset(Placeholders(n))[','] == if n == 0 then 0 else n - 1
    ensures multiset(Placeholders(n))[' '] == if n == 0 then 0 else n - 1
  {
    if n > 1 {
      PlaceholderCounts(n - 1);
      JoinSnoc(Markers(n - 1), Marker(n), ListSeparator);
      MarkerCounts(n);
    } else if n == 1 {
      assert Markers(1) == [Marker(1)];
      MarkerCounts(1);
    }
  }

  lemma MarkerCounts(k: nat)
    requires k >= 1
    ensures multiset(Marker(k))['$'] == 1
    ensures multiset(Marker(k))[','] == 0 && multiset(Marker(k))[' '] == 0
  {
    var d := NatToDecimal(k);
    MarkerRefersTo(k);
    assert Marker(k) == "$" + d;
    assert '$' !in d;
  }

  // ---------------------------------------------------------------------
  // Statement text

  /** One column definition of CREATE TABLE: the name, a space, the type. */
  function ColumnDefinition(c: TableColumn): string
  {
    c.name + " " + c.sqlType
  }

  function ColumnDefinitions(columns: seq<TableColumn>): seq<string>
  {
    seq(|columns|, i requires 0 <= i < |columns| => ColumnDefinition(columns[i]))
  }

  /** CreateTable's loop: one definition per column, in column order. */
  method BuildColumnDefinitions(columns: seq<TableColumn>) returns (defs: seq<string>)
    ensures |defs| == |columns|
    ensures forall i :: 0 <= i < |columns| ==> defs[i] == ColumnDefinition(columns[i])
  {
    var columnDefinitions := new string[|columns|];
    for i := 0 to |columns|
      invariant forall k :: 0 <= k < i ==> columnDefinitions[k] == ColumnDefinition(columns[k])
    {
      var column := columns[i];
      columnDefinitions[i] := column.name + " " + column.sqlType;
    }
    defs := columnDefinitions[..];
  }

  const CreateTablePrefix: string := "CREATE TABLE IF NOT EXISTS "
  const DropTablePrefix: string := "DROP TABLE IF EXISTS "
  const InsertPrefix: string := "INSERT INTO "
  const ValuesKeyword: string := " VALUES ("
  const SelectPrefix: string := "SELECT * FROM "
  const DeletePrefix: string := "DELETE FROM "
  const WhereKeyword: string := " WHERE "

  function CreateTableQuery(table: Table): string
  {
    CreateTablePrefix + table.name + " (" + Join(ColumnDefinitions(table.columns), ListSeparator) + ")"
  }

  function DropTableQuery(tableName: string): string
  {
    DropTablePrefix + tableName
  }

  function InsertRowQuery(tableName: string, valueCount: nat): string
  {
    InsertPrefix + tableName + ValuesKeyword + Placeholders(valueCount) + ")"
  }

  function SelectRowsQuery(tableName: string, condition: string): string
  {
    SelectPrefix + tableName + WhereKeyword + condition
  }

  function DeleteRowsQuery(tableName: string, condition: string): string
  {
    DeletePrefix + tableName + WhereKeyword + condition
  }

  /** No column name or type contains a comma. */
  predicate CommaFree(columns: seq<TableColumn>)
  {
    forall i :: 0 <= i < |columns| ==> ',' !in columns[i].name && ',' !in columns[i].sqlType
  }

  /** The CREATE TABLE text is the fixed prefix, the table name and " (",
      then the column list, then ")".  The list is empty exactly when the
      table has no columns.  When no column name or type contains a comma,
      a non-empty list splits on ", " into exactly one definition per
      column, in column order, each the name, a space and the type,
      verbatim. */
  lemma CreateTableOneDefinitionPerColumn(table: Table)
    ensures var q := CreateTableQuery(table);
      var head := CreateTablePrefix + table.name + " (";
      && |q| > |head|
      && q[..|head|] == head
      && q[|q| - 1] == ')'
      && (q[|head|..|q| - 1] == "" <==> |table.columns| == 0)
      && (|table.columns| > 0 && CommaFree(table.columns) ==>
            var defs := Split(q[|head|..|q| - 1], ListSeparator);
            && |defs| == |table.columns|
            && forall i :: 0 <= i < |defs| ==> defs[i] == ColumnDefinition(table.columns[i]))
  {
    var q := CreateTableQuery(table);
    var head := CreateTablePrefix + table.name + " (";
    var defs := ColumnDefinitions(table.columns);
    assert q == head + Join(defs, ListSeparator) + ")";
    assert q[|head|..|q| - 1] == Join(defs, ListSeparator);
    if |defs| > 0 {
      JoinStartsWithFirst(defs, ListSeparator);
      assert |defs[0]| > 0;
      if CommaFree(table.columns) {
        forall i | 0 <= i < |defs|
          ensures ListSeparator[0] !in defs[i]
        {
          assert defs[i] == table.columns[i].name + " " + table.columns[i].sqlType;
        }
        JoinThenSplit(defs, ListSeparator);
      }
    }
  }

  /** Column text is not escaped: a type with a comma in it, such as
      `NUMERIC(10, 2)`, reads as two items of the column list. */
  lemma CommaInColumnTypeSplitsDefinition()
    ensures var t := Table("prices", [TableColumn("amount", "NUMERIC(10, 2)")]);
      var inner := Join(ColumnDefinitions(t.columns), ListSeparator);
      Split(inner, ListSeparator) == ["amount NUMERIC(10", "2)"]
  {
    var t := Table("prices", [TableColumn("amount", "NUMERIC(10, 2)")]);
    var first, second := "amount NUMERIC(10", "2)";
    var def := ColumnDefinition(t.columns[0]);
    assert ColumnDefinitions(t.columns) == [def];
    assert def == first + ListSeparator + second;
    SplitAfterPiece(first, ListSeparator, second);
    SplitWithoutSeparator(second, ListSeparator);
  }

  /** The INSERT statement's value list is its placeholder list: empty
      exactly when no value is bound, and otherwise the markers `$1` to
      `$n`, one per value. */
  lemma InsertRowMarkersMatchValues(tableName: string, valueCount: nat)
    ensures var q := InsertRowQuery(tableName, valueCount);
      var head := InsertPrefix + tableName + ValuesKeyword;
      && |q| > |head|
      && q[..|head|] == head
      && q[|q| - 1] == ')'
      && (valueCount == 0 <==> q[|head|..|q| - 1] == "")
      && (valueCount > 0 ==> Split(q[|head|..|q| - 1], ListSeparator) == Markers(valueCount))
  {
    var q := InsertRowQuery(tableName, valueCount);
    var head := InsertPrefix + tableName + ValuesKeyword;
    var list := Placeholders(valueCount);
    assert q == head + list + ")";
    assert q[|head|..|q| - 1] == list;
    PlaceholdersEmpty(valueCount);
    if valueCount > 0 {
      PlaceholdersSplit(valueCount);
    }
  }

  /** The INSERT statement holds one dollar sign per bound value besides
      whatever dollar signs the table name itself contains. */
  lemma InsertRowDollarCount(tableName: string, valueCount: nat)
    ensures multiset(InsertRowQuery(tableName, valueCount))['$'] == multiset(tableName)['$'] + valueCount
  {
    var list := Placeholders(valueCount);
    PlaceholderCounts(valueCount);
    assert InsertRowQuery(tableName, valueCount) == InsertPrefix + tableName + ValuesKeyword + list + ")";
    assert multiset(InsertPrefix)['$'] == 0 && multiset(ValuesKeyword)['$'] == 0 && multiset(")")['$'] == 0;
  }

  /** DROP TABLE carries the table name verbatim after its fixed prefix,
      so different names give different statements. */
  lemma DropTableNameVerbatim(a: string, b: string)
    ensures DropTableQuery(a)[|DropTablePrefix|..] == a
    ensures DropTableQuery(a) == DropTableQuery(b) <==> a == b
  {
  }

  /** A statement built as prefix, name, " WHERE ", condition determines
      its name and condition, provided the names contain no space. */
  lemma {:induction false} WhereClauseDelimited(prefix: string, n1: string, c1: string, n2: string, c2: string)
    requires ' ' !in n1 && ' ' !in n2
    ensures prefix + n1 + WhereKeyword + c1 == prefix + n2 + WhereKeyword + c2 <==> n1 == n2 && c1 == c2
  {
    var q1 := prefix + n1 + WhereKeyword + c1;
    var q2 := prefix + n2 + WhereKeyword + c2;
    if q1 == q2 {
      assert q1[|prefix| + |n1|] == ' ' && q2[|prefix| + |n2|] == ' ';
      assert |n1| == |n2|;
      assert n1 == q1[|prefix|..|prefix| + |n1|];
      assert n2 == q2[|prefix|..|prefix| + |n2|];
      assert c1 == q1[|prefix| + |n1| + |WhereKeyword|..];
      assert c2 == q2[|prefix| + |n2| + |WhereKeyword|..];
    }
  }

  /** SELECT carries the table name and the condition verbatim: the
      statement ends with the condition, and for space-free table names
      distinct inputs give distinct statements. */
  lemma SelectRowsVerbatim(tableName: string, condition: string, otherName: string, otherCondition: string)
    ensures var q := SelectRowsQuery(tableName, condition);
      && q[..|SelectPrefix|] == SelectPrefix
      && q[|SelectPrefix|..|SelectPrefix| + |tableName|] == tableName
      && q[|q| - |condition|..] == condition
    ensures ' ' !in tableName && ' ' !in otherName ==>
      ((SelectRowsQuery(tableName, condition) == SelectRowsQuery(otherName, otherCondition))
       <==> (tableName == otherName && condition == otherCondition))
  {
    var q := SelectRowsQuery(tableName, condition);
    assert q == SelectPrefix + tableName + WhereKeyword + condition;
    if ' ' !in tableName && ' ' !in otherName {
      WhereClauseDelimited(SelectPrefix, tableName, condition, otherName, otherCondition);
    }
  }

  /** DELETE carries the table name and the condition verbatim, as SELECT does. */
  lemma DeleteRowsVerbatim(tableName: string, condition: string, otherName: string, otherCondition: string)
    ensures var q := DeleteRowsQuery(tableName, condition);
      && q[..|DeletePrefix|] == DeletePrefix
      && q[|DeletePrefix|..|DeletePrefix| + |tableName|] == tableName
      && q[|q| - |condition|..] == condition
    ensures ' ' !in tableName && ' ' !in otherName ==>
      ((DeleteRowsQuery(tableName, condition) == DeleteRowsQuery(otherName, otherCondition))
       <==> (tableName == otherName && condition == otherCondition))
  {
    var q := DeleteRowsQuery(tableName, condition);
    assert q == DeletePrefix + tableName + WhereKeyword + condition;
    if ' ' !in tableName && ' ' !in otherName {
      WhereClauseDelimited(DeletePrefix, tableName, condition, otherName, otherCondition);
    }
  }

  /** Nothing marks where the table name ends: a name that itself holds
      " WHERE " gives the same SELECT and DELETE text as a plain name with a
      longer condition. */
  lemma TableNameNotDelimited()
    ensures SelectRowsQuery("a WHERE b", "c") == SelectRowsQuery("a", "b WHERE c")
    ensures DeleteRowsQuery("a WHERE b", "c") == DeleteRowsQuery("a", "b WHERE c")
  {
  }

  // ---------------------------------------------------------------------
  // The connection wrapper

  /** A value bound to a positional parameter; only how many there are
      affects the statement text. */
  type Value

  /** A call made to the driver: a statement executed, a statement queried
      for rows, or the connection closed. */
  datatype DriverCall =
    | Exec(query: string, args: seq<Value>)
    | Query(query: string, args: seq<Value>)
    | Close

  /** PostgresDB: the wrapped connection.  `issued` lists, oldest first,
      every call made to the driver through this wrapper. */
  class PostgresDB {
    const connectionString: string
    var issued: seq<DriverCall>

    /** NewPostgresDB: a wrapper over a freshly opened connection. */
    constructor (connectionString: string)
      ensures this.connectionString == connectionString
      ensures issued == []
    {
      this.connectionString := connectionString;
      issued := [];
    }

    method Close()
      modifies this
      ensures issued == old(issued) + [DriverCall.Close]
    {
      issued := issued + [DriverCall.Close];
    }

    method CreateTable(table: Table)
      modifies this
      ensures issued == old(issued) + [Exec(CreateTableQuery(table), [])]
    {
      var columnDefinitions := BuildColumnDefinitions(table.columns);
      assert columnDefinitions == ColumnDefinitions(table.columns);
      var query := "CREATE TABLE IF NOT EXISTS " + table.name + " (" + Join(columnDefinitions, ", ") + ")";
      issued := issued + [Exec(query, [])];
    }

    method DropTable(tableName: string)
      modifies this
      ensures issued == old(issued) + [Exec(DropTableQuery(tableName), [])]
    {
      var query := "DROP TABLE IF EXISTS " + tableName;
      issued := issued + [Exec(query, [])];
    }

    /** Executes the INSERT with every value bound, in order; the statement
        has exactly one marker per value (InsertRowMarkersMatchValues). */
    method InsertRow(tableName: string, values: seq<Value>)
      modifies this
      ensures issued == old(issued) + [Exec(InsertRowQuery(tableName, |values|), values)]
    {
      var placeholders := CreatePlaceholders(|values|);
      var query := "INSERT INTO " + tableName + " VALUES (" + placeholders + ")";
      issued := issued + [Exec(query, values)];
    }

    method SelectRows(tableName: string, condition: string, args: seq<Value>)
      modifies this
      ensures issued == old(issued) + [Query(SelectRowsQuery(tableName, condition), args)]
    {
      var query := "SELECT * FROM " + tableName + " WHERE " + condition;
      issued := issued + [Query(query, args)];
    }

    method DeleteRows(tableName: string, condition: string, args: seq<Value>)
      modifies this
      ensures issued == old(issued) + [Exec(DeleteRowsQuery(tableName, condition), args)]
    {
      var query := "DELETE FROM " + tableName + " WHERE " + condition;
      issued := issued + [Exec(query, args)];
    }
  }
}
