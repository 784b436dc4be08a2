# postgres statement builders, in Dafny

The Go package `postgres` wraps a `database/sql` handle in `PostgresDB`.
Under the driver calls, its logic is all string construction.
`CreateTable`, `DropTable`, `InsertRow`, `SelectRows` and `DeleteRows` each
paste caller-supplied text into a fixed SQL template. `createPlaceholders`
builds the list `$1, $2, ..., $n` of PostgreSQL positional parameters
(section 4.2.2 "Positional Parameters" of the PostgreSQL manual) that
`InsertRow` sizes to its argument count.

The model has two modules:

- `Strings` (strings.dfy) covers the Go library behaviour the builders rely
  on. `Join` is `strings.Join`. `NatToDecimal` is the `%d` verb for
  non-negative integers. `Split` is Go's `strings.Split` with a non-empty
  separator. The package never calls it. The model uses it only to read
  `Join`'s output back. The partner lemmas are:
  - joining the pieces of any split gives back the string;
  - splitting a join gives back the parts when the list is non-empty and no
    part contains the separator's first character (the empty list joins to
    "", which splits to [""]);
  - `DecimalValue` reads back every number `NatToDecimal` writes;
  - `NatToDecimal` writes back every numeral without leading zeros
    (`DecimalValue("07")` is 7, but 7 is written "7").
- `Postgres` (postgres.dfy) holds the two descriptor datatypes and the
  placeholder generator. `CreatePlaceholders` is a method with the source's
  fill-then-join loop, proved equal to the function `Placeholders`. The
  module also holds the column-definition loop, one query function per
  operation, and the `PostgresDB` class. The class stands in for the driver
  with a log `issued` of the calls made to it. Each operation appends
  exactly one call, carrying the statement text and its bound arguments
  unchanged.

Identifiers and conditions go into the text verbatim, with no quoting or
validation. The model adds none. Its lemmas show what follows from that:
- a column type with a comma in it breaks the column list apart;
- a table name containing ` WHERE ` cannot be told apart from a longer
  condition.

`DropTable` issues `DROP TABLE IF EXISTS`. No identifier is checked locally,
so every error comes from the driver.

## Model

| member | source | states |
|---|---|---|
| `Strings.Join` | postgres.go:85 | no contract; the model of `strings.Join` (also used at postgres.go:48): "" for no parts, the only part for one, else the first part, the separator and the join of the rest |
| `Strings.NatToDecimal` | postgres.go:83 | `%d` writes a non-empty string of digits whose first digit is '0' only for zero, so there are no leading zeros |
| `Strings.DecimalRoundTrip` | postgres.go:83 | reading back the digits `%d` wrote gives the original number, so distinct parameter numbers are written differently |
| `Strings.CanonicalRoundTrip` | postgres.go:83 | every numeral without leading zeros is what `%d` writes for its value, so `%d` is a bijection onto such numerals |
| `Strings.SplitThenJoin` | postgres.go:85 | joining the pieces of any split with the same separator gives back the input |
| `Strings.JoinThenSplit` | postgres.go:85 | for a non-empty list whose parts do not contain the separator's first character, splitting the join returns the parts, in order and with their count |
| `Postgres.Marker` | postgres.go:83 | no contract; `$` followed by `NatToDecimal(k)`, the `%d` rendering of k |
| `Postgres.Placeholders` | postgres.go:80-86 | no contract; the value createPlaceholders returns: `Join(Markers(n), ", ")` |
| `Postgres.Markers` | postgres.go:81-84 | the marker list for a count n has exactly n entries |
| `Postgres.CreatePlaceholders` | postgres.go:80-86 | the loop that fills slot i with `$` and i+1 in decimal and joins the slots with ", " returns exactly `Placeholders(count)` |
| `Postgres.MarkerAt` | postgres.go:82-83 | the marker at index i is `$` followed by the decimal rendering of i + 1 |
| `Postgres.MarkerRefersTo` | postgres.go:83 | `$k` for k >= 1 is a well-formed positional parameter that refers to k and contains no comma or space |
| `Postgres.MarkersNumberedInOrder` | postgres.go:82-83 | the markers are positional parameters numbered 1..n by position, strictly increasing left to right |
| `Postgres.PlaceholdersEmpty` | postgres.go:80-85 | the placeholder list is the empty string if and only if the count is zero |
| `Postgres.PlaceholdersSplit` | postgres.go:83-85 | for a positive count, splitting the placeholder list on ", " recovers the marker sequence |
| `Postgres.PlaceholderCounts` | postgres.go:81-85 | the placeholder list holds exactly n dollar signs and n - 1 separators (n - 1 commas, n - 1 spaces), none for n = 0 |
| `Postgres.ColumnDefinition` | postgres.go:45 | no contract; the column name, one space, the column type |
| `Postgres.ColumnDefinitions` | postgres.go:43-46 | no contract; `ColumnDefinition` of each column, in column order |
| `Postgres.CreateTableQuery` | postgres.go:48 | no contract; `CREATE TABLE IF NOT EXISTS `, the table name, ` (`, the column definitions joined with ", ", then `)` |
| `Postgres.DropTableQuery` | postgres.go:55 | no contract; `DROP TABLE IF EXISTS ` followed by the name |
| `Postgres.InsertRowQuery` | postgres.go:62 | no contract; `INSERT INTO `, the table name, ` VALUES (`, `Placeholders(valueCount)`, then `)` |
| `Postgres.SelectRowsQuery` | postgres.go:69 | no contract; `SELECT * FROM `, the table name, ` WHERE `, the condition |
| `Postgres.DeleteRowsQuery` | postgres.go:75 | no contract; `DELETE FROM `, the table name, ` WHERE `, the condition |
| `Postgres.BuildColumnDefinitions` | postgres.go:43-46 | the loop yields one definition per column, in column order, each the column name, one space and the column type, verbatim |
| `Postgres.CreateTableOneDefinitionPerColumn` | postgres.go:43-48 | for every table, the CREATE TABLE text is the fixed prefix, the table name and " (", then the column list, then ")"; the list is empty if and only if there are no columns; when there are columns and no name or type holds a comma, the list splits on ", " into exactly one definition per column, in input order |
| `Postgres.CommaInColumnTypeSplitsDefinition` | postgres.go:45-48 | column text is not escaped: the type `NUMERIC(10, 2)` makes one column read as two list items |
| `Postgres.InsertRowMarkersMatchValues` | postgres.go:62 | the INSERT value list is empty exactly when no value is bound, and otherwise splits into `$1`..`$n` for n bound values |
| `Postgres.InsertRowDollarCount` | postgres.go:62-63 | the INSERT text holds one dollar sign per bound value beyond those in the table name |
| `Postgres.DropTableNameVerbatim` | postgres.go:55 | the DROP TABLE text is the fixed prefix followed by the name verbatim, so two texts are equal if and only if the names are |
| `Postgres.WhereClauseDelimited` | postgres.go:69-75 | a prefix, a name, " WHERE " and a condition determine each other when the names contain no space (both directions) |
| `Postgres.SelectRowsVerbatim` | postgres.go:69 | SELECT text starts with "SELECT * FROM ", then the table name verbatim, and ends with the condition verbatim; for space-free names, equal texts mean equal inputs |
| `Postgres.DeleteRowsVerbatim` | postgres.go:75 | DELETE text starts with "DELETE FROM ", then the table name verbatim, and ends with the condition verbatim; for space-free names, equal texts mean equal inputs |
| `Postgres.TableNameNotDelimited` | postgres.go:69-75 | nothing marks where an unescaped table name ends: ("a WHERE b", "c") and ("a", "b WHERE c") give the same SELECT and the same DELETE |
| `Postgres.PostgresDB.constructor` | postgres.go:28-34 | a new wrapper keeps its connection string and has issued no driver call |
| `Postgres.PostgresDB.Close` | postgres.go:37-39 | closing appends exactly one Close call to the driver log |
| `Postgres.PostgresDB.CreateTable` | postgres.go:42-51 | appends exactly one Exec of the CREATE TABLE text built by the column loop, with no arguments |
| `Postgres.PostgresDB.DropTable` | postgres.go:54-58 | appends exactly one Exec of "DROP TABLE IF EXISTS " and the name, with no arguments |
| `Postgres.PostgresDB.InsertRow` | postgres.go:61-65 | appends exactly one Exec of the INSERT text with one marker per value, passing the values unchanged in order |
| `Postgres.PostgresDB.SelectRows` | postgres.go:68-71 | appends exactly one Query of the SELECT text, passing the arguments unchanged in order |
| `Postgres.PostgresDB.DeleteRows` | postgres.go:74-77 | appends exactly one Exec of the DELETE text, passing the arguments unchanged in order |

## Left out

- What the driver returns is not modelled. This covers `sql.Open`'s error, and the errors, `*sql.Rows` and `sql.Result` from `Exec`, `Query` and `Close`. These calls go into code outside this package. The model records each `Exec`, `Query` and `Close` call in `issued` and returns nothing from it. The constructor takes `sql.Open`'s success for granted and logs nothing for it.
- Error propagation is not modelled. Every error is the driver's, returned unchanged, and no local logic produces one.
- Database semantics are not modelled: rows stored, rows matched, rows affected, and `IF NOT EXISTS` idempotence. They belong to the PostgreSQL server.
- postgres_test.go is not modelled. Each of its assertions needs a live server.
- The bound values are an opaque type `Value`. Only their number affects the statement text, and the log carries them through unchanged.
- Go strings are byte sequences, usually UTF-8 text. The model uses sequences of Unicode characters, so a name, type or condition that is not valid UTF-8 is outside the model. For valid UTF-8 every operation here only concatenates, and the separators and markers are ASCII, so the difference does not show.
- `Postgres.CreatePlaceholders` takes a `nat`. Its only caller passes `len(values)`, which is never negative. The panic of `make` on a negative count is not modelled.
- Concurrent use of one `PostgresDB` is not modelled. The wrapper adds no coordination of its own.
