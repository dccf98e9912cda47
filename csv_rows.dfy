/** The row model shared by the three kit-catalogue parsers.

    The catalogue is a headerless CSV file: csv-parser hands each row over as a list of
    column strings. Only columns 1, 2 and 3 are read, each trimmed, and a missing or empty
    column reads as "". A kit block starts at a header row whose column 1 names the kit
    (it contains the marker "BRAÇO J") and whose column 2 is empty; item rows below it have a
    code in column 1, a description in column 2 and a quantity in column 3. */
module CsvRows {
  import opened Common
  import Text

  type Row = seq<string>

  /** What reading one file yields: its rows, or the error the stream reported. */
  datatype Content = Rows(rows: seq<Row>) | Unreadable(message: string)

  /** The text every kit name contains. */
  const KitMarker: string := "BRA\U{00C7}O J"

  /** Column `i` of `row`, trimmed; "" when the row has no such column. */
  function Cell(row: Row, i: nat): string
  {
    if i < |row| then Text.Trim(row[i]) else ""
  }

  /** A kit header: column 1 is non-empty and names a kit, column 2 is empty. */
  predicate IsKitHeader(row: Row)
  {
    Cell(row, 1) != "" && Text.Contains(Cell(row, 1), KitMarker) && Cell(row, 2) == ""
  }

  /** An item row: both the code (column 1) and the description (column 2) are non-empty. */
  predicate IsItemRow(row: Row)
  {
    Cell(row, 1) != "" && Cell(row, 2) != ""
  }

  /** The current kit once the first `n` rows have been read: the name in the most recent
      kit header, or None before the first one. */
  function KitAfter(rows: seq<Row>, n: nat): (kit: Option<string>)
    requires n <= |rows|
    ensures kit.Some? ==> kit.value != "" && Text.Contains(kit.value, KitMarker)
  {
    if n == 0 then None
    else if IsKitHeader(rows[n - 1]) then Some(Cell(rows[n - 1], 1))
    else KitAfter(rows, n - 1)
  }

  /** Rows that are not kit headers do not change the current kit: a block ends only at
      the next header. */
  lemma {:induction false} KitUnchangedWithoutHeader(rows: seq<Row>, i: nat, n: nat)
    requires i <= n <= |rows|
    requires forall m :: i <= m < n ==> !IsKitHeader(rows[m])
    ensures KitAfter(rows, n) == KitAfter(rows, i)
  {
    if n > i {
      KitUnchangedWithoutHeader(rows, i, n - 1);
    }
  }

  /** The current kit is the name in the last header before position `n`, and there is
      none exactly when no header precedes `n`. */
  lemma {:induction false} KitAfterIsLastHeader(rows: seq<Row>, n: nat)
    requires n <= |rows|
    ensures KitAfter(rows, n).None? <==> forall m :: 0 <= m < n ==> !IsKitHeader(rows[m])
    ensures forall j :: 0 <= j < n && IsKitHeader(rows[j])
                        && (forall m :: j < m < n ==> !IsKitHeader(rows[m]))
                        ==> KitAfter(rows, n) == Some(Cell(rows[j], 1))
  {
    if n > 0 {
      KitAfterIsLastHeader(rows, n - 1);
      forall j | 0 <= j < n && IsKitHeader(rows[j]) && (forall m :: j < m < n ==> !IsKitHeader(rows[m]))
        ensures KitAfter(rows, n) == Some(Cell(rows[j], 1))
      {
        KitUnchangedWithoutHeader(rows, j + 1, n);
      }
    }
  }
}
