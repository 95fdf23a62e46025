/** The CSV sink: the header is the key list of the first record, and every record is
    written as one row holding, for each header column, that record's value under the
    column's name. Quoting, line endings and the file itself are not modelled: the
    output is the table of cells. */
module CsvSink {
  import opened Shopify
  import opened Records

  /** What is written: the header line and one line of cells per record. A `Null` cell
      is written as an empty field. */
  datatype Table = Table(header: seq<string>, rows: seq<seq<Scalar>>)

  /** The value a dictionary holds under `key`, the first one when the key repeats; an
      empty cell when the key is absent. */
  function Lookup(items: seq<(string, Scalar)>, key: string): Scalar
    decreases |items|
  {
    if items == [] then Null
    else if items[0].0 == key then items[0].1
    else Lookup(items[1..], key)
  }

  /** One line of cells: the record's value for each column of the header, in order. */
  function Row(header: seq<string>, r: Record): (row: seq<Scalar>)
    ensures |row| == |header|
  {
    seq(|header|, j requires 0 <= j < |header| => Lookup(Items(r), header[j]))
  }

  /** The table written for `data`; the column names are the keys of the first record,
      which is why `data` must not be empty. */
  function SaveToCsv(data: seq<Record>): (t: Table)
    requires |data| > 0
  {
    var header := Keys(Items(data[0]));
    Table(header, seq(|data|, k requires 0 <= k < |data| => Row(header, data[k])))
  }

  /** In a dictionary whose keys before position `j` differ from the key at `j`, looking
      that key up yields the value at `j`. */
  lemma {:induction false} LookupAt(items: seq<(string, Scalar)>, j: nat)
    requires j < |items|
    requires forall i | 0 <= i < j :: items[i].0 != items[j].0
    ensures Lookup(items, items[j].0) == items[j].1
    decreases j
  {
    if j > 0 {
      var rest := items[1..];
      assert forall i | 0 <= i < j - 1 :: rest[i].0 != rest[j - 1].0 by {
        forall i | 0 <= i < j - 1 ensures rest[i].0 != rest[j - 1].0 {
          assert rest[i] == items[i + 1];
        }
      }
      LookupAt(rest, j - 1);
    }
  }

  /** No column name appears twice. */
  lemma FieldNamesDistinct()
    ensures forall i, j | 0 <= i < j < |FieldNames| :: FieldNames[i] != FieldNames[j]
  {
    forall i, j | 0 <= i < j < |FieldNames| ensures FieldNames[i] != FieldNames[j] {
      // The names differ in their length or in one of their first three letters.
      assert FieldNames[i][..2] != FieldNames[j][..2] || |FieldNames[i]| != |FieldNames[j]|
        || FieldNames[i][2] != FieldNames[j][2];
    }
  }

  /** Under the common header, a record's line is its values in key order: nothing is
      dropped, repeated or moved to another column. */
  lemma RowIsValues(r: Record)
    ensures Row(FieldNames, r) == Values(Items(r))
  {
    var items := Items(r);
    RecordKeys(r);
    FieldNamesDistinct();
    forall j | 0 <= j < |FieldNames| ensures Row(FieldNames, r)[j] == Values(items)[j] {
      assert items[j].0 == FieldNames[j];
      assert forall i | 0 <= i < j :: items[i].0 == FieldNames[i];
      LookupAt(items, j);
    }
  }

  /** The header is the ten column names in order, and the table has one line per
      record holding that record's values. */
  lemma SaveToCsvColumns(data: seq<Record>)
    requires |data| > 0
    ensures SaveToCsv(data).header == FieldNames
    ensures |SaveToCsv(data).rows| == |data|
    ensures forall k | 0 <= k < |data| :: SaveToCsv(data).rows[k] == Values(Items(data[k]))
  {
    RecordKeys(data[0]);
    forall k | 0 <= k < |data| ensures SaveToCsv(data).rows[k] == Values(Items(data[k])) {
      RowIsValues(data[k]);
    }
  }

  /** Every record has exactly the header's keys, so no record is rejected for a key
      outside the header. */
  lemma KeysMatchHeader(data: seq<Record>)
    requires |data| > 0
    ensures forall k | 0 <= k < |data| :: Keys(Items(data[k])) == SaveToCsv(data).header
  {
    RecordKeys(data[0]);
    forall k | 0 <= k < |data| ensures Keys(Items(data[k])) == FieldNames {
      RecordKeys(data[k]);
    }
  }
}
