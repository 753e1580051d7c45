/** The CSV shaping of Utilities: the row inputDataToCsvRow builds, and
    the records saveToCsv passes to fputcsv (the file itself is left out). */
module Utilities {
  import opened PhpValues
  import opened DataProcessor

  // ---------------------------------------------------------------------
  // inputDataToCsvRow

  const IdKey := "example_id"

  /** The row inputDataToCsvRow returns: the id under 'example_id', then
      each content entry assigned over it, in content order. */
  function InputRow(ex: Example): Fields {
    AssignAll([(IdKey, Str(ex.id))], ex.content)
  }

  method InputDataToCsvRow(ex: Example) returns (row: Fields)
    ensures row == InputRow(ex)
  {
    row := [(IdKey, Str(ex.id))];
    for i := 0 to |ex.content|
      invariant row == AssignAll([(IdKey, Str(ex.id))], ex.content[..i])
    {
      var (key, value) := ex.content[i];
      row := Assign(row, key, value);
      assert ex.content[..i + 1][..i] == ex.content[..i];
    }
    assert ex.content[..|ex.content|] == ex.content;
  }

  /** The row starts with 'example_id'. That key holds the id unless the
      content has an 'example_id' of its own, whose value then replaces
      the id in first position. */
  lemma InputRowId(ex: Example)
    requires DistinctKeys(ex.content)
    ensures var row := InputRow(ex);
      && |row| >= 1 && row[0].0 == IdKey
      && Lookup(row, IdKey) == if IdKey in Keys(ex.content) then Lookup(ex.content, IdKey) else Some(Str(ex.id))
  {
    AssignAllKeys([(IdKey, Str(ex.id))], ex.content);
    assert Keys(InputRow(ex))[..1] == [IdKey];
    LookupAssignAll([(IdKey, Str(ex.id))], ex.content, IdKey);
  }

  /** Every content key is copied with its value, no other key than
      'example_id' appears, and no key is repeated. */
  lemma InputRowContent(ex: Example)
    requires DistinctKeys(ex.content)
    ensures var row := InputRow(ex);
      && DistinctKeys(row)
      && (forall k :: k in Keys(row) <==> k == IdKey || k in Keys(ex.content))
      && (forall k :: k in Keys(ex.content) ==> Lookup(row, k) == Lookup(ex.content, k))
  {
    var init := [(IdKey, Str(ex.id))];
    assert Keys(init) == [IdKey];
    AssignAllKeys(init, ex.content);
    AssignAllDistinct(init, ex.content);
    forall k | k in Keys(ex.content) ensures Lookup(InputRow(ex), k) == Lookup(ex.content, k) {
      LookupAssignAll(init, ex.content, k);
    }
  }

  /** Without an 'example_id' in the content, the row is the id followed
      by the content entries, in their order. */
  lemma InputRowFresh(ex: Example)
    requires DistinctKeys(ex.content) && IdKey !in Keys(ex.content)
    ensures InputRow(ex) == [(IdKey, Str(ex.id))] + ex.content
  {
    AssignAllFresh([(IdKey, Str(ex.id))], ex.content);
  }

  // ---------------------------------------------------------------------
  // saveToCsv

  /** The header: 'example_id', then the content keys of the first example. */
  function Header(first: Example): seq<string> {
    [IdKey] + Keys(first.content)
  }

  /** The record of one example: its id, then its content values in order,
      each as fputcsv writes it. */
  function Record(ex: Example): seq<string> {
    [ex.id] + Texts(Values(ex.content))
  }

  /** Everything saveToCsv writes: a header when there is data, then one
      record per example, in order. */
  function CsvRecords(data: seq<Example>): seq<seq<string>> {
    (if data == [] then [] else [Header(data[0])]) + seq(|data|, i requires 0 <= i < |data| => Record(data[i]))
  }

  /** saveToCsv with the fputcsv calls collected as records. */
  method SaveToCsv(data: seq<Example>) returns (records: seq<seq<string>>)
    ensures records == CsvRecords(data)
  {
    records := [];
    if data != [] {
      var firstExample := data[0];
      records := records + [[IdKey] + Keys(firstExample.content)];
    }
    ghost var header := records;
    for i := 0 to |data|
      invariant records == header + seq(i, j requires 0 <= j < i => Record(data[j]))
    {
      var example := data[i];
      var csvRow := [example.id] + Texts(Values(example.content));
      records := records + [csvRow];
    }
  }

  /** The layout of the file: a header only for non-empty data, then one
      record per example in input order, each as long as the example's
      content plus the id column. */
  lemma CsvLayout(data: seq<Example>)
    ensures var records := CsvRecords(data);
      var h := if data == [] then 0 else 1;
      && |records| == h + |data|
      && (data != [] ==> records[0] == [IdKey] + Keys(data[0].content))
      && forall i :: 0 <= i < |data| ==>
           && records[h + i] == Record(data[i])
           && |records[h + i]| == 1 + |data[i].content|
           && records[h + i][0] == data[i].id
  {
  }

  /** Columns line up for every example with the first example's keys in
      the same order: each record is as long as the header, and column j
      holds the text of the example's value under the header's j-th key. */
  lemma ColumnsLineUp(data: seq<Example>, i: nat, j: nat)
    requires i < |data| && Keys(data[i].content) == Keys(data[0].content)
    requires DistinctKeys(data[i].content)
    requires 1 <= j <= |data[0].content|
    ensures var records := CsvRecords(data);
      && |records[1 + i]| == |records[0]|
      && Lookup(data[i].content, records[0][j]).Some?
      && records[1 + i][j] == Text(Lookup(data[i].content, records[0][j]).value)
  {
    var records := CsvRecords(data);
    assert records[0][j] == Keys(data[0].content)[j - 1] == data[i].content[j - 1].0;
    LookupAt(data[i].content, j - 1);
  }

  /** The two row shapes agree when the content has no 'example_id' of its
      own: the keys of inputDataToCsvRow's row are the header saveToCsv
      writes for the example, and its values, as fputcsv writes them, are
      the record. */
  lemma InputRowMatchesRecord(ex: Example)
    requires DistinctKeys(ex.content) && IdKey !in Keys(ex.content)
    ensures Keys(InputRow(ex)) == Header(ex)
    ensures Texts(Values(InputRow(ex))) == Record(ex)
  {
    InputRowFresh(ex);
    KeysCons((IdKey, Str(ex.id)), ex.content);
    assert Values(InputRow(ex)) == [Str(ex.id)] + Values(ex.content);
  }
}
