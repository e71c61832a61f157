/** Record extraction (`get_records`), as a specification: which records the stream emits,
    in which order, and what each one holds. */
module Records {
  import opened Common
  import opened Dicts
  import opened Schema

  /** One emitted record: `dict(zip(header, row))`. */
  type Record = map<string, Value>

  /** A decoded CSV row as record values: every cell becomes a string value. */
  function Strs(row: seq<string>): (vs: seq<Value>)
    ensures |vs| == |row|
    ensures forall i :: 0 <= i < |row| ==> vs[i] == Str(row[i])
  {
    seq(|row|, i requires 0 <= i < |row| => Str(row[i]))
  }

  /** The values paired with the header for the row at index `lineno` of a file; with
      metadata on they are `[file_path, file_last_modified, file_lineno, *row]`. */
  function RowValues(filePath: string, mtime: int, lineno: int, row: seq<string>, withMetadata: bool): (vs: seq<Value>)
    ensures |vs| == |row| + (if withMetadata then 3 else 0)
    ensures withMetadata ==> vs[0] == Str(filePath) && vs[1] == DateTime(mtime) && vs[2] == Int(lineno)
    ensures withMetadata ==> vs[3..] == Strs(row)
    ensures !withMetadata ==> vs == Strs(row)
  {
    if withMetadata then [Str(filePath), DateTime(mtime), Int(lineno)] + Strs(row) else Strs(row)
  }

  /** The record built from the row at index `lineno` of a file. */
  function RowRecord(header: seq<string>, filePath: string, mtime: int, lineno: int, row: seq<string>, withMetadata: bool): Record
  {
    ZipToMap(header, RowValues(filePath, mtime, lineno, row, withMetadata))
  }

  /** The row loop of `get_records` over one file, whatever is built from each row: the
      row at index 0 (the header row) is skipped, and every later row is passed to `build`
      together with its index as line number, in file order. */
  function DataLines<R>(rows: seq<seq<string>>, build: (int, seq<string>) -> R): (rs: seq<R>)
    ensures |rs| == if |rows| == 0 then 0 else |rows| - 1
  {
    if |rows| <= 1 then []
    else DataLines(rows[..|rows| - 1], build) + [build(|rows| - 1, rows[|rows| - 1])]
  }

  /** Entry j of the row loop comes from the row at index j + 1, with line number j + 1. */
  lemma {:induction false} DataLinesAt<R>(rows: seq<seq<string>>, build: (int, seq<string>) -> R, j: nat)
    requires j + 1 < |rows|
    ensures j < |DataLines(rows, build)| && DataLines(rows, build)[j] == build(j + 1, rows[j + 1])
  {
    var init := rows[..|rows| - 1];
    assert DataLines(rows, build) == DataLines(init, build) + [build(|rows| - 1, rows[|rows| - 1])];
    if j + 2 < |rows| {
      DataLinesAt(init, build, j);
      assert init[j + 1] == rows[j + 1];
    }
  }

  /** One iteration of the row loop: the row at index k adds an entry unless k is 0. */
  lemma DataLinesNext<R>(rows: seq<seq<string>>, build: (int, seq<string>) -> R, k: nat)
    requires k < |rows|
    ensures DataLines(rows[..k + 1], build)
      == DataLines(rows[..k], build) + (if k == 0 then [] else [build(k, rows[k])])
  {
    assert rows[..k + 1][..k] == rows[..k];
  }

  /** How the records of one file are built from its rows. */
  function RowBuilder(header: seq<string>, filePath: string, mtime: int, withMetadata: bool): (int, seq<string>) -> Record
  {
    (lineno: int, row: seq<string>) => RowRecord(header, filePath, mtime, lineno, row, withMetadata)
  }

  /** The records of one file: each row after the first (the header row, index 0) in file
      order, the row at index i tagged with line number i. A file with n rows gives
      max(n - 1, 0) records: only the header row is dropped. */
  function RecordsOfFile(header: seq<string>, filePath: string, mtime: int, rows: seq<seq<string>>, withMetadata: bool): (rs: seq<Record>)
    ensures |rs| == if |rows| == 0 then 0 else |rows| - 1
  {
    DataLines(rows, RowBuilder(header, filePath, mtime, withMetadata))
  }

  /** The header row is skipped and nothing else: record j comes from the row at index
      j + 1 and is tagged with line number j + 1. */
  lemma RecordsOfFileAt(header: seq<string>, filePath: string, mtime: int, rows: seq<seq<string>>, withMetadata: bool, j: nat)
    requires j + 1 < |rows|
    ensures var rs := RecordsOfFile(header, filePath, mtime, rows, withMetadata);
      j < |rs| && rs[j] == RowRecord(header, filePath, mtime, j + 1, rows[j + 1], withMetadata)
  {
    DataLinesAt(rows, RowBuilder(header, filePath, mtime, withMetadata), j);
  }

  /** One iteration of the row loop of `get_records`: the row at index k > 0 adds one record. */
  lemma RecordsOfFileNext(header: seq<string>, filePath: string, mtime: int, rows: seq<seq<string>>, k: nat, withMetadata: bool)
    requires k < |rows|
    ensures RecordsOfFile(header, filePath, mtime, rows[..k + 1], withMetadata)
      == RecordsOfFile(header, filePath, mtime, rows[..k], withMetadata)
        + (if k == 0 then [] else [RowRecord(header, filePath, mtime, k, rows[k], withMetadata)])
  {
    DataLinesNext(rows, RowBuilder(header, filePath, mtime, withMetadata), k);
  }

  /** The records of a whole stream: file by file in discovery order. A file with n rows
      contributes max(n - 1, 0) records, since its header row never becomes one. */
  function AllRecords(header: seq<string>, paths: seq<string>, fs: FileSystem, withMetadata: bool): (rs: seq<Record>)
    ensures |rs| == DataRows(paths, fs)
  {
    if |paths| == 0 then []
    else
      RecordsOfFile(header, paths[0], fs.mtime(paths[0]), fs.rows(paths[0]), withMetadata)
      + AllRecords(header, paths[1..], fs, withMetadata)
  }

  /** Extraction follows discovery order: the records of a prefix of the file list come
      first, then those of the rest; nothing is reordered across files. */
  lemma {:induction false} AllRecordsAppend(header: seq<string>, a: seq<string>, b: seq<string>, fs: FileSystem, withMetadata: bool)
    ensures AllRecords(header, a + b, fs, withMetadata)
      == AllRecords(header, a, fs, withMetadata) + AllRecords(header, b, fs, withMetadata)
  {
    if |a| == 0 {
      assert a + b == b;
    } else {
      assert (a + b)[0] == a[0];
      assert (a + b)[1..] == a[1..] + b;
      AllRecordsAppend(header, a[1..], b, fs, withMetadata);
    }
  }

  /** One iteration of the file loop of `get_records`. */
  lemma AllRecordsNext(header: seq<string>, paths: seq<string>, i: nat, fs: FileSystem, withMetadata: bool)
    requires i < |paths|
    ensures AllRecords(header, paths[..i + 1], fs, withMetadata)
      == AllRecords(header, paths[..i], fs, withMetadata)
        + RecordsOfFile(header, paths[i], fs.mtime(paths[i]), fs.rows(paths[i]), withMetadata)
  {
    assert paths[..i + 1] == paths[..i] + [paths[i]];
    AllRecordsAppend(header, paths[..i], [paths[i]], fs, withMetadata);
    assert [paths[i]][1..] == [];
  }

  /** The number of data rows of the listed files: each file's rows minus its header row. */
  function DataRows(paths: seq<string>, fs: FileSystem): nat
  {
    if |paths| == 0 then 0
    else (if |fs.rows(paths[0])| == 0 then 0 else |fs.rows(paths[0])| - 1) + DataRows(paths[1..], fs)
  }

  /** With metadata on and a header built by `schema`, every record carries its file's
      path, that file's modification time and the row's index in the file, provided the
      data header does not reuse a metadata name (a reused name would take the later,
      data value). */
  lemma MetadataRecord(dataHeader: seq<string>, filePath: string, mtime: int, lineno: int, row: seq<string>)
    requires forall k :: 0 <= k < |dataHeader| ==> dataHeader[k] !in MetadataColumns
    ensures var r := ZipToMap(HeaderFor(dataHeader, true), RowValues(filePath, mtime, lineno, row, true));
      && SourceFileColumn in r && r[SourceFileColumn] == Str(filePath)
      && SourceFileMtimeColumn in r && r[SourceFileMtimeColumn] == DateTime(mtime)
      && SourceLinenoColumn in r && r[SourceLinenoColumn] == Int(lineno)
  {
    var keys := HeaderFor(dataHeader, true);
    var vals := RowValues(filePath, mtime, lineno, row, true);
    assert keys[..3] == MetadataColumns;
    assert vals[..3] == [Str(filePath), DateTime(mtime), Int(lineno)];
    assert SourceFileColumn != SourceFileMtimeColumn && SourceFileColumn != SourceLinenoColumn
      && SourceFileMtimeColumn != SourceLinenoColumn;
    forall i | 0 <= i < 3
      ensures keys[i] in ZipToMap(keys, vals) && ZipToMap(keys, vals)[keys[i]] == vals[i]
    {
      forall j | i < j < Min(|keys|, |vals|) ensures keys[j] != keys[i] {
        if j >= 3 {
          assert keys[j] == dataHeader[j - 3];
        }
      }
      ZipToMapAt(keys, vals, i);
    }
    assert keys[1] == SourceFileMtimeColumn && vals[1] == DateTime(mtime);
    assert keys[2] == SourceLinenoColumn && vals[2] == Int(lineno);
  }

  /** Without metadata, a row as long as a header of distinct names gives a record with one
      entry per column, holding that column's cell. */
  lemma DataRecord(header: seq<string>, row: seq<string>, filePath: string, mtime: int, lineno: int)
    requires |row| == |header| && Distinct(header)
    ensures var r := ZipToMap(header, RowValues(filePath, mtime, lineno, row, false));
      |r| == |header| && forall k :: 0 <= k < |header| ==> header[k] in r && r[header[k]] == Str(row[k])
  {
    ZipToMapPositional(header, Strs(row));
  }

  /** Before `schema` has been read the header is empty, and every record is empty too. */
  lemma RecordsWithoutHeader(paths: seq<string>, fs: FileSystem, withMetadata: bool, k: nat)
    requires k < |AllRecords([], paths, fs, withMetadata)|
    ensures AllRecords([], paths, fs, withMetadata)[k] == map[]
  {
    var first := RecordsOfFile([], paths[0], fs.mtime(paths[0]), fs.rows(paths[0]), withMetadata);
    if k < |first| {
      RecordsOfFileAt([], paths[0], fs.mtime(paths[0]), fs.rows(paths[0]), withMetadata, k);
      assert AllRecords([], paths, fs, withMetadata)[k] == first[k];
    } else {
      RecordsWithoutHeader(paths[1..], fs, withMetadata, k - |first|);
    }
  }

  /** The `alphabet.csv` example: header a,b,c and rows 1,2,3 and 4,5,6. */
  lemma AlphabetExample(header: seq<string>, filePath: string, mtime: int, rows: seq<seq<string>>)
    requires header == ["a", "b", "c"] && rows == [header, ["1", "2", "3"], ["4", "5", "6"]]
    ensures RecordsOfFile(header, filePath, mtime, rows, false)
      == [map["a" := Str("1"), "b" := Str("2"), "c" := Str("3")],
          map["a" := Str("4"), "b" := Str("5"), "c" := Str("6")]]
  {
    var rs := RecordsOfFile(header, filePath, mtime, rows, false);
    AlphabetRecord(header, filePath, mtime, rows, 0);
    AlphabetRecord(header, filePath, mtime, rows, 1);
    PairAt(rs, rs[0], rs[1]);
  }

  /** Record j of a file with header a,b,c whose row j + 1 has three cells. */
  lemma AlphabetRecord(header: seq<string>, filePath: string, mtime: int, rows: seq<seq<string>>, j: nat)
    requires header == ["a", "b", "c"] && j + 1 < |rows| && |rows[j + 1]| == 3
    ensures var row := rows[j + 1];
      RecordsOfFile(header, filePath, mtime, rows, false)[j]
        == map["a" := Str(row[0]), "b" := Str(row[1]), "c" := Str(row[2])]
  {
    RecordsOfFileAt(header, filePath, mtime, rows, false, j);
    AlphabetRow(header, filePath, mtime, j + 1, rows[j + 1]);
  }

  lemma AlphabetRow(header: seq<string>, filePath: string, mtime: int, lineno: int, row: seq<string>)
    requires header == ["a", "b", "c"] && |row| == 3
    ensures ZipToMap(header, RowValues(filePath, mtime, lineno, row, false))
      == map["a" := Str(row[0]), "b" := Str(row[1]), "c" := Str(row[2])]
  {
    DataRecord(header, row, filePath, mtime, lineno);
  }

  lemma PairAt<T>(s: seq<T>, a: T, b: T)
    requires |s| == 2 && s[0] == a && s[1] == b
    ensures s == [a, b]
  {
  }

  /** Record j of a file, built with metadata on and a schema-built header, carries that
      file's path and modification time and the line number j + 1. */
  lemma MetadataLineAt(dataHeader: seq<string>, filePath: string, mtime: int, rows: seq<seq<string>>, j: nat)
    requires forall k :: 0 <= k < |dataHeader| ==> dataHeader[k] !in MetadataColumns
    requires j + 1 < |rows|
    ensures var rs := RecordsOfFile(HeaderFor(dataHeader, true), filePath, mtime, rows, true);
      && j < |rs|
      && SourceFileColumn in rs[j] && rs[j][SourceFileColumn] == Str(filePath)
      && SourceFileMtimeColumn in rs[j] && rs[j][SourceFileMtimeColumn] == DateTime(mtime)
      && SourceLinenoColumn in rs[j] && rs[j][SourceLinenoColumn] == Int(j + 1)
  {
    RecordsOfFileAt(HeaderFor(dataHeader, true), filePath, mtime, rows, true, j);
    MetadataRecord(dataHeader, filePath, mtime, j + 1, rows[j + 1]);
  }

  /** With metadata on and a schema-built header, every record of a file carries that
      file's path and modification time and its line number: record j is line j + 1, the
      first data row being line 1 and the header row line 0. */
  lemma MetadataLineNumbers(dataHeader: seq<string>, filePath: string, mtime: int, rows: seq<seq<string>>)
    requires forall k :: 0 <= k < |dataHeader| ==> dataHeader[k] !in MetadataColumns
    ensures var rs := RecordsOfFile(HeaderFor(dataHeader, true), filePath, mtime, rows, true);
      forall j :: 0 <= j < |rs| ==>
        && SourceFileColumn in rs[j] && rs[j][SourceFileColumn] == Str(filePath)
        && SourceFileMtimeColumn in rs[j] && rs[j][SourceFileMtimeColumn] == DateTime(mtime)
        && SourceLinenoColumn in rs[j] && rs[j][SourceLinenoColumn] == Int(j + 1)
  {
    var rs := RecordsOfFile(HeaderFor(dataHeader, true), filePath, mtime, rows, true);
    forall j | 0 <= j < |rs|
      ensures && SourceFileColumn in rs[j] && rs[j][SourceFileColumn] == Str(filePath)
        && SourceFileMtimeColumn in rs[j] && rs[j][SourceFileMtimeColumn] == DateTime(mtime)
        && SourceLinenoColumn in rs[j] && rs[j][SourceLinenoColumn] == Int(j + 1)
    {
      MetadataLineAt(dataHeader, filePath, mtime, rows, j);
    }
  }

  /** The `alphabet.csv` example with metadata on: its two data rows are lines 1 and 2. */
  lemma AlphabetMetadataLines(filePath: string, mtime: int, rows: seq<seq<string>>)
    requires rows == [["a", "b", "c"], ["1", "2", "3"], ["4", "5", "6"]]
    ensures var rs := RecordsOfFile(HeaderFor(rows[0], true), filePath, mtime, rows, true);
      && |rs| == 2
      && SourceLinenoColumn in rs[0] && rs[0][SourceLinenoColumn] == Int(1)
      && SourceLinenoColumn in rs[1] && rs[1][SourceLinenoColumn] == Int(2)
  {
    assert forall k :: 0 <= k < |rows[0]| ==> |rows[0][k]| == 1;
    MetadataLineNumbers(rows[0], filePath, mtime, rows);
  }
}
