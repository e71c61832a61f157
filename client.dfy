/** The CSV stream of client.py: a stream that discovers `.csv` files on the local
    filesystem, derives its schema from the first file's header row and turns every
    other row into a record. */
module Client {
  import opened Common
  import opened Paths
  import opened Discovery
  import opened Schema
  import opened Records
  import opened Dicts

  class CSVStream {
    const fileConfig: FileConfig
    /** The tap-level `add_metadata_columns` setting. */
    const addMetadataColumns: bool

    /** Discovered files; empty until the first successful discovery. */
    var filePaths: seq<string>
    /** Field names used to build records; empty until `schema` is read. */
    var header: seq<string>
    var primaryKeys: seq<string>

    /** Every cached path passes the CSV filename test. */
    ghost predicate Valid()
      reads this
    {
      forall p :: p in filePaths ==> IsValidCsv(p)
    }

    constructor (fileConfig: FileConfig, addMetadataColumns: bool)
      ensures Valid()
      ensures this.fileConfig == fileConfig && this.addMetadataColumns == addMetadataColumns
      ensures filePaths == [] && header == [] && primaryKeys == []
    {
      this.fileConfig := fileConfig;
      this.addMetadataColumns := addMetadataColumns;
      filePaths := [];
      header := [];
      primaryKeys := [];
    }

    /** `_get_recursive_file_paths`: the `.csv` entries of the walk of `root`, in walk order. */
    method RecursiveFilePaths(fs: FileSystem, root: string) returns (paths: seq<string>)
      ensures paths == Collected(fs.walk(root), IsValidCsv)
      ensures forall p :: p in paths ==> IsValidCsv(p)
    {
      var walk := fs.walk(root);
      paths := [];
      for i := 0 to |walk|
        invariant paths == Collected(walk[..i], IsValidCsv)
      {
        var dirpath, filenames := walk[i].dirpath, walk[i].filenames;
        CollectedUpToStart(walk, i, IsValidCsv);
        for j := 0 to |filenames|
          invariant paths == CollectedUpTo(walk, i, j, IsValidCsv)
        {
          var filePath := Join(dirpath, filenames[j]);
          CollectedUpToStep(walk, i, j, IsValidCsv);
          if IsValidCsv(filePath) {
            paths := paths + [filePath];
          }
        }
        CollectedUpToEnd(walk, i, IsValidCsv);
      }
      assert walk[..|walk|] == walk;
    }

    /** `get_file_paths`: the cached list when there is one, otherwise a fresh discovery
        whose non-empty result is cached. */
    method GetFilePaths(fs: FileSystem) returns (r: Result<seq<string>>)
      requires Valid()
      modifies this`filePaths
      ensures Valid()
      ensures r == Discover(old(filePaths), fs, fileConfig.path, IsValidCsv)
      ensures filePaths == if r.Ok? then r.value else old(filePaths)
    {
      if |filePaths| > 0 {
        return Ok(filePaths);
      }
      var filePath := fileConfig.path;
      if !fs.pathExists(filePath) {
        return Err(PathDoesNotExist(filePath));
      }
      var found: seq<string> := [];
      if fs.isDir(filePath) {
        var cleanFilePath := fs.normpath(filePath) + Sep;
        found := RecursiveFilePaths(fs, cleanFilePath);
        assert cleanFilePath == WalkRoot(fs, filePath);
      } else if IsValidCsv(filePath) {
        found := found + [filePath];
      }
      assert found == if fs.isDir(filePath) then Collected(fs.walk(WalkRoot(fs, filePath)), IsValidCsv)
        else if IsValidCsv(filePath) then [filePath] else [];
      if |found| == 0 {
        return Err(NoAcceptableFiles);
      }
      filePaths := found;
      return Ok(found);
    }

    /** The inner loop of `get_records` for one file: the row counter starts at -1 and is
        incremented before the header test, so row 0 is skipped and the row at index i
        is tagged with line number i. */
    method FileRecords(fs: FileSystem, filePath: string) returns (records: seq<Record>)
      ensures var rows := fs.rows(filePath);
        |records| == if |rows| == 0 then 0 else |rows| - 1
      ensures forall j :: 0 <= j < |records| ==>
        records[j] == RowRecord(header, filePath, fs.mtime(filePath), j + 1, fs.rows(filePath)[j + 1], addMetadataColumns)
      ensures records == RecordsOfFile(header, filePath, fs.mtime(filePath), fs.rows(filePath), addMetadataColumns)
    {
      var fileLastModified := fs.mtime(filePath);
      var rows := fs.rows(filePath);
      var fileLineno := -1;
      records := [];
      for k := 0 to |rows|
        invariant fileLineno == k - 1
        invariant records == RecordsOfFile(header, filePath, fileLastModified, rows[..k], addMetadataColumns)
      {
        var row := Strs(rows[k]);
        fileLineno := fileLineno + 1;
        RecordsOfFileNext(header, filePath, fileLastModified, rows, k, addMetadataColumns);
        if fileLineno == 0 {
          continue;
        }
        if addMetadataColumns {
          row := [Str(filePath), DateTime(fileLastModified), Int(fileLineno)] + row;
        }
        records := records + [ZipToMap(header, row)];
      }
      assert rows[..|rows|] == rows;
      forall j | 0 <= j < |records|
        ensures records[j] == RowRecord(header, filePath, fileLastModified, j + 1, rows[j + 1], addMetadataColumns)
      {
        RecordsOfFileAt(header, filePath, fileLastModified, rows, addMetadataColumns, j);
      }
    }

    /** `get_records`: the records of every discovered file in discovery order, built with
        the header as it stands (empty if `schema` has not been read). */
    method GetRecords(fs: FileSystem) returns (r: Result<seq<Record>>)
      requires Valid()
      modifies this`filePaths
      ensures Valid()
      ensures var d := Discover(old(filePaths), fs, fileConfig.path, IsValidCsv);
        && filePaths == (if d.Ok? then d.value else old(filePaths))
        && r == (if d.Ok? then Ok(AllRecords(header, d.value, fs, addMetadataColumns)) else Err(d.error))
    {
      var discovered := GetFilePaths(fs);
      if discovered.Err? {
        return Err(discovered.error);
      }
      var paths := discovered.value;
      var records: seq<Record> := [];
      for i := 0 to |paths|
        invariant filePaths == paths
        invariant records == AllRecords(header, paths[..i], fs, addMetadataColumns)
      {
        var fileRecords := FileRecords(fs, paths[i]);
        AllRecordsNext(header, paths, i, fs, addMetadataColumns);
        records := records + fileRecords;
      }
      assert paths[..|paths|] == paths;
      r := Ok(records);
    }

    /** `schema`: sets the primary keys from the configuration, reads the first row of the
        first discovered file as the header, prefixes the metadata names when enabled and
        returns the property list. Re-read on every access. */
    method GetSchema(fs: FileSystem) returns (r: Result<seq<Property>>)
      requires Valid()
      modifies this`filePaths, this`header, this`primaryKeys
      ensures Valid()
      ensures primaryKeys == KeysOf(fileConfig)
      ensures var d := Discover(old(filePaths), fs, fileConfig.path, IsValidCsv);
        && filePaths == (if d.Ok? then d.value else old(filePaths))
        && r == InferSchema(d, fs, addMetadataColumns)
        && header == (if r.Ok? then HeaderFor(FirstHeader(d.value, fs).value, addMetadataColumns) else old(header))
    {
      primaryKeys := KeysOf(fileConfig);
      var discovered := GetFilePaths(fs);
      if discovered.Err? {
        return Err(discovered.error);
      }
      var rows := fs.rows(discovered.value[0]);
      if |rows| == 0 {
        return Err(NoHeaderRow);
      }
      var dataHeader := rows[0];
      var properties := StringProperties(dataHeader);
      var newHeader := dataHeader;
      if addMetadataColumns {
        newHeader := MetadataColumns + newHeader;
        properties := properties + MetadataProperties;
      }
      assert FirstHeader(discovered.value, fs) == Some(dataHeader);
      assert properties == PropertiesFor(dataHeader, addMetadataColumns);
      header := newHeader;
      r := Ok(properties);
    }
  }
}
