/** The generic file stream of file_stream.py: discovery through a filesystem
    abstraction, with the filename test left to each file format, and a schema that is
    computed once per stream and then cached. */
module FileStreams {
  import opened Common
  import opened Paths
  import opened Discovery
  import opened Schema

  class FileStream {
    const fileConfig: FileConfig
    /** The tap-level `add_metadata_columns` setting. */
    const addMetadataColumns: bool
    /** `is_valid_filename`, which each concrete format supplies. */
    const isValidFilename: string -> bool

    /** Discovered files; empty until the first successful discovery. */
    var filePaths: seq<string>
    /** Field names used to build records; empty until `schema` is first read. */
    var header: seq<string>
    var primaryKeys: seq<string>
    /** The `cached_property` slot of `schema`: empty until a read succeeds. */
    var schemaCache: Option<seq<Property>>
    /** The header row the cached schema was derived from. */
    ghost var dataHeader: seq<string>

    /** Every cached path passes the format's filename test, and a cached schema and the
        header were derived together from one header row of a discovered file. */
    ghost predicate Valid()
      reads this
    {
      && (forall p :: p in filePaths ==> isValidFilename(p))
      && (schemaCache.Some? ==>
            && |filePaths| > 0
            && schemaCache.value == PropertiesFor(dataHeader, addMetadataColumns)
            && header == HeaderFor(dataHeader, addMetadataColumns))
    }

    constructor (fileConfig: FileConfig, addMetadataColumns: bool, isValidFilename: string -> bool)
      ensures Valid()
      ensures this.fileConfig == fileConfig && this.addMetadataColumns == addMetadataColumns
      ensures this.isValidFilename == isValidFilename
      ensures filePaths == [] && header == [] && primaryKeys == [] && schemaCache == None
    {
      this.fileConfig := fileConfig;
      this.addMetadataColumns := addMetadataColumns;
      this.isValidFilename := isValidFilename;
      filePaths := [];
      header := [];
      primaryKeys := [];
      schemaCache := None;
      dataHeader := [];
    }

    /** `_get_recursive_file_paths`: the accepted entries of `fs.walk(root)`, in walk order. */
    method RecursiveFilePaths(fs: FileSystem, root: string) returns (paths: seq<string>)
      ensures paths == Collected(fs.walk(root), isValidFilename)
      ensures forall p :: p in paths ==> isValidFilename(p)
    {
      var walk := fs.walk(root);
      paths := [];
      for i := 0 to |walk|
        invariant paths == Collected(walk[..i], isValidFilename)
      {
        var dirpath, filenames := walk[i].dirpath, walk[i].filenames;
        CollectedUpToStart(walk, i, isValidFilename);
        for j := 0 to |filenames|
          invariant paths == CollectedUpTo(walk, i, j, isValidFilename)
        {
          var filePath := Join(dirpath, filenames[j]);
          CollectedUpToStep(walk, i, j, isValidFilename);
          if isValidFilename(filePath) {
            paths := paths + [filePath];
          }
        }
        CollectedUpToEnd(walk, i, isValidFilename);
      }
      assert walk[..|walk|] == walk;
    }

    /** `get_file_paths`: the cached list when there is one (the filesystem is not
        consulted), otherwise a fresh discovery whose non-empty result is cached. */
    method GetFilePaths(fs: FileSystem) returns (r: Result<seq<string>>)
      requires Valid()
      modifies this`filePaths
      ensures Valid()
      ensures r == Discover(old(filePaths), fs, fileConfig.path, isValidFilename)
      ensures filePaths == if r.Ok? then r.value else old(filePaths)
    {
      if |filePaths| > 0 {
        return Ok(filePaths);
      }
      var filePath := fileConfig.path;
      if !fs.pathExists(filePath) {
        return Err(PathDoesNotExist(filePath));
      }
      var found: seq<string> := [];
      if fs.isDir(filePath) {
        var cleanFilePath := fs.normpath(filePath) + Sep;
        found := RecursiveFilePaths(fs, cleanFilePath);
        assert cleanFilePath == WalkRoot(fs, filePath);
      } else if isValidFilename(filePath) {
        found := found + [filePath];
      }
      assert found == if fs.isDir(filePath) then Collected(fs.walk(WalkRoot(fs, filePath)), isValidFilename)
        else if isValidFilename(filePath) then [filePath] else [];
      if |found| == 0 {
        return Err(NoAcceptableFiles);
      }
      filePaths := found;
      return Ok(found);
    }

    /** `schema` (a `cached_property`): a cached value is returned and nothing is touched;
        otherwise the primary keys are set, the header is derived from the first row of the
        first discovered file, and a successful result is cached. A failed read caches
        nothing, so the next read tries again. */
    method GetSchema(fs: FileSystem) returns (r: Result<seq<Property>>)
      requires Valid()
      modifies this`filePaths, this`header, this`primaryKeys, this`schemaCache, this`dataHeader
      ensures Valid()
      ensures old(schemaCache).Some? ==> r == Ok(old(schemaCache).value) && unchanged(this)
      ensures old(schemaCache).None? ==>
        var d := Discover(old(filePaths), fs, fileConfig.path, isValidFilename);
        && primaryKeys == KeysOf(fileConfig)
        && filePaths == (if d.Ok? then d.value else old(filePaths))
        && r == InferSchema(d, fs, addMetadataColumns)
        && header == (if r.Ok? then HeaderFor(FirstHeader(d.value, fs).value, addMetadataColumns) else old(header))
        && schemaCache == (if r.Ok? then Some(r.value) else None)
    {
      if schemaCache.Some? {
        return Ok(schemaCache.value);
      }
      primaryKeys := KeysOf(fileConfig);
      var discovered := GetFilePaths(fs);
      if discovered.Err? {
        return Err(discovered.error);
      }
      var rows := fs.rows(discovered.value[0]);
      if |rows| == 0 {
        return Err(NoHeaderRow);
      }
      var firstRow := rows[0];
      var properties := StringProperties(firstRow);
      var newHeader := firstRow;
      if addMetadataColumns {
        newHeader := MetadataColumns + newHeader;
        properties := properties + MetadataProperties;
      }
      assert FirstHeader(discovered.value, fs) == Some(firstRow);
      header := newHeader;
      dataHeader := firstRow;
      schemaCache := Some(properties);
      r := Ok(properties);
    }
  }
}
