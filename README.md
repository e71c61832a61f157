# tap-csv file streams in Dafny

This project models the core of tap-csv, a Singer tap that reads delimited text files.
A stream is configured with a path, which may name a file or a directory. The stream
turns that path into an ordered list of `.csv` files. It takes its header from the
first row of the first file and turns every other row into a record. When
`add_metadata_columns` is set, each record also carries the source file, the file's
modification time and the row's line number.

There are two stream classes, and the model keeps both:

- `Client.CSVStream` (tap_csv/client.py). It uses the local filesystem, applies the
  `.csv` filename test and extracts the records. Its `schema` is recomputed on every read.
- `FileStreams.FileStream` (tap_csv/file_stream.py). It reaches the filesystem through an
  abstraction and leaves the filename test to each file format. Its `schema` is a
  `cached_property`.

The outside world is the value `Common.FileSystem`. It gives:

- the exists and is-directory predicates;
- the complete walk of a root, as a sequence of (directory, file names) steps in walk order;
- `os.path.normpath`, left uninterpreted;
- each file's modification time;
- each file's content, already split into CSV rows.

`os.path.join` is modelled as POSIX `posixpath.join`, with `/` as the separator.

The specification functions live in the modules `Paths`, `Discovery`, `Dicts`, `Schema` and
`Records`. Each class method that loops or updates fields is proved against them:

- discovery (`Discovery.Resolve`, `Discovery.Discover`);
- `dict(zip(header, row))` (`Dicts.ZipToMap`);
- header and property derivation (`Schema.HeaderFor`, `Schema.PropertiesFor`,
  `Schema.InferSchema`);
- extraction (`Records.RecordsOfFile`, `Records.AllRecords`).

Python exceptions become the `Err` side of `Common.Result`:

- `PathDoesNotExist` for "File path does not exist";
- `NoAcceptableFiles` for "has no acceptable files";
- `NoHeaderRow` for the `UnboundLocalError` that `schema` raises when the first file has no rows.

The source stores `file_paths` and `header` as class-level list defaults. The model makes
them per-instance fields that start empty. This is faithful: the source only ever rebinds
the attribute on the instance and never mutates the shared list.

Three details of the code shape the model:

- Line numbers. The counter starts at -1 and is incremented before the header test, so
  the header row holds index 0 and the first data row is tagged line 1
  (tap_csv/client.py:42-47). `Records.MetadataLineNumbers` states this for every file.
- Modification time. `os.path.getmtime` is called unconditionally for every discovered
  file (tap_csv/client.py:38-40), so the model always takes a time from the filesystem.
- Schema order. The property list puts the metadata properties after the data columns;
  only `header` has the metadata names in front (tap_csv/client.py:136-152).
  `Schema.HeaderMatchesProperties` proves that both name the same columns.

## Model

| member | source | states |
|---|---|---|
| `Paths.PyTail` | tap_csv/client.py:98 | Python's `s[-n:]`: the last n characters, or the whole string when it is shorter |
| `Paths.IsValidCsv` | tap_csv/client.py:95-104 | a path is accepted exactly when it has at least four characters and the last four are `.csv`, so a shorter path is always rejected |
| `Paths.IsValidCsvExamples` | tap_csv/client.py:95-104 | `.csv` itself and `users.csv` are accepted; the empty path, `csv`, `a.CSV` (case-sensitive) and `users.csv.gz` are rejected |
| `Paths.Join` | tap_csv/client.py:60 | `os.path.join(dirpath, filename)` ends with the file name, starts with the directory unless the name is absolute, and otherwise puts a separator just before the name |
| `Paths.JoinValidIffName` | tap_csv/client.py:58-62 | a joined walk entry passes the CSV test exactly when the file name alone does, for every directory |
| `Common.KeysOf` | tap_csv/client.py:129 | the primary keys are the entry's `keys` when it has them and empty otherwise |
| `Discovery.Filter` | tap_csv/client.py:59-62 | the kept paths are no more than the input, and every kept path came from the input and passes the test |
| `Discovery.FilterComplete` | tap_csv/client.py:59-62 | no entry that passes the test is dropped |
| `Discovery.FilterAppend` | tap_csv/client.py:58-64 | filtering keeps input order: filtering a concatenation gives the concatenation of the filtered parts |
| `Discovery.JoinAll` | tap_csv/client.py:59-60 | one path per file name of a walk step, the i-th being `os.path.join(dirpath, filenames[i])` |
| `Discovery.WalkFiles` | tap_csv/client.py:58-60 | the paths of every file a walk lists, step by step: exactly as many as the walk lists file names |
| `Discovery.Collected` | tap_csv/client.py:55-64 | the result of `_get_recursive_file_paths`: no more paths than the walk lists, every one accepted by the test |
| `Discovery.CollectedSplit` | tap_csv/tests/test_client.py:29-32 | files found in an earlier part of the walk (the parent directory) come before those found in a later part (its sub-directories) |
| `Discovery.CollectedCsv` | tap_csv/client.py:55-64 | a path is collected from a walk if and only if some walk step lists a file whose own name ends in `.csv` and the path is that step's join |
| `Discovery.WalkRoot` | tap_csv/client.py:82 | the walk root is `normpath(path)` followed by exactly one separator |
| `Discovery.Resolve` | tap_csv/client.py:76-93 | a fresh discovery fails with PathDoesNotExist exactly when the path does not exist, fails otherwise only with NoAcceptableFiles, and on success returns a non-empty list whose every path passes the test |
| `Discovery.ResolveSingleFile` | tap_csv/client.py:84-91 | an existing non-directory path yields `[path]` when it passes the test and NoAcceptableFiles otherwise |
| `Discovery.ResolveDirectory` | tap_csv/client.py:81-91 | an existing directory yields exactly its accepted walk entries under `normpath(path) + sep`, in walk order, and fails only when there are none |
| `Discovery.Discover` | tap_csv/client.py:66-93 | a non-empty cache is returned unchanged; an empty cache means a fresh `Resolve`; any success is non-empty; if the cache holds only accepted paths, so does the result |
| `Discovery.DiscoverStable` | tap_csv/client.py:72-74 | once a discovery has succeeded and been cached, every later discovery returns the same list, whatever the filesystem then holds |
| `Discovery.CollectedPair` | tap_csv/client.py:58-64 | a walk of two steps collects the accepted files of the first step, then those of the second |
| `Discovery.SubfolderScenario` | tap_csv/tests/test_client.py:10-32 | a directory holding `a.csv` and `n.txt`, with a sub-directory holding `a.csv`, yields the top-level csv and then the nested one; `n.txt` is skipped |
| `Dicts.Zip` | tap_csv/client.py:53 | `zip` pairs keys and values by position and stops at the shorter list |
| `Dicts.DictOf` | tap_csv/client.py:53 | the keys of `dict(pairs)` are exactly the keys of the pairs |
| `Dicts.DictOfLastWins` | tap_csv/client.py:53 | a key of `dict(pairs)` holds the value of its last occurrence |
| `Dicts.ZipToMap` | tap_csv/client.py:53 | the keys of `dict(zip(header, row))` are the first min(\|header\|, \|row\|) header names |
| `Dicts.ZipToMapAt` | tap_csv/client.py:53 | each paired header name maps to the value at its last paired position, so for a duplicate name the later value wins |
| `Dicts.ZipToMapPositional` | tap_csv/client.py:53 | distinct names with a row of equal length give exactly one entry per name, holding the value at that name's position |
| `Dicts.DuplicateKeyExample` | tap_csv/client.py:53 | the header `a,b,a` with values 1,2,3 gives `{a: 3, b: 2}` |
| `Dicts.TruncationExample` | tap_csv/client.py:53 | a short row leaves trailing names out, and a long row's extra values are dropped |
| `Schema.FirstHeader` | tap_csv/client.py:131-134 | a header row is read exactly when a file was discovered and the first file has a row, and it is that file's first row |
| `Schema.HeaderFor` | tap_csv/client.py:138-144 | with metadata on, the header is `_sdc_source_file`, `_sdc_source_file_mtime`, `_sdc_source_lineno`, then the data header; with it off, the header is the data header |
| `Schema.PropertiesFor` | tap_csv/client.py:136-152 | the property list gives each data column a string type, in order, then appends the string, datetime and integer metadata properties when metadata is on |
| `Schema.InferSchema` | tap_csv/client.py:128-156 | reading the schema propagates discovery's error, fails with NoHeaderRow when the first file has no rows, and on success gives the property list of the first file's first row |
| `Schema.HeaderMatchesProperties` | tap_csv/client.py:136-154 | the header and the property list name the same columns with the same multiplicities; only the position of the metadata names differs |
| `Records.Strs` | tap_csv/client.py:44 | every cell of a decoded row becomes a string value, in order |
| `Records.RowValues` | tap_csv/client.py:50-51 | with metadata on, the values are the file path, the mtime and the line number, then the row's cells; with it off, the row's cells alone |
| `Records.DataLines` | tap_csv/client.py:42-48 | the row loop skips the row at index 0 and passes every later row with its index as line number, so a file of n rows gives max(n-1, 0) entries |
| `Records.DataLinesAt` | tap_csv/client.py:42-48 | entry j of the row loop comes from the row at index j+1, with line number j+1 |
| `Records.RecordsOfFile` | tap_csv/client.py:42-53 | the records of one file: a file of n rows gives max(n-1, 0) records, since only the header row is dropped |
| `Records.RecordsOfFileAt` | tap_csv/client.py:42-53 | record j of a file is `dict(zip(header, values))` for the row at index j+1, tagged with line number j+1 |
| `Records.AllRecords` | tap_csv/client.py:37-53 | the records of the whole stream, file by file; their number is the sum over the files of max(n-1, 0) for a file of n rows |
| `Records.AllRecordsAppend` | tap_csv/client.py:37-53 | records come file by file in discovery order; the records of a prefix of the file list precede those of the rest |
| `Records.MetadataRecord` | tap_csv/client.py:50-53 | with metadata on and a schema-built header, a record maps the three `_sdc_*` names to the file path, the file's mtime and the row's index, provided no data column reuses one of those names |
| `Records.DataRecord` | tap_csv/client.py:53 | without metadata, a row as long as a header of distinct names gives exactly one entry per column, holding that column's cell |
| `Records.RecordsWithoutHeader` | tap_csv/client.py:22 | when `schema` has not been read, the header is empty and every record is empty |
| `Records.AlphabetExample` | tap_csv/client.py:37-53 | header `a,b,c` with rows `1,2,3` and `4,5,6` gives the records `{a:1,b:2,c:3}` and `{a:4,b:5,c:6}` |
| `Records.MetadataLineNumbers` | tap_csv/client.py:42-53 | with metadata on and no data column reusing a metadata name, record j of every file carries the file's path, its mtime and line number j+1 |
| `Records.AlphabetMetadataLines` | tap_csv/client.py:42-53 | with metadata on, that file gives exactly two records, tagged with line numbers 1 and 2 |
| `Client.CSVStream.constructor` | tap_csv/client.py:21-28 | a new stream has no cached files, an empty header and no primary keys |
| `Client.CSVStream.RecursiveFilePaths` | tap_csv/client.py:55-64 | the nested loop returns exactly the `.csv` entries of the walk, in walk order |
| `Client.CSVStream.GetFilePaths` | tap_csv/client.py:66-93 | the result is the cached list when one exists, otherwise a fresh discovery; only a success is cached; every cached path stays a `.csv` path |
| `Client.CSVStream.FileRecords` | tap_csv/client.py:38-53 | the row loop emits max(n-1, 0) records, and record j is `dict(zip(header, values))` for the row at index j+1, tagged with line number j+1 |
| `Client.CSVStream.GetRecords` | tap_csv/client.py:30-53 | a discovery error is raised; otherwise the result is every file's records in discovery order, built with the current header |
| `Client.CSVStream.GetSchema` | tap_csv/client.py:121-156 | sets the primary keys from `keys` (default empty) even when discovery fails; the result is the inferred schema; `header` becomes the derived header only on success |
| `FileStreams.FileStream.constructor` | tap_csv/file_stream.py:22-30 | a new stream has no cached files, an empty header, no primary keys and no cached schema, and keeps the format's filename test |
| `FileStreams.FileStream.RecursiveFilePaths` | tap_csv/file_stream.py:32-41 | the nested loop over `fs.walk` returns exactly the entries the format accepts, in walk order |
| `FileStreams.FileStream.GetFilePaths` | tap_csv/file_stream.py:43-71 | a missing path fails; a cached list is returned without using `fs`; a fresh success is non-empty, accepted by the format and cached |
| `FileStreams.FileStream.GetSchema` | tap_csv/file_stream.py:78-113 | a cached schema is returned and nothing changes; otherwise the schema is inferred, and only a success is cached, together with the header it was derived from |

## Left out

- CSV decoding. `get_rows` (tap_csv/client.py:106-119) delegates dialect handling and text decoding to Python's `csv.reader` and `open`. The model takes each file's rows as already decoded, through `FileSystem.rows`. Decode errors are therefore not modelled.
- `FileStream.get_rows`: file_stream.py does not define it. The model's `FileStream.GetSchema` reads rows through the same `FileSystem.rows`.
- Filesystem access (`os.walk`, `os.path.exists`, `os.path.isdir`, `os.path.getmtime`, fsspec). These are inputs to the model. `os.path.normpath` is uninterpreted. The modification time is an integer count of seconds, so the fractional part of `getmtime` and the `datetime` conversion are not modelled. A failing `getmtime` is not modelled either.
- `Discovery.DiscoverStable` and the `GetFilePaths` methods: "does not consult the filesystem" is stated as "the result does not depend on the filesystem", because a pure model has no calls to count.
- The logging warnings of `is_valid_filename`. They are observations only.
- The singer_sdk parts: the `Stream` base class, `th.Property` and `th.PropertiesList(...).to_dict()`. A schema is modelled as a sequence of (name, type) properties, not as a JSON-schema dictionary.
- Record key order. Python dictionaries keep insertion order, but the model's records are Dafny maps, which have no order.
- Generator laziness and file-handle lifetime. Extraction produces the whole finite sequence of records at once. A failure part-way through a stream is not modelled.
- The configuration fields for encoding and dialect. They only feed the CSV decoding that is left out.
- tap_csv/tap.py and tap_csv/filesystem_config.py (config loading, process exit, settings schemas) are not part of this model.
- POSIX paths only. `os.path.join` and `os.sep` are modelled as `posixpath.join` and `/`; `ntpath.join` and a Windows `os.sep` are not modelled.
