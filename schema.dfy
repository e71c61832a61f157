/** Schema and header derivation (`schema`): the header is the first row of the first
    discovered file, optionally preceded by the three metadata column names. */
module Schema {
  import opened Common

  const SourceFileColumn: string := "_sdc_source_file"
  const SourceLinenoColumn: string := "_sdc_source_lineno"
  const SourceFileMtimeColumn: string := "_sdc_source_file_mtime"

  /** The metadata names in the order they are prepended: file, mtime, lineno. */
  const MetadataColumns: seq<string> := [SourceFileColumn, SourceFileMtimeColumn, SourceLinenoColumn]

  datatype PropertyType = StringType | DateTimeType | IntegerType

  /** One `th.Property(name, type)` of the record schema. */
  datatype Property = Property(name: string, typ: PropertyType)

  const MetadataProperties: seq<Property> := [
    Property(SourceFileColumn, StringType),
    Property(SourceFileMtimeColumn, DateTimeType),
    Property(SourceLinenoColumn, IntegerType)]

  /** The header row read from the first file, if there is one to read: there is one
      exactly when a file was discovered and the first file has at least one row. */
  function FirstHeader(paths: seq<string>, fs: FileSystem): (h: Option<seq<string>>)
    ensures h.Some? <==> |paths| > 0 && |fs.rows(paths[0])| > 0
    ensures h.Some? ==> h.value == fs.rows(paths[0])[0]
  {
    if |paths| > 0 && |fs.rows(paths[0])| > 0 then Some(fs.rows(paths[0])[0]) else None
  }

  /** The `header` field the stream keeps for building records. With metadata, it is the
      three metadata names in the order file, mtime, lineno, then the data header; without,
      it is the data header alone. */
  function HeaderFor(dataHeader: seq<string>, withMetadata: bool): (h: seq<string>)
    ensures withMetadata ==>
      |h| == |dataHeader| + 3 && h[0] == SourceFileColumn && h[1] == SourceFileMtimeColumn
      && h[2] == SourceLinenoColumn && h[3..] == dataHeader
    ensures !withMetadata ==> h == dataHeader
  {
    if withMetadata then MetadataColumns + dataHeader else dataHeader
  }

  /** One string-typed property per data column. */
  function StringProperties(dataHeader: seq<string>): seq<Property>
  {
    seq(|dataHeader|, i requires 0 <= i < |dataHeader| => Property(dataHeader[i], StringType))
  }

  /** The property list: data columns come first, every one typed string; with metadata,
      the metadata properties follow, typed string, datetime and integer. */
  function PropertiesFor(dataHeader: seq<string>, withMetadata: bool): (ps: seq<Property>)
    ensures |ps| == |dataHeader| + (if withMetadata then 3 else 0)
    ensures forall i :: 0 <= i < |dataHeader| ==> ps[i].name == dataHeader[i] && ps[i].typ == StringType
    ensures ps[|dataHeader|..] == (if withMetadata then MetadataProperties else [])
  {
    StringProperties(dataHeader) + (if withMetadata then MetadataProperties else [])
  }

  /** What reading `schema` yields after discovery has produced `discovered`: discovery's
      error, a failure when no header row can be read, or the property list of the first
      file's first row. */
  function InferSchema(discovered: Result<seq<string>>, fs: FileSystem, withMetadata: bool): (r: Result<seq<Property>>)
    ensures discovered.Err? ==> r == Err(discovered.error)
    ensures discovered.Ok? && FirstHeader(discovered.value, fs).None? ==> r == Err(NoHeaderRow)
    ensures r.Ok? ==> discovered.Ok? && FirstHeader(discovered.value, fs).Some?
    ensures r.Ok? ==> r.value == PropertiesFor(FirstHeader(discovered.value, fs).value, withMetadata)
  {
    match discovered
    case Err(e) => Err(e)
    case Ok(paths) =>
      match FirstHeader(paths, fs)
      case None => Err(NoHeaderRow)
      case Some(h) => Ok(PropertiesFor(h, withMetadata))
  }

  function Names(ps: seq<Property>): seq<string>
  {
    seq(|ps|, i requires 0 <= i < |ps| => ps[i].name)
  }

  /** The header and the property list name the same columns, each as often, only in a
      different order when metadata is on (prepended in one, appended in the other). */
  lemma HeaderMatchesProperties(dataHeader: seq<string>, withMetadata: bool)
    ensures multiset(Names(PropertiesFor(dataHeader, withMetadata))) == multiset(HeaderFor(dataHeader, withMetadata))
  {
    var data := StringProperties(dataHeader);
    var meta := if withMetadata then MetadataProperties else [];
    assert Names(data + meta) == Names(data) + Names(meta);
    assert Names(data) == dataHeader;
    if withMetadata {
      assert Names(meta) == MetadataColumns;
      calc {
        multiset(Names(PropertiesFor(dataHeader, withMetadata)));
        multiset(dataHeader + MetadataColumns);
        multiset(dataHeader) + multiset(MetadataColumns);
        multiset(MetadataColumns + dataHeader);
      }
    } else {
      assert Names(meta) == [];
      assert dataHeader + [] == dataHeader;
    }
  }
}
