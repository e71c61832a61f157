/** File discovery: turning the configured path into the ordered list of files a stream
    reads (`_get_recursive_file_paths` and `get_file_paths`, as specifications). */
module Discovery {
  import opened Common
  import opened Paths

  /** The elements of `s` that `keep` accepts, in their original order. */
  function Filter<T>(s: seq<T>, keep: T -> bool): (r: seq<T>)
    ensures |r| <= |s|
    ensures forall x :: x in r ==> x in s && keep(x)
  {
    if |s| == 0 then []
    else Filter(s[..|s| - 1], keep) + (if keep(s[|s| - 1]) then [s[|s| - 1]] else [])
  }

  /** Nothing that passes is dropped. */
  lemma {:induction false} FilterComplete<T>(s: seq<T>, keep: T -> bool, x: T)
    requires x in s && keep(x)
    ensures x in Filter(s, keep)
  {
    var init := s[..|s| - 1];
    if x != s[|s| - 1] {
      assert s == init + [s[|s| - 1]];
      FilterComplete(init, keep, x);
    }
  }

  /** Filtering distributes over concatenation: the relative order of what is kept is the
      order of the input. */
  lemma {:induction false} FilterAppend<T>(a: seq<T>, b: seq<T>, keep: T -> bool)
    ensures Filter(a + b, keep) == Filter(a, keep) + Filter(b, keep)
  {
    if |b| > 0 {
      var b' := b[..|b| - 1];
      assert (a + b)[..|a + b| - 1] == a + b';
      FilterAppend(a, b', keep);
    } else {
      assert a + b == a;
    }
  }

  lemma FilterSnoc<T>(s: seq<T>, x: T, keep: T -> bool)
    ensures Filter(s + [x], keep) == Filter(s, keep) + (if keep(x) then [x] else [])
  {
    assert (s + [x])[..|s + [x]| - 1] == s;
  }

  /** The full paths of one walk step, `os.path.join(dirpath, filename)` for each file. */
  function JoinAll(dirpath: string, filenames: seq<string>): (ps: seq<string>)
    ensures |ps| == |filenames|
    ensures forall i :: 0 <= i < |filenames| ==> ps[i] == Join(dirpath, filenames[i])
  {
    if |filenames| == 0 then []
    else JoinAll(dirpath, filenames[..|filenames| - 1]) + [Join(dirpath, filenames[|filenames| - 1])]
  }

  /** The number of file names a walk lists, over all its steps. */
  function FileCount(walk: seq<WalkEntry>): nat
  {
    if |walk| == 0 then 0 else FileCount(walk[..|walk| - 1]) + |walk[|walk| - 1].filenames|
  }

  /** Every file of a walk, in walk order: one path per listed file name. */
  function WalkFiles(walk: seq<WalkEntry>): (ps: seq<string>)
    ensures |ps| == FileCount(walk)
  {
    if |walk| == 0 then []
    else WalkFiles(walk[..|walk| - 1]) + JoinAll(walk[|walk| - 1].dirpath, walk[|walk| - 1].filenames)
  }

  /** What the nested loop of `_get_recursive_file_paths` has collected after the first
      j files of walk step i. */
  function CollectedUpTo(walk: seq<WalkEntry>, i: nat, j: nat, keep: string -> bool): seq<string>
    requires i < |walk| && j <= |walk[i].filenames|
  {
    Filter(WalkFiles(walk[..i]) + JoinAll(walk[i].dirpath, walk[i].filenames[..j]), keep)
  }

  lemma CollectedUpToStart(walk: seq<WalkEntry>, i: nat, keep: string -> bool)
    requires i < |walk|
    ensures CollectedUpTo(walk, i, 0, keep) == Collected(walk[..i], keep)
  {
    assert WalkFiles(walk[..i]) + JoinAll(walk[i].dirpath, walk[i].filenames[..0]) == WalkFiles(walk[..i]);
  }

  lemma CollectedUpToStep(walk: seq<WalkEntry>, i: nat, j: nat, keep: string -> bool)
    requires i < |walk| && j < |walk[i].filenames|
    ensures var p := Join(walk[i].dirpath, walk[i].filenames[j]);
      CollectedUpTo(walk, i, j + 1, keep) == CollectedUpTo(walk, i, j, keep) + (if keep(p) then [p] else [])
  {
    var p := Join(walk[i].dirpath, walk[i].filenames[j]);
    var seen := WalkFiles(walk[..i]) + JoinAll(walk[i].dirpath, walk[i].filenames[..j]);
    assert walk[i].filenames[..j + 1][..j] == walk[i].filenames[..j];
    assert WalkFiles(walk[..i]) + JoinAll(walk[i].dirpath, walk[i].filenames[..j + 1]) == seen + [p];
    FilterSnoc(seen, p, keep);
  }

  lemma CollectedUpToEnd(walk: seq<WalkEntry>, i: nat, keep: string -> bool)
    requires i < |walk|
    ensures CollectedUpTo(walk, i, |walk[i].filenames|, keep) == Collected(walk[..i + 1], keep)
  {
    assert walk[..i + 1][..i] == walk[..i];
    assert walk[i].filenames[..|walk[i].filenames|] == walk[i].filenames;
  }

  lemma {:induction false} WalkFilesAppend(a: seq<WalkEntry>, b: seq<WalkEntry>)
    ensures WalkFiles(a + b) == WalkFiles(a) + WalkFiles(b)
  {
    if |b| > 0 {
      var b' := b[..|b| - 1];
      assert (a + b)[..|a + b| - 1] == a + b';
      WalkFilesAppend(a, b');
    } else {
      assert a + b == a;
    }
  }

  /** What `_get_recursive_file_paths` returns for a walk. */
  function Collected(walk: seq<WalkEntry>, keep: string -> bool): (ps: seq<string>)
    ensures |ps| <= FileCount(walk)
    ensures forall p :: p in ps ==> keep(p)
  {
    Filter(WalkFiles(walk), keep)
  }

  /** Walk order is kept: the files found in an earlier part of the walk (a parent
      directory) all come before those found in a later part (its sub-directories). */
  lemma CollectedSplit(walk: seq<WalkEntry>, k: nat, keep: string -> bool)
    requires k <= |walk|
    ensures Collected(walk, keep) == Collected(walk[..k], keep) + Collected(walk[k..], keep)
  {
    assert walk == walk[..k] + walk[k..];
    WalkFilesAppend(walk[..k], walk[k..]);
    FilterAppend(WalkFiles(walk[..k]), WalkFiles(walk[k..]), keep);
  }

  /** Walk step k lists file j, whose full path is x. */
  ghost predicate ListedAt(walk: seq<WalkEntry>, k: int, j: int, x: string)
  {
    0 <= k < |walk| && 0 <= j < |walk[k].filenames| && x == Join(walk[k].dirpath, walk[k].filenames[j])
  }

  lemma {:induction false} WalkFilesListed(walk: seq<WalkEntry>, x: string)
    requires x in WalkFiles(walk)
    ensures exists k, j :: ListedAt(walk, k, j, x)
  {
    var init, last := walk[..|walk| - 1], walk[|walk| - 1];
    var tail := JoinAll(last.dirpath, last.filenames);
    if x in WalkFiles(init) {
      WalkFilesListed(init, x);
      var k, j :| ListedAt(init, k, j, x);
      assert walk[k] == init[k];
      assert ListedAt(walk, k, j, x);
    } else {
      assert x in tail;
      var j :| 0 <= j < |tail| && x == tail[j];
      assert ListedAt(walk, |walk| - 1, j, x);
    }
  }

  lemma {:induction false} ListedInWalkFiles(walk: seq<WalkEntry>, k: int, j: int, x: string)
    requires ListedAt(walk, k, j, x)
    ensures x in WalkFiles(walk)
  {
    var init, last := walk[..|walk| - 1], walk[|walk| - 1];
    if k < |walk| - 1 {
      assert walk[k] == init[k];
      ListedInWalkFiles(init, k, j, x);
    } else {
      assert JoinAll(last.dirpath, last.filenames)[j] == x;
    }
  }

  /** With the CSV test, a path is collected exactly when some walk step lists a file whose
      own name ends in ".csv"; the directory part never decides. */
  lemma CollectedCsv(walk: seq<WalkEntry>, x: string)
    ensures x in Collected(walk, IsValidCsv) <==>
      exists k, j :: ListedAt(walk, k, j, x) && IsValidCsv(walk[k].filenames[j])
  {
    if x in Collected(walk, IsValidCsv) {
      WalkFilesListed(walk, x);
      var k, j :| ListedAt(walk, k, j, x);
      JoinValidIffName(walk[k].dirpath, walk[k].filenames[j]);
    }
    if exists k, j :: ListedAt(walk, k, j, x) && IsValidCsv(walk[k].filenames[j]) {
      var k, j :| ListedAt(walk, k, j, x) && IsValidCsv(walk[k].filenames[j]);
      JoinValidIffName(walk[k].dirpath, walk[k].filenames[j]);
      ListedInWalkFiles(walk, k, j, x);
      FilterComplete(WalkFiles(walk), IsValidCsv, x);
    }
  }

  /** The root handed to the walk: `os.path.normpath(path) + os.sep`. */
  function WalkRoot(fs: FileSystem, path: string): (root: string)
    ensures |root| == |fs.normpath(path)| + 1 && root[|root| - 1] == SepChar
    ensures root[..|root| - 1] == fs.normpath(path)
  {
    fs.normpath(path) + Sep
  }

  /** A fresh discovery (the cache is empty): a missing path raises; a directory yields its
      accepted walk entries, a single file itself if it is accepted; nothing found raises. */
  function Resolve(fs: FileSystem, path: string, keep: string -> bool): (r: Result<seq<string>>)
    ensures r == Err(PathDoesNotExist(path)) <==> !fs.pathExists(path)
    ensures r.Err? && fs.pathExists(path) ==> r.error == NoAcceptableFiles
    ensures r.Ok? ==> |r.value| > 0 && forall p :: p in r.value ==> keep(p)
  {
    if !fs.pathExists(path) then Err(PathDoesNotExist(path))
    else
      var found :=
        if fs.isDir(path) then Collected(fs.walk(WalkRoot(fs, path)), keep)
        else if keep(path) then [path]
        else [];
      if |found| == 0 then Err(NoAcceptableFiles) else Ok(found)
  }

  /** A single existing file is the whole result when it is accepted, and an error otherwise. */
  lemma ResolveSingleFile(fs: FileSystem, path: string, keep: string -> bool)
    requires fs.pathExists(path) && !fs.isDir(path)
    ensures Resolve(fs, path, keep) == if keep(path) then Ok([path]) else Err(NoAcceptableFiles)
  {
  }

  /** An existing directory resolves to exactly its accepted walk entries in walk order,
      failing only when there are none. */
  lemma ResolveDirectory(fs: FileSystem, path: string, keep: string -> bool)
    requires fs.pathExists(path) && fs.isDir(path)
    ensures var found := Collected(fs.walk(WalkRoot(fs, path)), keep);
      Resolve(fs, path, keep) == if found == [] then Err(NoAcceptableFiles) else Ok(found)
  {
  }

  /** `get_file_paths` as a whole: a non-empty cache is returned as it is, without looking
      at the filesystem; otherwise the path is resolved afresh. */
  function Discover(cached: seq<string>, fs: FileSystem, path: string, keep: string -> bool): (r: Result<seq<string>>)
    ensures |cached| > 0 ==> r == Ok(cached)
    ensures |cached| == 0 ==> r == Resolve(fs, path, keep)
    ensures r.Ok? ==> |r.value| > 0
    ensures r.Ok? && (forall p :: p in cached ==> keep(p)) ==> forall p :: p in r.value ==> keep(p)
  {
    if |cached| > 0 then Ok(cached) else Resolve(fs, path, keep)
  }

  /** Once a discovery has succeeded and its result is cached, every later discovery gives
      the same list whatever the filesystem then looks like. */
  lemma DiscoverStable(cached: seq<string>, fs1: FileSystem, fs2: FileSystem, path: string, keep: string -> bool)
    requires Discover(cached, fs1, path, keep).Ok?
    ensures var first := Discover(cached, fs1, path, keep).value;
      Discover(first, fs2, path, keep) == Ok(first)
  {
  }

  lemma WalkFilesOne(e: WalkEntry)
    ensures WalkFiles([e]) == JoinAll(e.dirpath, e.filenames)
  {
    assert [e][..0] == [];
  }

  lemma FilterOne<T>(x: T, keep: T -> bool)
    ensures Filter([x], keep) == if keep(x) then [x] else []
  {
    assert [x][..0] == [];
  }

  /** The shape of the recursive-discovery test of client.py: a configured directory `d/`
      holding `a.csv` and a skipped `n.txt`, and a sub-directory `s` holding another
      `a.csv`; the top-level file comes first, the walk root keeps its trailing separator. */
  lemma SubfolderScenario(fs: FileSystem)
    requires fs.pathExists("d/") && fs.isDir("d/")
    requires fs.normpath("d/") == "d"
    requires fs.walk("d/") == [
      WalkEntry("d/", ["a.csv", "n.txt"]),
      WalkEntry("d/s", ["a.csv"])]
    ensures Resolve(fs, "d/", IsValidCsv)
      == Ok(["d/a.csv", "d/s/a.csv"])
  {
    ScenarioCollected(fs.walk("d/"));
    assert WalkRoot(fs, "d/") == "d/";
    ResolveDirectory(fs, "d/", IsValidCsv);
  }

  /** A walk of two steps collects the first step's accepted files, then the second's. */
  lemma CollectedPair(e0: WalkEntry, e1: WalkEntry, keep: string -> bool)
    ensures Collected([e0, e1], keep)
      == Filter(JoinAll(e0.dirpath, e0.filenames), keep) + Filter(JoinAll(e1.dirpath, e1.filenames), keep)
  {
    WalkFilesOne(e0);
    WalkFilesOne(e1);
    WalkFilesAppend([e0], [e1]);
    assert [e0, e1] == [e0] + [e1];
    FilterAppend(WalkFiles([e0]), WalkFiles([e1]), keep);
  }

  lemma FilterPick<T>(top: T, skipped: T, sub: T, keep: T -> bool)
    requires keep(top) && !keep(skipped) && keep(sub)
    ensures Filter([top, skipped], keep) + Filter([sub], keep) == [top, sub]
  {
    FilterSnoc([top], skipped, keep);
    assert [top] + [skipped] == [top, skipped];
    FilterOne(top, keep);
    FilterOne(sub, keep);
  }

  lemma ScenarioCollected(walk: seq<WalkEntry>)
    requires walk == [WalkEntry("d/", ["a.csv", "n.txt"]), WalkEntry("d/s", ["a.csv"])]
    ensures Collected(walk, IsValidCsv) == ["d/a.csv", "d/s/a.csv"]
  {
    var top, skipped, sub := "d/a.csv", "d/n.txt", "d/s/a.csv";
    ScenarioJoins(walk[0], walk[1], top, skipped, sub);
    assert walk == [walk[0], walk[1]];
    CollectedPair(walk[0], walk[1], IsValidCsv);
    FilterPick(top, skipped, sub, IsValidCsv);
  }

  lemma ScenarioJoins(e0: WalkEntry, e1: WalkEntry, top: string, skipped: string, sub: string)
    requires e0 == WalkEntry("d/", ["a.csv", "n.txt"])
    requires e1 == WalkEntry("d/s", ["a.csv"])
    requires top == "d/a.csv" && skipped == "d/n.txt"
    requires sub == "d/s/a.csv"
    ensures JoinAll(e0.dirpath, e0.filenames) == [top, skipped]
    ensures JoinAll(e1.dirpath, e1.filenames) == [sub]
    ensures IsValidCsv(top) && IsValidCsv(sub) && !IsValidCsv(skipped)
  {
    assert Join("d/", "a.csv") == top;
    assert Join("d/", "n.txt") == skipped;
    assert Join("d/s", "a.csv") == sub;
  }
}
