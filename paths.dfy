/** Path strings: the CSV filename test and POSIX path joining. */
module Paths {

  /** `posixpath.sep`, the only separator the model knows. */
  const SepChar: char := '/'
  const Sep: string := [SepChar]
  const CsvSuffix: string := ".csv"

  /** Python's `s[-n:]` for n > 0: the last n characters, or all of s when it is shorter. */
  function PyTail(s: string, n: nat): (t: string)
    requires n > 0
    ensures |t| == if |s| < n then |s| else n
    ensures t == s[|s| - |t|..]
  {
    if |s| >= n then s[|s| - n..] else s
  }

  /** `CSVStream.is_valid_filename`: the last four characters are ".csv" (case-sensitive).
      A path shorter than four characters is rejected; ".csv" itself is accepted. */
  function IsValidCsv(p: string): (b: bool)
    ensures b <==> |p| >= 4 && p[|p| - 4..] == CsvSuffix
  {
    PyTail(p, 4) == CsvSuffix
  }

  lemma IsValidCsvExamples()
    ensures IsValidCsv(".csv") && IsValidCsv("users.csv")
    ensures !IsValidCsv("") && !IsValidCsv("csv") && !IsValidCsv("a.CSV") && !IsValidCsv("users.csv.gz")
  {
    assert "a.CSV"[1..] != CsvSuffix by { assert "a.CSV"[1..][2] == 'S'; }
    assert "users.csv.gz"[8..] != CsvSuffix by { assert "users.csv.gz"[8..][0] == 'v'; }
  }

  /** `os.path.join(a, b)` on a POSIX system: an absolute `b` replaces `a`; otherwise the
      separator is inserted unless `a` is empty or already ends with it. */
  function Join(a: string, b: string): (r: string)
    ensures |b| <= |r| && r[|r| - |b|..] == b
    ensures !(|b| > 0 && b[0] == SepChar) ==> |a| <= |r| && r[..|a|] == a
    ensures r != b ==> |r| > |b| && r[|r| - |b| - 1] == SepChar
  {
    if |b| > 0 && b[0] == SepChar then b
    else if |a| == 0 || a[|a| - 1] == SepChar then a + b
    else a + Sep + b
  }

  /** Joining a directory onto a file name never changes whether the result passes the
      CSV test: either the name is long enough to carry the suffix by itself, or a
      separator falls inside the last four characters and ".csv" holds none. */
  lemma JoinValidIffName(a: string, b: string)
    ensures IsValidCsv(Join(a, b)) == IsValidCsv(b)
  {
    var r := Join(a, b);
    if r != b && |b| < 4 && |r| >= 4 {
      assert r[|r| - 4..][4 - |b| - 1] == r[|r| - |b| - 1] == SepChar;
      assert r[|r| - 4..] != CsvSuffix;
    } else if |b| >= 4 {
      assert r[|r| - 4..] == r[|r| - |b|..][|b| - 4..];
    }
  }
}
