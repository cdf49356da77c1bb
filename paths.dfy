/** The CSV backup's path: the workbook path with its final extension
    replaced by ".csv", where the extension is split off the way Python's
    `os.path.splitext` does it on Windows (separators are '\' and '/',
    the extension starts at the last '.' of the last path component, and
    leading dots of that component do not start an extension). */
module Paths {

  predicate IsSep(c: char) {
    c == '\\' || c == '/'
  }

  /** Index of the last separator in `p`, or -1 when there is none. */
  function LastSep(p: string): (k: int)
    ensures -1 <= k < |p|
    ensures k >= 0 ==> IsSep(p[k])
    ensures forall j :: k < j < |p| ==> !IsSep(p[j])
  {
    if p == [] then -1
    else if IsSep(p[|p| - 1]) then |p| - 1
    else LastSep(p[..|p| - 1])
  }

  /** Index of the last '.' in `p`, or -1 when there is none. */
  function LastDot(p: string): (k: int)
    ensures -1 <= k < |p|
    ensures k >= 0 ==> p[k] == '.'
    ensures forall j :: k < j < |p| ==> p[j] != '.'
  {
    if p == [] then -1
    else if p[|p| - 1] == '.' then |p| - 1
    else LastDot(p[..|p| - 1])
  }

  /** `(root, ext)` with `root + ext == p`; `ext` is empty or a '.' followed
      by neither dots nor separators, and an extension is split off only
      when the last component holds some non-dot character before it. */
  function SplitExt(p: string): (parts: (string, string))
    ensures parts.0 + parts.1 == p
    ensures parts.1 == [] || parts.1[0] == '.'
    ensures forall j :: 0 < j < |parts.1| ==> parts.1[j] != '.' && !IsSep(parts.1[j])
    ensures parts.1 != [] ==> exists k :: LastSep(p) < k < |parts.0| && p[k] != '.'
  {
    var s := LastSep(p);
    var d := LastDot(p);
    if s < d && NonDotBetween(p, s, d) then (p[..d], p[d..]) else (p, [])
  }

  /** Some character strictly between `lo` and `hi` is not a dot. */
  predicate NonDotBetween(p: string, lo: int, hi: int)
    requires -1 <= lo && hi <= |p|
  {
    exists k :: lo < k < hi && p[k] != '.'
  }

  /** The backup's path, as the update derives it from the workbook path. */
  function CsvPath(p: string): string {
    SplitExt(p).0 + ".csv"
  }

  /** The backup's path is a prefix of `p` followed by ".csv", and the part
      of `p` dropped holds no separator: the backup sits in the same
      directory as the workbook. */
  lemma CsvPathShape(p: string)
    ensures var q := CsvPath(p);
      && |q| >= 4 && q[|q| - 4..] == ".csv"
      && q[..|q| - 4] <= p
      && LastSep(p) < |q| - 4
  {
    var parts := SplitExt(p);
    var q := CsvPath(p);
    assert q[..|q| - 4] == parts.0;
    assert parts.1 != [] ==> LastSep(p) < |parts.0|;
  }

  /** The last separator is the one index meeting the defining conditions. */
  lemma LastSepUnique(p: string, k: int)
    requires -1 <= k < |p|
    requires k >= 0 ==> IsSep(p[k])
    requires forall j :: k < j < |p| ==> !IsSep(p[j])
    ensures LastSep(p) == k
  {
  }

  lemma LastDotUnique(p: string, k: int)
    requires -1 <= k < |p|
    requires k >= 0 ==> p[k] == '.'
    requires forall j :: k < j < |p| ==> p[j] != '.'
    ensures LastDot(p) == k
  {
  }

  /** An extension `ext` holds no separator, so appending it keeps the last separator. */
  lemma LastSepAppend(stem: string, ext: string)
    requires forall j :: 0 <= j < |ext| ==> !IsSep(ext[j])
    ensures LastSep(stem + ext) == LastSep(stem)
  {
    var p := stem + ext;
    forall j | |stem| <= j < |p| ensures !IsSep(p[j]) {
      assert p[j] == ext[j - |stem|];
    }
    assert forall j :: 0 <= j < |stem| ==> p[j] == stem[j];
    LastSepUnique(p, LastSep(stem));
  }

  /** The dot that starts `ext` is the last dot of `stem + ext`. */
  lemma LastDotAppend(stem: string, ext: string)
    requires |ext| >= 1 && ext[0] == '.'
    requires forall j :: 0 < j < |ext| ==> ext[j] != '.'
    ensures LastDot(stem + ext) == |stem|
  {
    var p := stem + ext;
    forall j | |stem| < j < |p| ensures p[j] != '.' {
      assert p[j] == ext[j - |stem|];
    }
    LastDotUnique(p, |stem|);
  }

  /** Splitting `stem + ext` gives back `stem` and the extension `ext`. */
  lemma SplitExtAppend(stem: string, ext: string)
    requires |ext| >= 1 && ext[0] == '.'
    requires forall j :: 0 < j < |ext| ==> ext[j] != '.' && !IsSep(ext[j])
    requires exists k :: LastSep(stem) < k < |stem| && stem[k] != '.'
    ensures SplitExt(stem + ext) == (stem, ext)
  {
    var p := stem + ext;
    forall j | 0 <= j < |ext| ensures !IsSep(ext[j]) {
      if j == 0 {
        assert ext[j] == '.';
      }
    }
    LastSepAppend(stem, ext);
    LastDotAppend(stem, ext);
    var k :| LastSep(stem) < k < |stem| && stem[k] != '.';
    assert p[k] == stem[k];
    assert NonDotBetween(p, LastSep(p), LastDot(p));
    assert p[..|stem|] == stem && p[|stem|..] == ext;
  }

  /** Replacing a final extension: `stem + ext` backs up to `stem + ".csv"`. */
  lemma CsvPathReplacesExtension(stem: string, ext: string)
    requires |ext| >= 1 && ext[0] == '.'
    requires forall j :: 0 < j < |ext| ==> ext[j] != '.' && !IsSep(ext[j])
    requires exists k :: LastSep(stem) < k < |stem| && stem[k] != '.'
    ensures CsvPath(stem + ext) == stem + ".csv"
  {
    SplitExtAppend(stem, ext);
  }

  /** A last component without any '.' has no extension: ".csv" is appended. */
  lemma CsvPathWithoutExtension(p: string)
    requires forall j :: LastSep(p) < j < |p| ==> p[j] != '.'
    ensures CsvPath(p) == p + ".csv"
  {
    assert !NonDotBetween(p, LastSep(p), LastDot(p));
    assert SplitExt(p) == (p, []);
  }
}
