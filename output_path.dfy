/**
 * The default output path of the command line: when no `--output_file` is
 * given, the name is built from `--file` and placed in `DATA_DIR`.
 */
module OutputPath {
  import opened Wrappers
  import opened Py
  import Text

  const DATA_DIR: string := "/Users/jedem/Kaggle/data/"
  const OUTPUT_SUFFIX: string := "_ansq_formatted.tsv"

  /**
   * `os.path.join(a, b)` on a POSIX system: an absolute `b` replaces `a`;
   * otherwise the result is `a` then `b`, with one '/' between them added
   * exactly when `a` is non-empty and does not already end in '/'.
   */
  function PathJoin(a: string, b: string): (r: string)
    ensures |b| > 0 && b[0] == '/' ==> r == b
    ensures !(|b| > 0 && b[0] == '/') ==>
      && |a| + |b| <= |r| <= |a| + |b| + 1
      && r[..|a|] == a
      && r[|r| - |b|..] == b
      && (|r| == |a| + |b| + 1 <==> a != [] && a[|a| - 1] != '/')
      && (|r| == |a| + |b| + 1 ==> r[|a|] == '/')
  {
    if |b| > 0 && b[0] == '/' then b
    else if a == [] || a[|a| - 1] == '/' then a + b
    else a + "/" + b
  }

  /**
   * `name` is the longest suffix of `file` that holds neither '/' nor '.':
   * whatever comes before it in `file` is a '/' or a '.'.
   */
  predicate TrailingPart(file: string, name: string)
  {
    && |name| <= |file|
    && name == file[|file| - |name|..]
    && '/' !in name
    && '.' !in name
    && (|name| < |file| ==> file[|file| - |name| - 1] == '/' || file[|file| - |name| - 1] == '.')
  }

  /** At most one suffix of a path has that property. */
  lemma TrailingPartUnique(file: string, a: string, b: string)
    requires TrailingPart(file, a) && TrailingPart(file, b)
    ensures a == b
  {
  }

  /**
   * `file.split('/')[-1].split('.')[-1]`, which the script calls the file
   * name without suffix: it is the text after the last '.' of the last path
   * segment, i.e. the extension when there is one.
   */
  function FileNameNoSuffix(file: string): (name: string)
    ensures TrailingPart(file, name)
  {
    var fileName := Text.LastPiece(file, '/');
    var name := Text.LastPiece(fileName, '.');
    assert name == file[|file| - |name|..];
    name
  }

  /**
   * The derived output path: `DATA_DIR`, the file name piece, and the fixed
   * suffix, concatenated, since `os.path.join` adds no separator after
   * `DATA_DIR` and the piece never starts with '/'.
   */
  function DefaultOutputFile(file: string): (path: string)
    ensures path == DATA_DIR + FileNameNoSuffix(file) + OUTPUT_SUFFIX
  {
    PathJoin(DATA_DIR, FileNameNoSuffix(file) + OUTPUT_SUFFIX)
  }

  /**
   * The `__main__` block: a non-empty `--output_file` is used as given;
   * otherwise the path is derived from `--file`, and a missing `--file`
   * makes `None.split` raise AttributeError.
   */
  function ResolveOutputFile(file: Option<string>, outputFile: Option<string>): (r: Result<string, Exception>)
    ensures outputFile.Some? && outputFile.value != "" ==> r == Ok(outputFile.value)
    ensures (outputFile.None? || outputFile.value == "") ==> (r.Ok? <==> file.Some?)
    ensures (outputFile.None? || outputFile.value == "") && file.None? ==> r == Err(AttributeError("split"))
    ensures (outputFile.None? || outputFile.value == "") && file.Some? ==>
      r == Ok(DATA_DIR + FileNameNoSuffix(file.value) + OUTPUT_SUFFIX)
  {
    if outputFile.Some? && outputFile.value != "" then Ok(outputFile.value)
    else if file.None? then Err(AttributeError("split"))
    else Ok(DefaultOutputFile(file.value))
  }

  /**
   * The derived name is built from whatever follows the last '/' or '.' of
   * the input: for "nq/simplified-nq-train.jsonl" (separator '.') it is the
   * extension "jsonl", not the base name; a last segment without any '.'
   * (separator '/') is kept whole.
   */
  lemma DefaultOutputFileOfLastPiece(prefix: string, separator: char, piece: string)
    requires separator == '/' || separator == '.'
    requires '/' !in piece && '.' !in piece
    ensures DefaultOutputFile(prefix + [separator] + piece) == DATA_DIR + piece + OUTPUT_SUFFIX
  {
    var file := prefix + [separator] + piece;
    assert file[|file| - |piece|..] == piece;
    assert file[|file| - |piece| - 1] == separator;
    TrailingPartUnique(file, FileNameNoSuffix(file), piece);
  }
}
