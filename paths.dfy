/**
 * Path strings: `convert_path_to_os_style`, `format_path` and the check that
 * accepts a user-typed folder. The compile-time `cfg(target_os = "windows")`
 * switch is the parameter `windows`, and `PathBuf::is_dir` is the oracle
 * `isDir`, asked about a path string.
 */
module Paths {
  import opened Wrappers
  import opened Text

  /** `convert_path_to_os_style`. On Windows every '/' becomes '\'. On other
      targets the replaced copy is computed and then dropped: the path comes
      back exactly as given. */
  function Convert(path: string, windows: bool): (r: string)
    ensures |r| == |path|
    ensures windows ==> '/' !in r
    ensures windows ==> forall k :: 0 <= k < |path| && path[k] == '/' ==> r[k] == '\\'
    ensures windows ==> forall k :: 0 <= k < |path| && path[k] != '/' ==> r[k] == path[k]
    ensures !windows ==> r == path
  {
    if windows then
      ReplaceChar(path, '/', '\\')
    else
      var discarded := ReplaceChar(path, '\\', '/');
      path
  }

  /** Converting a concatenation converts each part. */
  lemma ConvertConcat(a: string, b: string, windows: bool)
    ensures Convert(a + b, windows) == Convert(a, windows) + Convert(b, windows)
  {
    if windows {
      ReplaceCharConcat(a, b, '/', '\\');
    }
  }

  /** `format_path`. The slice `path_len-2..path_len-1` panics when the
      trimmed path is shorter than two characters (`None`). The test guarding
      the push, "differs from a backslash OR differs from a slash", cannot be
      false, so a backslash is appended to every trimmed path before it is
      converted. */
  function FormatPath(path: string, windows: bool): (r: Option<string>)
    ensures r.None? <==> |Trim(path)| < 2
    ensures r.Some? ==> r.value == Convert(Trim(path) + "\\", windows)
  {
    var t := Trim(path);
    if |t| < 2 then None
    else
      var probe := t[|t| - 2..|t| - 1];
      var pushed := if probe != "\\" || probe != "/" then t + "\\" else t;
      Some(Convert(pushed, windows))
  }

  /** Exactly one backslash is appended, even to a path that already ends in a
      separator; on non-Windows targets nothing else changes. */
  lemma FormatPathAppendsOne(path: string, windows: bool)
    requires |Trim(path)| >= 2
    ensures FormatPath(path, windows).Some?
    ensures |FormatPath(path, windows).value| == |Trim(path)| + 1
    ensures FormatPath(path, windows).value[|Trim(path)|] == '\\'
    ensures !windows ==> FormatPath(path, windows).value == Trim(path) + "\\"
    ensures windows ==> '/' !in FormatPath(path, windows).value
  {
    var t := Trim(path);
    assert (t + "\\")[|t|] == '\\';
  }

  /** A trimmed path already ending in '/' still gets the backslash: on a
      non-Windows target the result ends in "/\". */
  lemma FormatPathAfterSlash(path: string)
    requires |Trim(path)| >= 2 && Trim(path)[|Trim(path)| - 1] == '/'
    ensures FormatPath(path, false).Some?
    ensures var r := FormatPath(path, false).value; r[|r| - 2..] == "/\\"
  {
    var t := Trim(path);
    assert (t + "\\")[|t| - 1..] == "/\\";
  }

  /** `check_path`: `Some(false)` for a blank path, `None` where
      `format_path` panics, otherwise whether the formatted path is a
      directory. */
  function CheckPath(path: string, windows: bool, isDir: string -> bool): (r: Option<bool>)
    ensures (forall k :: 0 <= k < |path| ==> IsSpace(path[k])) ==> r == Some(false)
    ensures r.None? <==> |Trim(path)| == 1
    ensures r == Some(true) <==> |Trim(path)| >= 2 && isDir(Convert(Trim(path) + "\\", windows))
  {
    if |Trim(path)| == 0 then Some(false)
    else
      match FormatPath(path, windows)
      case None => None
      case Some(formatted) => Some(isDir(formatted))
  }

  /** A blank path is rejected before the filesystem is consulted: the answer
      is the same whatever `isDir` says. */
  lemma CheckPathBlankIgnoresFilesystem(path: string, windows: bool, isDir1: string -> bool, isDir2: string -> bool)
    requires Trim(path) == []
    ensures CheckPath(path, windows, isDir1) == CheckPath(path, windows, isDir2) == Some(false)
  {
  }
}
