/**
 * The organiser pass of `main`: for each listed entry, skip directories,
 * classify files by extension, skip the ones classified "INI", and move the
 * others into a sub-directory named after their category.
 *
 * The filesystem is abstract. `Fs.top` maps the names in the organised
 * folder to their kind, and `Fs.log` records every change made so far.
 * `is_dir` on a listed entry is read off `Fs.top`. What the model cannot
 * see is an oracle in `Env`: the displayed parent path, the target OS,
 * `is_dir` on a formatted path string, whether `create_dir` is permitted,
 * and whether `rename` succeeds.
 */
module Organizer {
  import opened Wrappers
  import opened Text
  import opened Paths
  import opened Names
  import opened Listing

  /** What `PathBuf::is_dir` says of an entry. */
  datatype Kind = File | Dir

  /** A change made to the filesystem. */
  datatype Action = MakeDir(path: string) | Rename(from: string, to: string)

  /** The organised folder's entries and the changes made so far, oldest first. */
  datatype Fs = Fs(top: map<string, Kind>, log: seq<Action>)

  /** How a pass ends. `ReadFailed`: `read_dir` failed and `main` panics.
      `NoExtension`: the `expect` on the extension panics. `RenameFailed`:
      the `?` on `fs::rename` returns the error from `main`. */
  datatype Outcome = Done | ReadFailed | NoExtension(name: string) | RenameFailed(name: string)

  /** The oracles: the parent directory as `Path::display` shows it, the
      target OS, `is_dir` on a path string, whether the OS permits
      `create_dir` on a path, and whether `rename` of an entry to a
      destination succeeds. */
  datatype Env = Env(
    parent: string,
    windows: bool,
    isDir: string -> bool,
    mkdirOk: string -> bool,
    renameOk: (string, string) -> bool)

  /** Index of the last '.' in `s`, if any. */
  function LastDot(s: string): (r: Option<nat>)
    ensures r.Some? ==> r.value < |s| && s[r.value] == '.'
    ensures r.Some? ==> forall k :: r.value < k < |s| ==> s[k] != '.'
    ensures r.None? ==> forall k :: 0 <= k < |s| ==> s[k] != '.'
  {
    if s == [] then None
    else if s[|s| - 1] == '.' then Some(|s| - 1)
    else LastDot(s[..|s| - 1])
  }

  /** `Path::extension` of an entry name: what follows the last '.', except
      that a name without a '.', a name whose only '.' is its first
      character, and ".." have none. */
  function Extension(name: string): (r: Option<string>)
    ensures r.None? <==> name == ".." || (forall k :: 0 <= k < |name| ==> name[k] != '.')
                         || (name[0] == '.' && forall k :: 0 < k < |name| ==> name[k] != '.')
    ensures r.Some? ==> |r.value| + 2 <= |name| && name[|name| - |r.value| - 1] == '.'
                        && r.value == name[|name| - |r.value|..] && '.' !in r.value
  {
    if name == ".." then None
    else match LastDot(name)
      case None => None
      case Some(i) =>
        if i == 0 then None
        else
          Some(name[i + 1..])
  }

  /** `format!("{}/{}/", parent.display(), ext)`: the category directory. */
  function DirectoryName(parent: string, category: string): (r: string)
    ensures |r| == |parent| + |category| + 2
    ensures r[..|parent|] == parent && r[|parent|] == '/' && r[|r| - 1] == '/'
    ensures r[|parent| + 1..|r| - 1] == category
  {
    parent + "/" + category + "/"
  }

  /** Distinct categories get distinct directories. */
  lemma DirectoryNameInjective(parent: string, c1: string, c2: string)
    ensures DirectoryName(parent, c1) == DirectoryName(parent, c2) <==> c1 == c2
  {
    var d1, d2 := DirectoryName(parent, c1), DirectoryName(parent, c2);
    if d1 == d2 {
      assert c1 == d1[|parent| + 1..|d1| - 1];
    }
  }

  /** Two of its characters are slashes, so trimming a category directory
      leaves at least two characters and `format_path` does not panic on it. */
  lemma DirectoryNameFormats(parent: string, category: string, windows: bool)
    ensures |Trim(DirectoryName(parent, category))| >= 2
    ensures FormatPath(DirectoryName(parent, category), windows).Some?
  {
    var r := DirectoryName(parent, category);
    TrimKeepsTwo(r, |parent|, |r| - 1);
  }

  /** `convert_path_to_os_style(&format!("{}/{}", directory_name, fname))`. */
  function Destination(directory: string, name: string, windows: bool): (r: string)
    ensures |r| == |directory| + 1 + |name|
  {
    Convert(directory + "/" + name, windows)
  }

  /** The destination of a move ends with the entry's own name, under the
      converted category directory; on non-Windows targets it is literally
      `parent/category//name`. */
  lemma DestinationShape(parent: string, category: string, name: string, windows: bool)
    requires '/' !in name
    ensures var d := Destination(DirectoryName(parent, category), name, windows);
      && |d| == |parent| + |category| + 3 + |name|
      && d[|d| - |name|..] == name
      && d[..|parent| + |category| + 2] == Convert(DirectoryName(parent, category), windows)
      && (!windows ==> d == parent + "/" + category + "//" + name)
  {
    var dir := DirectoryName(parent, category);
    DestinationParts(dir, name, windows);
    var d := Destination(dir, name, windows);
    assert |Convert("/", windows)| == 1;
    assert |d| == |dir| + 1 + |name|;
    assert d[|d| - |name|..] == name;
    assert d[..|dir|] == Convert(dir, windows);
    if !windows {
      assert d == dir + "/" + name;
      assert parent + "/" + category + "//" + name == dir + "/" + name;
    }
  }

  /** The destination is the converted directory, one converted separator and the name. */
  lemma DestinationParts(dir: string, name: string, windows: bool)
    requires '/' !in name
    ensures Destination(dir, name, windows) == Convert(dir, windows) + Convert("/", windows) + name
  {
    ConvertConcat(dir + "/", name, windows);
    ConvertConcat(dir, "/", windows);
    assert Convert(name, windows) == name;
  }

  /** `path.is_dir()` for a listed entry; a name that has gone is not a directory. */
  predicate IsDirEntry(fs: Fs, name: string) {
    name in fs.top && fs.top[name] == Dir
  }

  /** An entry that the pass leaves where it is because of its category. */
  predicate IsIniFile(table: map<string, string>, name: string) {
    Extension(name).Some? && Classify(table, Extension(name).value) == "INI"
  }

  /** A file whose category is empty (with the real table: a name ending
      in '.'): its destination is its own path, so it never leaves. */
  predicate IsSelfMove(table: map<string, string>, name: string) {
    Extension(name).Some? && Classify(table, Extension(name).value) == ""
  }

  /** `fs::create_dir` succeeds: the category names a new entry and the OS permits it.
      An empty category names the parent itself, which exists. */
  predicate CanCreate(env: Env, fs: Fs, category: string, directory: string) {
    category != "" && category !in fs.top && env.mkdirOk(directory)
  }

  /** The category directory is made unless `is_dir` on its formatted path
      says it exists; a failing `create_dir` only prints, so it changes nothing. */
  function EnsureDirectory(env: Env, fs: Fs, category: string): (fs': Fs)
    ensures FormatPath(DirectoryName(env.parent, category), env.windows).Some?
    ensures var directory := DirectoryName(env.parent, category);
      var buffer := FormatPath(directory, env.windows);
      fs'.log != fs.log <==> buffer.Some? && !env.isDir(buffer.value) && CanCreate(env, fs, category, directory)
    ensures fs'.log == fs.log || fs'.log == fs.log + [MakeDir(DirectoryName(env.parent, category))]
    ensures fs'.log != fs.log ==> category != "" && category !in fs.top && fs'.top == fs.top[category := Dir]
    ensures fs'.log == fs.log ==> fs'.top == fs.top
  {
    var directory := DirectoryName(env.parent, category);
    DirectoryNameFormats(env.parent, category, env.windows);
    var buffer := FormatPath(directory, env.windows).value;
    if !env.isDir(buffer) && CanCreate(env, fs, category, directory)
    then Fs(fs.top[category := Dir], fs.log + [MakeDir(directory)])
    else fs
  }

  /** Make the category directory, then rename the file into it; a failing
      rename stops the pass. The empty category names the parent itself, so
      its destination `parent///name` is the file's own path: the rename
      succeeds, or not, and the file stays where it is. */
  function Move(env: Env, fs: Fs, name: string, category: string): (r: (Outcome, Fs))
    ensures r.0 == Done <==> env.renameOk(name, Destination(DirectoryName(env.parent, category), name, env.windows))
    ensures r.0 == Done || r.0 == RenameFailed(name)
  {
    var fs1 := EnsureDirectory(env, fs, category);
    var dest := Destination(DirectoryName(env.parent, category), name, env.windows);
    if env.renameOk(name, dest)
    then (Done, Fs(if category == "" then fs1.top else fs1.top - {name}, fs1.log + [Rename(name, dest)]))
    else (RenameFailed(name), fs1)
  }

  /** One iteration of the loop in `main`. `Done` means "go on with the next
      entry"; the pass panics on an entry exactly when it is a file without
      an extension. */
  function Step(env: Env, table: map<string, string>, fs: Fs, name: string): (r: (Outcome, Fs))
    ensures r.0 == Done || r.0 == NoExtension(name) || r.0 == RenameFailed(name)
    ensures r.0 == NoExtension(name) <==> !IsDirEntry(fs, name) && Extension(name).None?
  {
    if IsDirEntry(fs, name) then (Done, fs)
    else match Extension(name)
      case None => (NoExtension(name), fs)
      case Some(ext) =>
        var category := Classify(table, ext);
        if category == "INI" then (Done, fs) else Move(env, fs, name, category)
  }

  /** The loop of `main` over `names`, stopping at the first entry that does not end in `Done`. */
  function Pass(env: Env, table: map<string, string>, fs: Fs, names: seq<string>): (r: (Outcome, Fs))
    ensures r.0 == Done || (!r.0.ReadFailed? && r.0.name in names)
    decreases |names|
  {
    if names == [] then (Done, fs)
    else
      var r := Step(env, table, fs, names[0]);
      if r.0 != Done then r else Pass(env, table, r.1, names[1..])
  }

  /** `main` after the prompt: build the table, list the folder, run the loop. */
  function Run(env: Env, read: Option<seq<string>>, fs: Fs): (r: (Outcome, Fs))
    ensures r.0 == ReadFailed <==> read.None?
    ensures read.None? ==> r.1 == fs
  {
    match ListDir(read)
    case None => (ReadFailed, fs)
    case Some(names) => Pass(env, NameTable(), fs, names)
  }

  /** The `for path in contents` loop of `main`. */
  method OrganizeEntries(env: Env, table: map<string, string>, names: seq<string>, fs: Fs)
    returns (outcome: Outcome, fs': Fs)
    ensures (outcome, fs') == Pass(env, table, fs, names)
  {
    var cur := fs;
    for i := 0 to |names|
      invariant Pass(env, table, fs, names) == Pass(env, table, cur, names[i..])
    {
      assert names[i..][1..] == names[i + 1..];
      PassUnfold(env, table, cur, names[i..]);
      var name := names[i];
      if IsDirEntry(cur, name) {
        continue;
      }
      var ext := Extension(name);
      if ext.None? {
        return NoExtension(name), cur;
      }
      var category := Classify(table, ext.value);
      if category == "INI" {
        continue;
      }
      var directory := DirectoryName(env.parent, category);
      DirectoryNameFormats(env.parent, category, env.windows);
      var buffer := FormatPath(directory, env.windows).value;
      if !env.isDir(buffer) {
        if CanCreate(env, cur, category, directory) {
          cur := Fs(cur.top[category := Dir], cur.log + [MakeDir(directory)]);
        }
      }
      var dest := Destination(directory, name, env.windows);
      if !env.renameOk(name, dest) {
        return RenameFailed(name), cur;
      }
      if category == "" {
        cur := Fs(cur.top, cur.log + [Rename(name, dest)]);
      } else {
        cur := Fs(cur.top - {name}, cur.log + [Rename(name, dest)]);
      }
    }
    return Done, cur;
  }

  /** `main` from `get_name_map` on, without the prompt. */
  method Organize(env: Env, read: Option<seq<string>>, fs: Fs) returns (outcome: Outcome, fs': Fs)
    ensures (outcome, fs') == Run(env, read, fs)
  {
    var table := GetNameMap();
    var listing := ListDir(read);
    if listing.None? {
      return ReadFailed, fs;
    }
    outcome, fs' := OrganizeEntries(env, table, listing.value, fs);
  }

  /** A file that is neither skipped nor lacking an extension is moved under its category. */
  lemma StepIsMove(env: Env, table: map<string, string>, fs: Fs, name: string)
    requires !IsDirEntry(fs, name) && Extension(name).Some? && !IsIniFile(table, name)
    ensures Step(env, table, fs, name) == Move(env, fs, name, Classify(table, Extension(name).value))
  {
  }

  /** A file is renamed into `parent/category/` under its own name, after at
      most one `create_dir`, which happens only for a new, non-empty
      category entry. If the rename fails, the pass stops at this file and
      the file stays where it was. */
  lemma MoveEffect(env: Env, fs: Fs, name: string, category: string)
    ensures
      var directory := DirectoryName(env.parent, category);
      var dest := Destination(directory, name, env.windows);
      var o := Move(env, fs, name, category).0;
      var fs' := Move(env, fs, name, category).1;
      && (o == Done <==> env.renameOk(name, dest))
      && (o != Done ==> o == RenameFailed(name))
      && (o == Done && category != "" ==> name !in fs'.top)
      && (o == Done && category == "" ==> fs'.top == fs.top)
      && (o == Done ==>
            fs'.log == fs.log + [Rename(name, dest)] || fs'.log == fs.log + [MakeDir(directory), Rename(name, dest)])
      && (o != Done ==> fs'.log == fs.log || fs'.log == fs.log + [MakeDir(directory)])
      && (o != Done && name in fs.top ==> name in fs'.top && fs'.top[name] == fs.top[name])
  {
    MoveSucceeds(env, fs, name, category);
    MoveFails(env, fs, name, category);
  }

  /** A move that completes has renamed `name` away, after at most one
      `create_dir`; with the empty category it renames the file onto itself. */
  lemma MoveSucceeds(env: Env, fs: Fs, name: string, category: string)
    ensures
      var directory := DirectoryName(env.parent, category);
      var dest := Destination(directory, name, env.windows);
      var r := Move(env, fs, name, category);
      && (r.0 == Done <==> env.renameOk(name, dest))
      && (r.0 == Done && category != "" ==> name !in r.1.top)
      && (r.0 == Done && category == "" ==> r.1.top == fs.top)
      && (r.0 == Done ==>
            r.1.log == fs.log + [Rename(name, dest)] || r.1.log == fs.log + [MakeDir(directory), Rename(name, dest)])
  {
    var fs1 := EnsureDirectory(env, fs, category);
    var directory := DirectoryName(env.parent, category);
    assert fs1.log == fs.log || fs1.log == fs.log + [MakeDir(directory)];
  }

  /** A move whose rename fails leaves the file where it was, perhaps after a `create_dir`. */
  lemma MoveFails(env: Env, fs: Fs, name: string, category: string)
    ensures
      var directory := DirectoryName(env.parent, category);
      var r := Move(env, fs, name, category);
      && (r.0 != Done ==> r.0 == RenameFailed(name))
      && (r.0 != Done ==> r.1.log == fs.log || r.1.log == fs.log + [MakeDir(directory)])
      && (r.0 != Done && name in fs.top ==> name in r.1.top && r.1.top[name] == fs.top[name])
  {
  }

  /** `Move` never leaves the folder as it was while the pass goes on: it
      either stops the pass or adds to the log. */
  lemma MoveChanges(env: Env, fs: Fs, name: string, category: string)
    ensures Move(env, fs, name, category).0 != Done || |Move(env, fs, name, category).1.log| > |fs.log|
  {
  }

  /** An entry is left alone, with no directory made and nothing renamed,
      exactly when it is a directory or a file whose category is "INI". */
  lemma StepSkipIff(env: Env, table: map<string, string>, fs: Fs, name: string)
    ensures Step(env, table, fs, name) == (Done, fs) <==> IsDirEntry(fs, name) || IsIniFile(table, name)
  {
    if !IsDirEntry(fs, name) && Extension(name).Some? && !IsIniFile(table, name) {
      StepIsMove(env, table, fs, name);
      MoveChanges(env, fs, name, Classify(table, Extension(name).value));
    }
  }

  /** With the real table, a file stays where it is exactly when its
      extension is "ini" in some case. */
  lemma IniFileIff(name: string)
    ensures IsIniFile(NameTable(), name) <==> Extension(name).Some? && Upper(Extension(name).value) == "INI"
  {
    if Extension(name).Some? {
      ClassifyIniIff(Extension(name).value);
    }
  }

  /** With the real table, a file's category is empty exactly when its name
      ends in '.': no key of the table is empty. */
  lemma SelfMoveIff(name: string)
    ensures IsSelfMove(NameTable(), name) <==> Extension(name) == Some("")
  {
    if Extension(name).Some? {
      var e := Extension(name).value;
      NameTableKeys();
      NameTableCategories();
      ClassifyEmptyIff(NameTable(), e);
    }
  }

  /** With a table whose keys are the listed ones and whose values are
      categories, only the empty extension classifies as "". */
  lemma ClassifyEmptyIff(table: map<string, string>, e: string)
    requires table.Keys == TableKeys
    requires forall k :: k in table ==> table[k] in Categories
    ensures Classify(table, e) == "" <==> e == ""
  {
    if Upper(e) in table {
      assert table[Upper(e)] in Categories;
    }
  }

  /** What moving one file may change: the log only grows, by at most a
      `create_dir` and a rename of that file; other entries are kept; a new
      entry is the category directory. */
  lemma MoveFrame(env: Env, fs: Fs, name: string, category: string)
    ensures var fs' := Move(env, fs, name, category).1;
      && |fs.log| <= |fs'.log| && fs'.log[..|fs.log|] == fs.log
      && (forall n :: n in fs.top && n != name ==> n in fs'.top && fs'.top[n] == fs.top[n])
      && (forall n :: n in fs'.top && n !in fs.top ==> fs'.top[n] == Dir)
      && (forall k :: |fs.log| <= k < |fs'.log| && fs'.log[k].Rename? ==> fs'.log[k].from == name)
  {
    MoveLogFrame(env, fs, name, category);
    MoveTopFrame(env, fs, name, category);
  }

  /** A move keeps the other entries and adds at most the category directory. */
  lemma MoveTopFrame(env: Env, fs: Fs, name: string, category: string)
    ensures var fs' := Move(env, fs, name, category).1;
      && (forall n :: n in fs.top && n != name ==> n in fs'.top && fs'.top[n] == fs.top[n])
      && (forall n :: n in fs'.top && n !in fs.top ==> fs'.top[n] == Dir)
  {
    var fs1 := EnsureDirectory(env, fs, category);
    var dest := Destination(DirectoryName(env.parent, category), name, env.windows);
    assert fs1.top == fs.top || (category !in fs.top && fs1.top == fs.top[category := Dir]);
    if !env.renameOk(name, dest) {
      assert Move(env, fs, name, category).1 == fs1;
    } else if category == "" {
      assert Move(env, fs, name, category).1.top == fs1.top;
    } else {
      assert Move(env, fs, name, category).1.top == fs1.top - {name};
    }
  }

  /** The log of a move extends the old log, and its one rename moves `name`. */
  lemma MoveLogFrame(env: Env, fs: Fs, name: string, category: string)
    ensures var fs' := Move(env, fs, name, category).1;
      && |fs.log| <= |fs'.log| && fs'.log[..|fs.log|] == fs.log
      && (forall k :: |fs.log| <= k < |fs'.log| && fs'.log[k].Rename? ==> fs'.log[k].from == name)
  {
    MoveSucceeds(env, fs, name, category);
    MoveFails(env, fs, name, category);
    var directory := DirectoryName(env.parent, category);
    var dest := Destination(directory, name, env.windows);
    LogTail(fs.log, Move(env, fs, name, category).1.log, [MakeDir(directory), Rename(name, dest)], name);
  }

  /** A log that is the old one followed by a prefix or suffix of `[MakeDir, Rename(name, _)]`. */
  lemma LogTail(log: seq<Action>, log': seq<Action>, t: seq<Action>, name: string)
    requires |t| == 2 && t[0].MakeDir? && t[1].Rename? && t[1].from == name
    requires log' == log || log' == log + [t[0]] || log' == log + [t[1]] || log' == log + t
    ensures |log| <= |log'| && log'[..|log|] == log
    ensures forall k :: |log| <= k < |log'| && log'[k].Rename? ==> log'[k].from == name
  {
    assert (log + [t[0]])[..|log|] == log;
    assert (log + [t[1]])[..|log|] == log;
    assert (log + t)[..|log|] == log;
  }

  /** What one step may change: the log only grows; entries other than the
      step's own are kept; new entries are directories; and any rename it
      adds is of the step's own entry. */
  lemma StepFrame(env: Env, table: map<string, string>, fs: Fs, name: string)
    ensures var fs' := Step(env, table, fs, name).1;
      && |fs.log| <= |fs'.log| && fs'.log[..|fs.log|] == fs.log
      && (forall n :: n in fs.top && n != name ==> n in fs'.top && fs'.top[n] == fs.top[n])
      && (forall n :: n in fs'.top && n !in fs.top ==> fs'.top[n] == Dir)
      && (forall k :: |fs.log| <= k < |fs'.log| && fs'.log[k].Rename? ==> fs'.log[k].from == name)
  {
    if !IsDirEntry(fs, name) && Extension(name).Some? {
      var category := Classify(table, Extension(name).value);
      if category != "INI" {
        MoveFrame(env, fs, name, category);
      }
    }
  }

  /** A file that is still at the top level after its own step, the pass
      going on, is one whose category is "INI" or empty. */
  lemma StepKeepsOnlyIni(env: Env, table: map<string, string>, fs: Fs, name: string)
    requires Step(env, table, fs, name).0 == Done
    ensures var fs' := Step(env, table, fs, name).1;
      name in fs'.top && fs'.top[name] == File ==> IsIniFile(table, name) || IsSelfMove(table, name)
  {
    if !IsDirEntry(fs, name) && Extension(name).Some? && !IsIniFile(table, name) {
      StepIsMove(env, table, fs, name);
      MoveSucceeds(env, fs, name, Classify(table, Extension(name).value));
    }
  }

  /** In a folder whose files all stay put, a step over an entry that is
      there changes no entry; it adds at most the rename of a file with an
      empty category onto itself, and only such a rename can fail. */
  lemma StepResettles(env: Env, table: map<string, string>, fs: Fs, name: string)
    requires name in fs.top
    requires fs.top[name] == File ==> IsIniFile(table, name) || IsSelfMove(table, name)
    ensures var r := Step(env, table, fs, name);
      && r.1.top == fs.top
      && (r.0 == Done || (r.0 == RenameFailed(name) && IsSelfMove(table, name)))
      && (r.1.log == fs.log || (IsSelfMove(table, name)
            && r.1.log == fs.log + [Rename(name, Destination(DirectoryName(env.parent, ""), name, env.windows))]))
  {
    if !IsDirEntry(fs, name) && !IsIniFile(table, name) {
      StepIsMove(env, table, fs, name);
      assert EnsureDirectory(env, fs, "") == fs;
    }
  }

  /** A pass over such a folder keeps every entry; the log only grows, and
      only by renames of files with an empty category. */
  lemma {:induction false} PassResettles(env: Env, table: map<string, string>, fs: Fs, names: seq<string>)
    requires forall n :: n in fs.top && fs.top[n] == File ==> IsIniFile(table, n) || IsSelfMove(table, n)
    requires forall k :: 0 <= k < |names| ==> names[k] in fs.top
    ensures var r := Pass(env, table, fs, names);
      && r.1.top == fs.top
      && (r.0 == Done || (r.0.RenameFailed? && IsSelfMove(table, r.0.name)))
      && |fs.log| <= |r.1.log| && r.1.log[..|fs.log|] == fs.log
      && forall k :: |fs.log| <= k < |r.1.log| ==> r.1.log[k].Rename? && IsSelfMove(table, r.1.log[k].from)
    decreases |names|
  {
    if names != [] {
      var r1 := Step(env, table, fs, names[0]);
      StepResettles(env, table, fs, names[0]);
      if r1.0 == Done {
        PassResettles(env, table, r1.1, names[1..]);
        var fs' := Pass(env, table, r1.1, names[1..]).1;
        assert fs'.log[..|fs.log|] == fs'.log[..|r1.1.log|][..|fs.log|];
        forall k | |fs.log| <= k < |fs'.log|
          ensures fs'.log[k].Rename? && IsSelfMove(table, fs'.log[k].from)
        {
          if k < |r1.1.log| {
            assert fs'.log[k] == r1.1.log[k];
          }
        }
      }
    }
  }

  /** A pass over `a + b` is a pass over `a` followed, if it did not stop,
      by a pass over `b`. */
  lemma {:induction false} PassAppend(env: Env, table: map<string, string>, fs: Fs, a: seq<string>, b: seq<string>)
    ensures var r := Pass(env, table, fs, a);
      Pass(env, table, fs, a + b) == if r.0 == Done then Pass(env, table, r.1, b) else r
    decreases |a|
  {
    if a != [] {
      assert (a + b)[0] == a[0];
      assert (a + b)[1..] == a[1..] + b;
      var r := Step(env, table, fs, a[0]);
      if r.0 == Done {
        PassAppend(env, table, r.1, a[1..], b);
      }
    } else {
      assert a + b == b;
    }
  }

  /** A pass only appends to the log: what was done before stays done. */
  lemma {:induction false} PassLogGrows(env: Env, table: map<string, string>, fs: Fs, names: seq<string>)
    ensures var fs' := Pass(env, table, fs, names).1;
      |fs.log| <= |fs'.log| && fs'.log[..|fs.log|] == fs.log
    decreases |names|
  {
    if names != [] {
      var r := Step(env, table, fs, names[0]);
      StepFrame(env, table, fs, names[0]);
      if r.0 == Done {
        PassLogGrows(env, table, r.1, names[1..]);
        var fs' := Pass(env, table, r.1, names[1..]).1;
        assert fs'.log[..|fs.log|] == fs'.log[..|r.1.log|][..|fs.log|];
      }
    }
  }

  /** A pass keeps every entry it does not list, with its kind. */
  lemma {:induction false} PassKeepsUnlisted(env: Env, table: map<string, string>, fs: Fs, names: seq<string>, n: string)
    requires n in fs.top && n !in names
    ensures n in Pass(env, table, fs, names).1.top && Pass(env, table, fs, names).1.top[n] == fs.top[n]
    decreases |names|
  {
    if names != [] {
      var r := Step(env, table, fs, names[0]);
      StepFrame(env, table, fs, names[0]);
      assert n != names[0] && n !in names[1..];
      if r.0 == Done {
        PassKeepsUnlisted(env, table, r.1, names[1..], n);
      }
    }
  }

  /** A directory stays a directory through a pass: the pass skips it. */
  lemma {:induction false} PassKeepsDirs(env: Env, table: map<string, string>, fs: Fs, names: seq<string>, n: string)
    requires IsDirEntry(fs, n)
    ensures IsDirEntry(Pass(env, table, fs, names).1, n)
    decreases |names|
  {
    if names != [] {
      var r := Step(env, table, fs, names[0]);
      StepFrame(env, table, fs, names[0]);
      if r.0 == Done {
        PassKeepsDirs(env, table, r.1, names[1..], n);
      }
    }
  }

  /** Whatever a pass adds at the top level is a directory. */
  lemma {:induction false} PassAddsOnlyDirs(env: Env, table: map<string, string>, fs: Fs, names: seq<string>, n: string)
    requires n in Pass(env, table, fs, names).1.top && n !in fs.top
    ensures Pass(env, table, fs, names).1.top[n] == Dir
    decreases |names|
  {
    if names != [] {
      var r := Step(env, table, fs, names[0]);
      StepFrame(env, table, fs, names[0]);
      if r.0 == Done {
        if n in r.1.top {
          assert r.1.top[n] == Dir;
          PassKeepsDirs(env, table, r.1, names[1..], n);
        } else {
          PassAddsOnlyDirs(env, table, r.1, names[1..], n);
        }
      }
    }
  }

  /** A pass that stops does so at one entry `i`: the entries before it were
      all handled (their moves stay applied), entry `i` is the file without an
      extension or the failed rename, and nothing after it was run. */
  lemma PassAbort(env: Env, table: map<string, string>, fs: Fs, names: seq<string>)
    returns (i: nat)
    requires Pass(env, table, fs, names).0 != Done
    ensures i < |names|
    ensures Pass(env, table, fs, names[..i]).0 == Done
    ensures Step(env, table, Pass(env, table, fs, names[..i]).1, names[i]) == Pass(env, table, fs, names)
    ensures Pass(env, table, fs, names[..i + 1]) == Pass(env, table, fs, names)
    ensures Pass(env, table, fs, names).0 in {NoExtension(names[i]), RenameFailed(names[i])}
  {
    i := PassStopIndex(env, table, fs, names);
  }

  /** The entry a stopped pass stops at, found by induction on the listing. */
  lemma {:induction false} PassStopIndex(env: Env, table: map<string, string>, fs: Fs, names: seq<string>)
    returns (i: nat)
    requires Pass(env, table, fs, names).0 != Done
    ensures i < |names|
    ensures Pass(env, table, fs, names[..i]).0 == Done
    ensures Step(env, table, Pass(env, table, fs, names[..i]).1, names[i]) == Pass(env, table, fs, names)
    ensures Pass(env, table, fs, names[..i + 1]) == Pass(env, table, fs, names)
    decreases |names|
  {
    var r := Step(env, table, fs, names[0]);
    if r.0 != Done {
      i := 0;
      assert names[..1] == [names[0]];
      PassUnfold(env, table, fs, names);
      PassUnfold(env, table, fs, names[..1]);
    } else {
      PassUnfold(env, table, fs, names);
      var j := PassStopIndex(env, table, r.1, names[1..]);
      i := j + 1;
      PassShift(env, table, fs, names, j);
      PassShift(env, table, fs, names, j + 1);
      assert names[i] == names[1..][j];
    }
  }

  /** After a first entry that completes, a prefix of the pass is a prefix of the rest. */
  lemma PassShift(env: Env, table: map<string, string>, fs: Fs, names: seq<string>, j: nat)
    requires j < |names| && Step(env, table, fs, names[0]).0 == Done
    ensures Pass(env, table, fs, names[..j + 1]) == Pass(env, table, Step(env, table, fs, names[0]).1, names[1..][..j])
  {
    assert names[..j + 1][0] == names[0] && names[..j + 1][1..] == names[1..][..j];
    PassUnfold(env, table, fs, names[..j + 1]);
  }

  /** One entry of the pass, then the rest. */
  lemma PassUnfold(env: Env, table: map<string, string>, fs: Fs, names: seq<string>)
    requires names != []
    ensures var r := Step(env, table, fs, names[0]);
      Pass(env, table, fs, names) == if r.0 != Done then r else Pass(env, table, r.1, names[1..])
  {
  }

  /** After a pass stops at entry `i`, every entry not listed up to `i` is
      still there with its kind: later entries are untouched. */
  lemma PassAbortKeepsLater(env: Env, table: map<string, string>, fs: Fs, names: seq<string>)
    returns (i: nat)
    requires Pass(env, table, fs, names).0 != Done
    ensures i < |names| && Pass(env, table, fs, names).0 in {NoExtension(names[i]), RenameFailed(names[i])}
    ensures forall n :: n in fs.top && n !in names[..i + 1] ==>
      n in Pass(env, table, fs, names).1.top && Pass(env, table, fs, names).1.top[n] == fs.top[n]
  {
    i := PassAbort(env, table, fs, names);
    forall n | n in fs.top && n !in names[..i + 1]
      ensures n in Pass(env, table, fs, names).1.top && Pass(env, table, fs, names).1.top[n] == fs.top[n]
    {
      PassKeepsUnlisted(env, table, fs, names[..i + 1], n);
    }
  }

  /** After a pass that does not stop, every file left at the top level is
      either one the pass did not list or one whose category is "INI" or empty. */
  lemma {:induction false} PassDoneKeepsOnlyIni(env: Env, table: map<string, string>, fs: Fs, names: seq<string>)
    requires Pass(env, table, fs, names).0 == Done
    ensures var fs' := Pass(env, table, fs, names).1;
      forall n :: n in fs'.top && fs'.top[n] == File ==>
        IsIniFile(table, n) || IsSelfMove(table, n) || (n !in names && n in fs.top && fs.top[n] == File)
    decreases |names|
  {
    if names != [] {
      var fs1 := Step(env, table, fs, names[0]).1;
      PassDoneKeepsOnlyIni(env, table, fs1, names[1..]);
      StepKeepsOnlyIni(env, table, fs, names[0]);
      StepFrame(env, table, fs, names[0]);
    }
  }

  /** A pass over a folder whose files are all "INI" files, listing only
      entries that are there, changes nothing. */
  lemma {:induction false} PassSettled(env: Env, table: map<string, string>, fs: Fs, names: seq<string>)
    requires forall n :: n in fs.top && fs.top[n] == File ==> IsIniFile(table, n)
    requires forall k :: 0 <= k < |names| ==> names[k] in fs.top
    ensures Pass(env, table, fs, names) == (Done, fs)
    decreases |names|
  {
    if names != [] {
      StepSkipIff(env, table, fs, names[0]);
      PassSettled(env, table, fs, names[1..]);
    }
  }

  /** After a run that completes over a listing of the whole folder, every
      file still at the top level has the extension "ini" (in some case), or
      the empty extension of a name that ends in '.'. */
  lemma RunDoneLeavesOnlyIni(env: Env, read: Option<seq<string>>, fs: Fs)
    requires read.Some? && forall n :: n in fs.top ==> n in read.value
    requires Run(env, read, fs).0 == Done
    ensures var fs' := Run(env, read, fs).1;
      forall n :: n in fs'.top && fs'.top[n] == File ==>
        Extension(n).Some? && (Upper(Extension(n).value) == "INI" || Extension(n).value == "")
  {
    var names := ListDir(read).value;
    assert forall n :: n in read.value ==> n in multiset(names);
    PassDoneKeepsOnlyIni(env, NameTable(), fs, names);
    var fs' := Run(env, read, fs).1;
    forall n | n in fs'.top && fs'.top[n] == File
      ensures Extension(n).Some? && (Upper(Extension(n).value) == "INI" || Extension(n).value == "")
    {
      IniFileIff(n);
      SelfMoveIff(n);
    }
  }

  /** Running the organiser again after a completed run keeps every entry
      where it is; what it adds to the log is only renames of files whose
      names end in '.' onto themselves, and only such a rename can stop it. */
  lemma RunAgainKeepsFolder(env: Env, env2: Env, read: Option<seq<string>>, read2: Option<seq<string>>, fs: Fs)
    requires read.Some? && forall n :: n in fs.top ==> n in read.value
    requires Run(env, read, fs).0 == Done
    requires read2.Some? && forall k :: 0 <= k < |read2.value| ==> read2.value[k] in Run(env, read, fs).1.top
    ensures var fs' := Run(env, read, fs).1;
      var r := Run(env2, read2, fs');
      && r.1.top == fs'.top
      && (r.0 == Done || (r.0.RenameFailed? && Extension(r.0.name) == Some("")))
      && |fs'.log| <= |r.1.log| && r.1.log[..|fs'.log|] == fs'.log
      && forall k :: |fs'.log| <= k < |r.1.log| ==> r.1.log[k].Rename? && Extension(r.1.log[k].from) == Some("")
  {
    var names := ListDir(read).value;
    var fs' := Run(env, read, fs).1;
    assert forall n :: n in read.value ==> n in multiset(names);
    PassDoneKeepsOnlyIni(env, NameTable(), fs, names);
    var names2 := ListDir(read2).value;
    forall k | 0 <= k < |names2|
      ensures names2[k] in fs'.top
    {
      assert names2[k] in multiset(read2.value);
    }
    PassResettles(env2, NameTable(), fs', names2);
    var r := Run(env2, read2, fs');
    if r.0 != Done {
      SelfMoveIff(r.0.name);
    }
    forall k | |fs'.log| <= k < |r.1.log|
      ensures r.1.log[k].Rename? && Extension(r.1.log[k].from) == Some("")
    {
      SelfMoveIff(r.1.log[k].from);
    }
  }

  /** Running the organiser again after a completed run moves nothing and
      creates nothing, whatever the oracles say the second time, when no
      file of the folder has a name ending in '.'. */
  lemma RunIdempotent(env: Env, env2: Env, read: Option<seq<string>>, read2: Option<seq<string>>, fs: Fs)
    requires read.Some? && forall n :: n in fs.top ==> n in read.value
    requires forall n :: n in fs.top && fs.top[n] == File ==> Extension(n) != Some("")
    requires Run(env, read, fs).0 == Done
    requires read2.Some? && forall k :: 0 <= k < |read2.value| ==> read2.value[k] in Run(env, read, fs).1.top
    ensures Run(env2, read2, Run(env, read, fs).1) == (Done, Run(env, read, fs).1)
  {
    var names := ListDir(read).value;
    var fs' := Run(env, read, fs).1;
    assert forall n :: n in read.value ==> n in multiset(names);
    PassDoneKeepsOnlyIni(env, NameTable(), fs, names);
    forall n | n in fs'.top && fs'.top[n] == File
      ensures IsIniFile(NameTable(), n)
    {
      if n !in fs.top {
        PassAddsOnlyDirs(env, NameTable(), fs, names, n);
      } else if fs.top[n] == Dir {
        PassKeepsDirs(env, NameTable(), fs, names, n);
      }
      SelfMoveIff(n);
    }
    var names2 := ListDir(read2).value;
    forall k | 0 <= k < |names2|
      ensures names2[k] in fs'.top
    {
      assert names2[k] in multiset(read2.value);
    }
    PassSettled(env2, NameTable(), fs', names2);
  }
}
