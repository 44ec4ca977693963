# rs-folder-sort, modelled in Dafny

`rs-folder-sort` is a small command-line tool. It asks for a folder, then
sorts every file at the folder's top level into a sub-folder named after the
file's category: `Texts`, `Tables`, `Presentations`, `Images`, `Videos` or
`Audios`. The category comes from the file's extension. An unknown extension
becomes its own upper-cased category (`x.xyz` goes to `XYZ/`). Sub-directories
are skipped, and so are `.ini` files. The model covers `src/main.rs` as its
core:

- `text.dfy` (`Text`): ASCII `trim`, `to_uppercase` and single-character
  `replace` on strings.
- `paths.dfy` (`Paths`): `convert_path_to_os_style`, `format_path` and
  `check_path`. The compile-time target switch is a `windows` parameter.
- `names.dfy` (`Names`): `get_name_map`, as a method with one `for` loop per
  group of keys. It is proved to build a fold over the six groups, and that
  fold is proved equal to the written-out 22-key table. The module also has
  the lookup that classifies an extension.
- `listing.dfy` (`Listing`): `listdir`. A failed read becomes `None`. A good
  read is sorted with a pure insertion sort over a lexicographic order, and is
  proved to come out sorted and to be a permutation of the names read. It is
  also proved that a sorted order is uniquely determined.
- `organizer.dfy` (`Organizer`): the `for path in contents` loop of `main`.
  - The loop is the method `OrganizeEntries`, proved equal to the function
    `Pass`, which folds `Step` over the listing.
  - The filesystem is a map from top-level names to `File`/`Dir`, plus a log
    of the `create_dir` and `rename` calls that succeeded.
  - `is_dir` on a listed entry (line 37) is read off the model's own
    top-level map. The other OS answers are oracles in `Env`: `is_dir` on a
    formatted category path, whether `create_dir` is permitted, and whether
    `rename` succeeds.
  - Each way `main` can stop early is an `Outcome`: `read_dir` failing, the
    `expect` on a missing extension, or the `?` on `fs::rename`.
- `scenario.dfy` (`Scenario`): two concrete folders, worked through to the end.

The code's behaviour is modelled as written, including four quirks:

- **`format_path` (line 119) appends a backslash to every trimmed path.** Its
  test reads "differs from `\` OR differs from `/`", which is always true. The
  test also looks at the second-to-last character, not the last one, and the
  slice panics on a trimmed path shorter than two characters.
- **`convert_path_to_os_style` on non-Windows targets (lines 135-140) returns
  its input unchanged.** It builds the replaced string and then throws it away.
- **"ODT" ends up under `Tables`.** It is listed under texts and again under
  tables, and the later insert wins.
- **A file whose name ends in '.' never leaves.** `Path::extension` gives it
  the empty extension, which is not a key of the table, so its category is
  "". Its directory is then `parent//`, which exists, and its destination
  `parent///name` is the file's own path. The rename onto itself succeeds
  and the file stays. Every later run renames it again, so a run is not a
  no-op on a folder holding such a file (`Scenario.NotesRunsAgain`).

A normaliser would be expected to append a separator only when one is
missing, and to convert separators on every target. The code does neither,
and the model follows the code.

## Model

| member | source | states |
|---|---|---|
| `Text.Trim` | src/main.rs:116 | the result is the slice of the input between its leading and trailing whitespace runs; it is empty exactly when the input is all whitespace; otherwise it starts and ends on non-whitespace; every non-whitespace character of the input lies inside it |
| `Text.TrimOfTrimmed` | src/main.rs:116 | trimming is idempotent |
| `Text.Upper` | src/main.rs:46 | the result has the input's length, and each character is the ASCII upper-case of the input character at that position |
| `Text.ReplaceChar` | src/main.rs:130 | defined character by character from the front; the result has the input's length, each `from` becomes `to` and every other character is kept |
| `Paths.Convert` | src/main.rs:127-141 | same length as the input; on Windows every '/' becomes '\', so no '/' is left, and every other character is kept; on other targets the input comes back unchanged |
| `Paths.ConvertConcat` | src/main.rs:127-141 | converting a concatenation converts each part |
| `Paths.FormatPath` | src/main.rs:114-124 | `None` (the slice panic) exactly when the trimmed path is shorter than 2; otherwise the converted trimmed path with a backslash appended |
| `Paths.FormatPathAppendsOne` | src/main.rs:118-122 | exactly one backslash is appended to every trimmed path of length at least 2; on other targets that is the whole change; on Windows no '/' is left |
| `Paths.FormatPathAfterSlash` | src/main.rs:119-120 | a trimmed path already ending in '/' still gets the backslash: on other targets the result ends in "/\" |
| `Paths.CheckPath` | src/main.rs:100-112 | a blank path is rejected; the formatting panic happens exactly for a path that trims to one character; the answer is true exactly when the trimmed path is at least 2 long and `is_dir` holds for its formatted form |
| `Paths.CheckPathBlankIgnoresFilesystem` | src/main.rs:101-104 | a blank path is rejected without consulting `is_dir` |
| `Names.Overwrite` | src/main.rs:152-169 | inserting the keys of a list one after another, all with one value: the keys are the old keys plus the listed ones; listed keys map to the value; other keys keep their old value |
| `Names.OverwriteIsUnion` | src/main.rs:152-169 | the inserts one by one give the same map as overriding the old map with all listed keys at once |
| `Names.InsertAll` | src/main.rs:152-154 | one insert loop yields exactly the overwrite of the map by its keys |
| `Names.GetNameMap` | src/main.rs:143-171 | the six insert loops, run in order from an empty map, build the fold of the six groups |
| `Names.Build` | src/main.rs:143-171 | running insert loops never loses a key that was already there |
| `Names.BuildUntouched` | src/main.rs:143-171 | a key that no group lists is present after the fold exactly when it was present before, with its old value |
| `Names.BuildLastWriteWins` | src/main.rs:152-169 | a key gets the category of the last group that lists it |
| `Names.BuildKeys` | src/main.rs:143-171 | after the fold, a key is present exactly when it was present at the start or some group lists it |
| `Names.NameTableIsExpected` | src/main.rs:143-171 | `get_name_map` equals the written-out 22-entry table |
| `Names.NameTableKeys` | src/main.rs:145-150 | the table's keys are exactly the 22 distinct listed extensions |
| `Names.NameTableOdt` | src/main.rs:145-146 | "ODT", listed under texts and then under tables, maps to "Tables" |
| `Names.NameTableJpg` | src/main.rs:148 | "JPG", listed only under images, maps to "Images" |
| `Names.NameTableCategories` | src/main.rs:152-169 | every value of the table is one of the six category names |
| `Names.NameTableUnlisted` | src/main.rs:145-150 | a key that none of the six lists names is not in the table |
| `Names.NameTableNoIniValue` | src/main.rs:152-169 | no extension maps to "INI" |
| `Names.Classify` | src/main.rs:46-48 | the category is a value of the table or, failing that, the upper-cased extension itself |
| `Names.ClassifyCategoryIff` | src/main.rs:46-48 | with the real table, the category is one of the six category names exactly when the upper-cased extension is one of the 22 listed keys; any other extension gets a name that is no category |
| `Names.ClassifyCaseInsensitive` | src/main.rs:46-48 | extensions equal up to ASCII case classify alike |
| `Names.ClassifyIniIff` | src/main.rs:46-50 | with the real table, the category is "INI" exactly when the extension is "ini" in some case |
| `Names.ClassifyImageExamples` | src/main.rs:148 | "jpg", "JPG" and "Jpg" are all "Images" |
| `Names.ClassifyUnknownExample` | src/main.rs:48 | the unknown extension "xyz" passes through as "XYZ" |
| `Names.ClassifyOdtExample` | src/main.rs:145-156 | "odt" classifies as "Tables" |
| `Listing.LexLe` | src/main.rs:96 | a name comes before every name it is a prefix of, and never before its own proper prefix |
| `Listing.LexLeTotal` | src/main.rs:96 | the name order is total |
| `Listing.LexLeTransitive` | src/main.rs:96 | the name order is transitive |
| `Listing.LexLeAntisymmetric` | src/main.rs:96 | the name order is antisymmetric |
| `Listing.Insert` | src/main.rs:96 | inserting into a sorted sequence keeps it sorted and adds exactly that name |
| `Listing.SortNames` | src/main.rs:96 | the result is sorted and is a permutation of the input |
| `Listing.SortedUnique` | src/main.rs:96 | two sorted permutations of the same names are equal |
| `Listing.ListDir` | src/main.rs:91-97 | a failed read gives `None`; a good read gives a sorted permutation of the names read |
| `Listing.ListDirDeterministic` | src/main.rs:91-97 | the order of the listing depends only on which names were read, not the order `read_dir` yielded them in |
| `Organizer.LastDot` | src/main.rs:42 | the index found holds a '.' and no later character does; `None` exactly when there is no '.' |
| `Organizer.Extension` | src/main.rs:42-43 | there is no extension exactly for "..", a name without a '.', or a name whose only '.' is its first character; otherwise it is the dot-free text after the last '.' |
| `Organizer.DirectoryNameInjective` | src/main.rs:60 | two categories get the same directory exactly when they are the same category |
| `Organizer.DirectoryNameFormats` | src/main.rs:60-61 | `format_path` never panics on a category directory |
| `Organizer.Destination` | src/main.rs:75-76 | the destination is one character longer than the directory and the file name together |
| `Organizer.DestinationShape` | src/main.rs:75-76 | the destination ends with the file's name, after the converted category directory and one separator; on other targets it is literally `parent/category//name` |
| `Organizer.EnsureDirectory` | src/main.rs:59-72 | `format_path` does not panic on the directory; a `create_dir` is logged exactly when `is_dir` on the formatted directory is false and the call can succeed (a new, non-empty category the OS permits); at most one is logged; when one is, the category has become a directory entry; otherwise nothing changes |
| `Organizer.OrganizeEntries` | src/main.rs:36-83 | the loop's outcome and final filesystem are those of `Pass` over the listing |
| `Organizer.Organize` | src/main.rs:35-87 | building the table, listing the folder and running the loop gives the outcome and filesystem of `Run` |
| `Organizer.Move` | src/main.rs:55-80 | a move completes exactly when the rename to the built destination succeeds, and otherwise stops the pass with the failed rename of this file |
| `Organizer.Step` | src/main.rs:37-81 | a step completes, or panics on its own entry, or fails its own rename; it panics exactly when the entry is not a directory and has no extension |
| `Organizer.Pass` | src/main.rs:36-83 | a pass completes, or stops with the panic or failed rename of one of the entries it lists |
| `Organizer.Run` | src/main.rs:35-85 | the run ends in the `read_dir` failure exactly when the read failed, and then nothing has changed |
| `Organizer.StepIsMove` | src/main.rs:40-81 | a file that has an extension and is not an "INI" file is moved under its category |
| `Organizer.MoveEffect` | src/main.rs:55-80 | a move completes exactly when the rename to `parent/category//name` succeeds; it then logs that rename, after at most one `create_dir`; the file has left the folder, except with the empty category, where the rename is onto the file itself and the folder is unchanged; a failed rename stops the pass at this file, which stays put, and leaves at most a `create_dir` in the log |
| `Organizer.StepSkipIff` | src/main.rs:37-53 | an entry leaves the filesystem exactly as it was, and the pass goes on, exactly when it is a directory or an "INI" file |
| `Organizer.IniFileIff` | src/main.rs:42-53 | with the real table, a file is an "INI" file exactly when its extension is "ini" in some case |
| `Organizer.SelfMoveIff` | src/main.rs:42-48 | with the real table, a file's category is empty exactly when its extension is empty, that is, its name ends in '.' after a first character |
| `Organizer.StepFrame` | src/main.rs:36-81 | one step only appends to the log, keeps every other entry with its kind, adds only directory entries, and renames only its own entry |
| `Organizer.PassAppend` | src/main.rs:36-83 | a pass over `a + b` is a pass over `a`, followed by a pass over `b` unless the first stopped |
| `Organizer.PassLogGrows` | src/main.rs:36-83 | a pass only appends to the log |
| `Organizer.PassKeepsUnlisted` | src/main.rs:36-83 | an entry the pass does not list keeps its kind |
| `Organizer.PassKeepsDirs` | src/main.rs:37-39 | a directory stays a directory through a pass |
| `Organizer.PassAddsOnlyDirs` | src/main.rs:59-72 | every entry a pass adds is a directory |
| `Organizer.PassAbort` | src/main.rs:43-78 | a pass that stops does so at one entry `i`: the entries before it completed, entry `i` gives the stopping result (a missing extension or a failed rename of that entry), and nothing after it runs |
| `Organizer.PassAbortKeepsLater` | src/main.rs:43-78 | after a pass stops at entry `i`, every entry not listed up to `i` is still there with its kind |
| `Organizer.PassDoneKeepsOnlyIni` | src/main.rs:36-83 | after a pass that completes, every file left at the top level is an "INI" file, a file with the empty category, or one the pass did not list |
| `Organizer.PassSettled` | src/main.rs:36-83 | a pass over a folder whose files are all "INI" files, listing only entries that are present, changes nothing |
| `Organizer.StepResettles` | src/main.rs:37-81 | in a folder whose files are all "INI" files or files with the empty category, a step over a present entry keeps every entry; it adds nothing to the log except, for a file with the empty category, its rename onto itself, and only that rename can fail |
| `Organizer.PassResettles` | src/main.rs:36-83 | in such a folder, a pass over present entries keeps every entry, only appends to the log, appends only renames of files with the empty category, and can stop only on such a rename |
| `Organizer.RunDoneLeavesOnlyIni` | src/main.rs:35-85 | after a completed run over a listing of the whole folder, every file still at the top level has the extension "ini" in some case, or the empty extension |
| `Organizer.RunAgainKeepsFolder` | src/main.rs:35-85 | running again after a completed run, over entries that are there, keeps every entry; the log only grows, by renames of files whose names end in '.', and only such a rename can stop the run |
| `Organizer.RunIdempotent` | src/main.rs:35-85 | when no file's name ends in '.', running again after a completed run moves nothing and creates nothing, whatever the OS answers the second time |
| `Scenario.ScenarioRun` | src/main.rs:35-85 | a folder holding `report.docx`, `photo.JPG`, `settings.ini` and a directory `archive`, with every OS call succeeding: `photo.JPG` goes to `/data/Images//photo.JPG` and `report.docx` to `/data/Texts//report.docx`, each after a `create_dir`; `settings.ini` and `archive` stay |
| `Scenario.ImagesPaths` | src/main.rs:60-76 | for the scenario, the image directory is `/data/Images/` and the destination is `/data/Images//photo.JPG` |
| `Scenario.NotesRun` | src/main.rs:35-85 | a run over a folder holding only `notes.`, with every OS call succeeding, completes, leaves the folder as it was, and logs one rename of `notes.` to `/data///notes.` |
| `Scenario.NotesRunsAgain` | src/main.rs:35-85 | so a second run after that completed run is not a no-op: it logs the rename again |
| `Scenario.NotesPath` | src/main.rs:60-76 | the destination of `notes.` is `/data///notes.`, the file's own path |

## Left out

- The prompt loop (lines 16-32) and the example path (lines 11-14) are left out. They are interactive I/O. `Paths.CheckPath` models the decision made for each line typed.
- What the program prints (`println!`, `eprintln!`) is left out. A `create_dir` error is only printed, so the model treats it as a failed call that changes nothing.
- Panics are modelled as values: `FormatPath` returns `None`, and `Outcome` has `ReadFailed` and `NoExtension`. A panic and the error returned by `?` at line 78 both end `main`. The model does not separate them further.
- The real filesystem is not modelled. `is_dir` on a path, the permission behind `create_dir`, and the success of `rename` are oracles.
  - The folder is its top-level names with their kinds. Contents of sub-directories are not modelled.
  - `create_dir` succeeds only for a new, non-empty category name that the oracle permits.
  - The oracles are fixed for one run. Changes made by other processes during the run are not modelled.
- Line 35 formats the folder path before `read_dir`. `Organizer.Run` takes the result of the read as given, so it does not trace the formatted path into `read_dir`. On non-Windows targets that path ends in a backslash (`Paths.FormatPathAppendsOne`).
- `Path::parent().display()` is the string `Env.parent`. Listed entries are file names, not full paths. `Path::file_name` and `Path::extension` act on the name alone.
- `PathBuf` ordering compares paths component by component, on bytes. The entries of one folder share their parent, so the model orders them by name, character by character.
- `Vec::sort` works in place. The model uses a pure sort (`Listing.SortNames`), and `listdir` is proved to return a sorted permutation.
- A `read_dir` error on an individual entry (the `collect` at line 94) is folded into the read failing as a whole.
- Only ASCII is modelled for `trim`, `to_uppercase` and string slicing: six ASCII whitespace characters, and `a`-`z` upper-cased. The non-UTF-8 case of `to_str().unwrap()` is left out. `format_path` slices on byte offsets; it agrees with the model's character offsets on ASCII.
- The `HashMap` is a `map`. Hashing and capacity do not affect the result.
- What a doubled separator such as `Images//photo.JPG` means to the OS is not modelled. The model keeps the destination string exactly as the code builds it.
- One exception: the model assumes that `parent///name`, the destination for the empty category, names the file itself, as it does on POSIX systems. A rename that succeeds there leaves the folder as it was; the `rename` oracle still decides whether it succeeds.
- Organizer.RunIdempotent: does not cover a folder holding a file whose name ends in '.', because such a file is renamed onto itself on every run (`Scenario.NotesRunsAgain`). `Organizer.RunAgainKeepsFolder` states what a second run does in general.
