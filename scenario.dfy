/**
 * One run of the organiser on a folder holding `report.docx`, `photo.JPG`,
 * `settings.ini` and a sub-directory `archive`, and two runs on a folder
 * holding only `notes.`, on a non-Windows target where every `create_dir`
 * and `rename` succeeds.
 */
module Scenario {
  import opened Wrappers
  import opened Text
  import opened Names
  import opened Listing
  import opened Organizer

  const Before: map<string, Kind> :=
    map["report.docx" := File, "photo.JPG" := File, "settings.ini" := File, "archive" := Dir]

  /** The order `read_dir` happens to yield. */
  const Read: seq<string> := ["settings.ini", "report.docx", "archive", "photo.JPG"]

  /** Everything succeeds; `is_dir` on a formatted category path is false. */
  function Permissive(): Env {
    Env("/data", false, (p: string) => false, (p: string) => true, (a: string, b: string) => true)
  }

  lemma ScenarioListing()
    ensures ListDir(Some(Read)) == Some(["archive", "photo.JPG", "report.docx", "settings.ini"])
  {
    var sorted := ["archive", "photo.JPG", "report.docx", "settings.ini"];
    assert LexLe("archive", "photo.JPG") && LexLe("photo.JPG", "report.docx");
    assert LexLe("report.docx", "settings.ini");
    assert Sorted(sorted) by {
      forall i, j | 0 <= i < j < 4 ensures LexLe(sorted[i], sorted[j]) {
        if i + 1 < j { LexLeTransitive(sorted[i], sorted[i + 1], sorted[j]); }
      }
    }
    assert multiset(sorted) == multiset(Read);
    SortedUnique(SortNames(Read), sorted);
  }

  lemma PhotoExtension()
    ensures Extension("photo.JPG") == Some("JPG")
  {
    var a := "photo.JPG";
    assert a[5] == '.' && a[6] != '.' && a[7] != '.' && a[8] != '.';
    assert LastDot(a) == Some(5);
    assert a[6..] == "JPG";
  }

  lemma ReportExtension()
    ensures Extension("report.docx") == Some("docx")
  {
    var b := "report.docx";
    assert b[6] == '.' && b[7] != '.' && b[8] != '.' && b[9] != '.' && b[10] != '.';
    assert LastDot(b) == Some(6);
    assert b[7..] == "docx";
  }

  lemma SettingsExtension()
    ensures Extension("settings.ini") == Some("ini")
  {
    var c := "settings.ini";
    assert c[8] == '.' && c[9] != '.' && c[10] != '.' && c[11] != '.';
    assert LastDot(c) == Some(8);
    assert c[9..] == "ini";
  }

  /** "JPG" is listed only by the image loop. */
  lemma PhotoCategory()
    ensures Classify(NameTable(), "JPG") == "Images"
  {
    NameTableJpg();
    assert Upper("JPG") == "JPG";
  }

  /** "DOCX" is listed only by the text loop. */
  lemma TableDocx()
    ensures "DOCX" in NameTable() && NameTable()["DOCX"] == "Texts"
  {
    assert "DOCX" in Groups[0].keys;
    assert forall j :: 0 < j < |Groups| ==> "DOCX" !in Groups[j].keys;
    BuildLastWriteWins(map[], Groups, "DOCX", 0);
  }

  lemma ReportCategory()
    ensures Classify(NameTable(), "docx") == "Texts"
  {
    TableDocx();
    assert Upper("docx") == "DOCX";
  }

  lemma SettingsCategory()
    ensures Classify(NameTable(), "ini") == "INI"
  {
    assert Upper("ini") == "INI";
    ClassifyIniIff("ini");
  }

  /** Where the two files go, built as the organiser builds them. */
  const ImagesDir: string := DirectoryName("/data", "Images")
  const PhotoTo: string := Destination(ImagesDir, "photo.JPG", false)
  const TextsDir: string := DirectoryName("/data", "Texts")
  const ReportTo: string := Destination(TextsDir, "report.docx", false)

  /** Spelled out, the paths are `/data/Images/` and `/data/Images//photo.JPG`. */
  lemma ImagesPaths()
    ensures ImagesDir == "/data/Images/"
    ensures PhotoTo == "/data/Images//photo.JPG"
  {
    assert "/data" + "/" + "Images" + "/" == "/data/Images/";
    assert "/data/Images/" + "/" + "photo.JPG" == "/data/Images//photo.JPG";
  }

  /** Spelled out, the paths are `/data/Texts/` and `/data/Texts//report.docx`. */
  lemma TextsPaths()
    ensures TextsDir == "/data/Texts/"
    ensures ReportTo == "/data/Texts//report.docx"
  {
    assert "/data" + "/" + "Texts" + "/" == "/data/Texts/";
    assert "/data/Texts/" + "/" + "report.docx" == "/data/Texts//report.docx";
  }

  const AfterPhoto: Fs :=
    Fs(map["report.docx" := File, "settings.ini" := File, "archive" := Dir, "Images" := Dir],
       [MakeDir(ImagesDir), Rename("photo.JPG", PhotoTo)])

  const AfterReport: Fs :=
    Fs(map["settings.ini" := File, "archive" := Dir, "Images" := Dir, "Texts" := Dir],
       AfterPhoto.log + [MakeDir(TextsDir), Rename("report.docx", ReportTo)])

  /** The sub-directory is skipped. */
  lemma ScenarioArchive()
    ensures Step(Permissive(), NameTable(), Fs(Before, []), "archive") == (Done, Fs(Before, []))
  {
  }

  lemma PhotoIsImage()
    ensures Step(Permissive(), NameTable(), Fs(Before, []), "photo.JPG")
         == Move(Permissive(), Fs(Before, []), "photo.JPG", "Images")
  {
    PhotoExtension();
    PhotoCategory();
    StepIsMove(Permissive(), NameTable(), Fs(Before, []), "photo.JPG");
  }

  lemma PhotoDirectory()
    ensures EnsureDirectory(Permissive(), Fs(Before, []), "Images")
         == Fs(Before["Images" := Dir], [MakeDir(ImagesDir)])
  {
  }

  lemma PhotoTop()
    ensures Before["Images" := Dir] - {"photo.JPG"} == AfterPhoto.top
  {
  }

  lemma PhotoMove()
    ensures Move(Permissive(), Fs(Before, []), "photo.JPG", "Images") == (Done, AfterPhoto)
  {
    PhotoDirectory();
    var env := Permissive();
    assert env.parent == "/data" && !env.windows && env.renameOk("photo.JPG", PhotoTo);
    PhotoTop();
    assert [MakeDir(ImagesDir)] + [Rename("photo.JPG", PhotoTo)] == AfterPhoto.log;
  }

  /** `photo.JPG` is moved into a new `Images` directory. */
  lemma ScenarioPhoto()
    ensures Step(Permissive(), NameTable(), Fs(Before, []), "photo.JPG") == (Done, AfterPhoto)
  {
    PhotoIsImage();
    PhotoMove();
  }

  lemma ReportIsText()
    ensures Step(Permissive(), NameTable(), AfterPhoto, "report.docx")
         == Move(Permissive(), AfterPhoto, "report.docx", "Texts")
  {
    ReportExtension();
    ReportCategory();
    StepIsMove(Permissive(), NameTable(), AfterPhoto, "report.docx");
  }

  lemma ReportDirectory()
    ensures EnsureDirectory(Permissive(), AfterPhoto, "Texts")
         == Fs(AfterPhoto.top["Texts" := Dir], AfterPhoto.log + [MakeDir(TextsDir)])
  {
  }

  lemma ReportTop()
    ensures AfterPhoto.top["Texts" := Dir] - {"report.docx"} == AfterReport.top
  {
  }

  lemma ReportLog()
    ensures AfterPhoto.log + [MakeDir(TextsDir)] + [Rename("report.docx", ReportTo)] == AfterReport.log
  {
  }

  lemma ReportMove()
    ensures Move(Permissive(), AfterPhoto, "report.docx", "Texts") == (Done, AfterReport)
  {
    ReportDirectory();
    var env := Permissive();
    assert env.parent == "/data" && !env.windows && env.renameOk("report.docx", ReportTo);
    ReportTop();
    ReportLog();
  }

  /** `report.docx` is moved into a new `Texts` directory. */
  lemma ScenarioReport()
    ensures Step(Permissive(), NameTable(), AfterPhoto, "report.docx") == (Done, AfterReport)
  {
    ReportIsText();
    ReportMove();
  }

  /** `settings.ini` stays where it is. */
  lemma ScenarioSettings()
    ensures Step(Permissive(), NameTable(), AfterReport, "settings.ini") == (Done, AfterReport)
  {
    SettingsExtension();
    SettingsCategory();
  }

  lemma PassSettings()
    ensures Pass(Permissive(), NameTable(), AfterReport, ["settings.ini"]) == (Done, AfterReport)
  {
    ScenarioSettings();
    var names := ["settings.ini"];
    assert names[1..] == [];
  }

  lemma PassReport()
    ensures Pass(Permissive(), NameTable(), AfterPhoto, ["report.docx", "settings.ini"]) == (Done, AfterReport)
  {
    ScenarioReport();
    PassSettings();
    var names := ["report.docx", "settings.ini"];
    assert names[1..] == ["settings.ini"];
  }

  lemma PassPhoto()
    ensures Pass(Permissive(), NameTable(), Fs(Before, []), ["photo.JPG", "report.docx", "settings.ini"])
         == (Done, AfterReport)
  {
    ScenarioPhoto();
    PassReport();
    var names := ["photo.JPG", "report.docx", "settings.ini"];
    assert names[1..] == ["report.docx", "settings.ini"];
  }

  /** `photo.JPG` goes to `Images/`, `report.docx` to `Texts/`; `settings.ini`
      and `archive` stay. */
  lemma ScenarioRun()
    ensures Run(Permissive(), Some(Read), Fs(Before, [])) == (Done, AfterReport)
  {
    ScenarioListing();
    ScenarioArchive();
    PassPhoto();
    var names := ["archive", "photo.JPG", "report.docx", "settings.ini"];
    assert names[1..] == ["photo.JPG", "report.docx", "settings.ini"];
  }

  /** A second folder, holding only `notes.`: a name ending in '.', whose
      extension is empty and whose category is therefore "". */
  const Dotted: map<string, Kind> := map["notes." := File]

  lemma NotesExtension()
    ensures Extension("notes.") == Some("")
  {
    var d := "notes.";
    assert d[5] == '.';
    assert LastDot(d) == Some(5);
    assert d[6..] == "";
  }

  lemma NotesCategory()
    ensures Classify(NameTable(), "") == ""
  {
    NameTableUnlisted("");
  }

  /** The destination of `notes.`: the file itself, written `/data///notes.`. */
  const NotesTo: string := Destination(DirectoryName("/data", ""), "notes.", false)

  lemma NotesPath()
    ensures NotesTo == "/data///notes."
  {
    assert "/data" + "/" + "" + "/" + "/" + "notes." == "/data///notes.";
  }

  lemma NotesListing()
    ensures ListDir(Some(["notes."])) == Some(["notes."])
  {
    SortedUnique(SortNames(["notes."]), ["notes."]);
  }

  /** Each step over `notes.` renames it onto itself and leaves the folder as it was. */
  lemma NotesStep(log: seq<Action>)
    ensures Step(Permissive(), NameTable(), Fs(Dotted, log), "notes.")
         == (Done, Fs(Dotted, log + [Rename("notes.", NotesTo)]))
  {
    NotesExtension();
    NotesCategory();
    StepIsMove(Permissive(), NameTable(), Fs(Dotted, log), "notes.");
    assert EnsureDirectory(Permissive(), Fs(Dotted, log), "") == Fs(Dotted, log);
  }

  lemma NotesRun(log: seq<Action>)
    ensures Run(Permissive(), Some(["notes."]), Fs(Dotted, log))
         == (Done, Fs(Dotted, log + [Rename("notes.", NotesTo)]))
  {
    NotesListing();
    NotesStep(log);
    var names := ["notes."];
    assert names[1..] == [];
  }

  /** A completed run over `notes.`, then a second one: the second run is not
      a no-op, because it renames `notes.` onto itself once more. */
  lemma NotesRunsAgain()
    ensures Run(Permissive(), Some(["notes."]), Fs(Dotted, [])).0 == Done
    ensures var first := Run(Permissive(), Some(["notes."]), Fs(Dotted, [])).1;
      && first.top == Dotted
      && Run(Permissive(), Some(["notes."]), first) != (Done, first)
  {
    NotesRun([]);
    NotesRun([Rename("notes.", NotesTo)]);
  }
}
