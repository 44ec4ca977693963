/**
 * The extension-to-category table (`get_name_map`) and the lookup the
 * organiser does with it. Keys are upper-case extensions without the dot.
 */
module Names {
  import opened Text

  /** One insert loop of `get_name_map`: every key gets the same category. */
  datatype Group = Group(category: string, keys: seq<string>)

  const TextKeys: seq<string> := ["TXT", "DOC", "DOCX", "ODT"]
  const TabularKeys: seq<string> := ["CSV", "ODT", "XLS", "XLSX"]
  const PptKeys: seq<string> := ["PPT", "PPTX", "ODP"]
  const ImageKeys: seq<string> := ["JPG", "JPEG", "PNG", "TIFF", "BMP"]
  const VideoKeys: seq<string> := ["MP4", "MOV", "AVI", "WMV"]
  const AudioKeys: seq<string> := ["WAV", "MP3", "FLAC"]

  /** The six insert loops, in the order they run. */
  const Groups: seq<Group> := [
    Group("Texts", TextKeys), Group("Tables", TabularKeys), Group("Presentations", PptKeys),
    Group("Images", ImageKeys), Group("Videos", VideoKeys), Group("Audios", AudioKeys)
  ]

  /** `m` after `insert(k, v)` for every `k` of `keys`, in order: a key already present is overwritten. */
  function Overwrite(m: map<string, string>, keys: seq<string>, v: string): (r: map<string, string>)
    ensures r.Keys == m.Keys + set k | k in keys
    ensures forall k :: k in keys ==> r[k] == v
    ensures forall k :: k in m && k !in keys ==> r[k] == m[k]
    decreases |keys|
  {
    if keys == [] then m else Overwrite(m[keys[0] := v], keys[1..], v)
  }

  /** Inserting one more key after the others. */
  lemma {:induction false} OverwriteSnoc(m: map<string, string>, keys: seq<string>, k: string, v: string)
    ensures Overwrite(m, keys + [k], v) == Overwrite(m, keys, v)[k := v]
    decreases |keys|
  {
    if keys == [] {
      assert [k][1..] == [];
    } else {
      assert (keys + [k])[0] == keys[0] && (keys + [k])[1..] == keys[1..] + [k];
      OverwriteSnoc(m[keys[0] := v], keys[1..], k, v);
    }
  }

  /** The inserts all at once: the map, overridden by every listed key mapped to `v`. */
  lemma {:induction false} OverwriteIsUnion(m: map<string, string>, keys: seq<string>, v: string)
    ensures Overwrite(m, keys, v) == m + (map k | k in keys :: v)
    decreases |keys|
  {
    if keys != [] {
      OverwriteIsUnion(m[keys[0] := v], keys[1..], v);
      assert forall k :: k in keys <==> k == keys[0] || k in keys[1..];
    }
  }

  /** One `for key in ... { name_map.insert(...) }` loop of `get_name_map`. */
  method InsertAll(m: map<string, string>, keys: seq<string>, v: string) returns (r: map<string, string>)
    ensures r == Overwrite(m, keys, v)
  {
    r := m;
    for i := 0 to |keys|
      invariant r == Overwrite(m, keys[..i], v)
    {
      assert keys[..i + 1] == keys[..i] + [keys[i]];
      OverwriteSnoc(m, keys[..i], keys[i], v);
      r := r[keys[i] := v];
    }
    assert keys[..|keys|] == keys;
  }

  /** The table obtained by running the insert loops of `gs` in order, starting from `m`. */
  function Build(m: map<string, string>, gs: seq<Group>): (r: map<string, string>)
    ensures m.Keys <= r.Keys
    decreases |gs|
  {
    if gs == [] then m else Build(Overwrite(m, gs[0].keys, gs[0].category), gs[1..])
  }

  /** The table `get_name_map` returns. */
  function NameTable(): map<string, string> {
    Build(map[], Groups)
  }

  /** `get_name_map`: six insert loops into an empty map. */
  method GetNameMap() returns (m: map<string, string>)
    ensures m == NameTable()
  {
    m := map[];
    m := InsertAll(m, TextKeys, "Texts");
    OverwriteIsUnion(map[], TextKeys, "Texts");
    StepTexts();
    m := InsertAll(m, TabularKeys, "Tables");
    OverwriteIsUnion(AfterTexts(), TabularKeys, "Tables");
    StepTables();
    m := InsertAll(m, PptKeys, "Presentations");
    OverwriteIsUnion(AfterTables(), PptKeys, "Presentations");
    StepPresentations();
    m := InsertAll(m, ImageKeys, "Images");
    OverwriteIsUnion(AfterPresentations(), ImageKeys, "Images");
    StepImages();
    m := InsertAll(m, VideoKeys, "Videos");
    OverwriteIsUnion(AfterImages(), VideoKeys, "Videos");
    StepVideos();
    m := InsertAll(m, AudioKeys, "Audios");
    OverwriteIsUnion(AfterVideos(), AudioKeys, "Audios");
    StepAudios();
    NameTableIsExpected();
  }

  /** A key that no group lists keeps its value from the starting map (or stays absent). */
  lemma {:induction false} BuildUntouched(m: map<string, string>, gs: seq<Group>, k: string)
    requires forall j :: 0 <= j < |gs| ==> k !in gs[j].keys
    ensures k in Build(m, gs) <==> k in m
    ensures k in m ==> Build(m, gs)[k] == m[k]
    decreases |gs|
  {
    if gs != [] {
      BuildUntouched(Overwrite(m, gs[0].keys, gs[0].category), gs[1..], k);
    }
  }

  /** Last write wins: a key ends up with the category of the LAST group that lists it. */
  lemma {:induction false} BuildLastWriteWins(m: map<string, string>, gs: seq<Group>, k: string, i: nat)
    requires i < |gs| && k in gs[i].keys
    requires forall j :: i < j < |gs| ==> k !in gs[j].keys
    ensures k in Build(m, gs) && Build(m, gs)[k] == gs[i].category
    decreases |gs|
  {
    var m' := Overwrite(m, gs[0].keys, gs[0].category);
    if i == 0 {
      BuildUntouched(m', gs[1..], k);
    } else {
      BuildLastWriteWins(m', gs[1..], k, i - 1);
    }
  }

  /** The keys of the built table are the starting keys and the keys some group lists. */
  lemma {:induction false} BuildKeys(m: map<string, string>, gs: seq<Group>, k: string)
    ensures k in Build(m, gs) <==> k in m || exists j :: 0 <= j < |gs| && k in gs[j].keys
    decreases |gs|
  {
    if gs != [] {
      var m' := Overwrite(m, gs[0].keys, gs[0].category);
      BuildKeys(m', gs[1..], k);
      if k in gs[0].keys {
        assert k in m';
      }
      if exists j :: 0 <= j < |gs[1..]| && k in gs[1..][j].keys {
        var j :| 0 <= j < |gs[1..]| && k in gs[1..][j].keys;
        assert k in gs[j + 1].keys;
      }
      if exists j :: 0 <= j < |gs| && k in gs[j].keys {
        var j :| 0 <= j < |gs| && k in gs[j].keys;
        if j > 0 {
          assert k in gs[1..][j - 1].keys;
        }
      }
    }
  }

  /** The table written out: 22 keys, with "ODT" under "Tables" (its later list). */
  function ExpectedTable(): map<string, string> {
    map[
      "TXT" := "Texts", "DOC" := "Texts", "DOCX" := "Texts",
      "CSV" := "Tables", "ODT" := "Tables", "XLS" := "Tables", "XLSX" := "Tables",
      "PPT" := "Presentations", "PPTX" := "Presentations", "ODP" := "Presentations",
      "JPG" := "Images", "JPEG" := "Images", "PNG" := "Images", "TIFF" := "Images", "BMP" := "Images",
      "MP4" := "Videos", "MOV" := "Videos", "AVI" := "Videos", "WMV" := "Videos",
      "WAV" := "Audios", "MP3" := "Audios", "FLAC" := "Audios"
    ]
  }

  /** The table after the text loop. */
  function AfterTexts(): map<string, string> {
    map["TXT" := "Texts", "DOC" := "Texts", "DOCX" := "Texts", "ODT" := "Texts"]
  }

  /** The table after the tabular loop: "ODT" is overwritten. */
  function AfterTables(): map<string, string> {
    map["TXT" := "Texts", "DOC" := "Texts", "DOCX" := "Texts",
        "CSV" := "Tables", "ODT" := "Tables", "XLS" := "Tables", "XLSX" := "Tables"]
  }

  /** The table after the presentation loop. */
  function AfterPresentations(): map<string, string> {
    AfterTables()["PPT" := "Presentations"]["PPTX" := "Presentations"]["ODP" := "Presentations"]
  }

  /** The table after the image loop. */
  function AfterImages(): map<string, string> {
    AfterPresentations()["JPG" := "Images"]["JPEG" := "Images"]["PNG" := "Images"]["TIFF" := "Images"]["BMP" := "Images"]
  }

  /** The table after the video loop. */
  function AfterVideos(): map<string, string> {
    AfterImages()["MP4" := "Videos"]["MOV" := "Videos"]["AVI" := "Videos"]["WMV" := "Videos"]
  }

  lemma StepTexts()
    ensures map[] + (map k | k in TextKeys :: "Texts") == AfterTexts()
  {
  }

  lemma StepTables()
    ensures AfterTexts() + (map k | k in TabularKeys :: "Tables") == AfterTables()
  {
  }

  lemma StepPresentations()
    ensures AfterTables() + (map k | k in PptKeys :: "Presentations") == AfterPresentations()
  {
  }

  lemma StepImages()
    ensures AfterPresentations() + (map k | k in ImageKeys :: "Images") == AfterImages()
  {
  }

  lemma StepVideos()
    ensures AfterImages() + (map k | k in VideoKeys :: "Videos") == AfterVideos()
  {
  }

  lemma StepAudios()
    ensures AfterVideos() + (map k | k in AudioKeys :: "Audios") == ExpectedTable()
  {
  }

  /** `get_name_map` builds exactly the written-out table. */
  lemma NameTableIsExpected()
    ensures NameTable() == ExpectedTable()
  {
    BuildTexts();
    BuildTables();
    BuildPresentations();
    BuildImages();
    BuildVideos();
    BuildAudios();
  }

  /** One insert loop of a build, given the map it leaves. */
  lemma BuildStep(m: map<string, string>, gs: seq<Group>, m': map<string, string>)
    requires gs != [] && m + (map k | k in gs[0].keys :: gs[0].category) == m'
    ensures Build(m, gs) == Build(m', gs[1..])
  {
    OverwriteIsUnion(m, gs[0].keys, gs[0].category);
  }

  lemma BuildTexts()
    ensures Build(map[], Groups) == Build(AfterTexts(), Groups[1..])
  {
    StepTexts();
    BuildStep(map[], Groups, AfterTexts());
  }

  lemma BuildTables()
    ensures Build(AfterTexts(), Groups[1..]) == Build(AfterTables(), Groups[2..])
  {
    StepTables();
    assert Groups[1..][0] == Groups[1] && Groups[1..][1..] == Groups[2..];
    BuildStep(AfterTexts(), Groups[1..], AfterTables());
  }

  lemma BuildPresentations()
    ensures Build(AfterTables(), Groups[2..]) == Build(AfterPresentations(), Groups[3..])
  {
    StepPresentations();
    assert Groups[2..][0] == Groups[2] && Groups[2..][1..] == Groups[3..];
    BuildStep(AfterTables(), Groups[2..], AfterPresentations());
  }

  lemma BuildImages()
    ensures Build(AfterPresentations(), Groups[3..]) == Build(AfterImages(), Groups[4..])
  {
    StepImages();
    assert Groups[3..][0] == Groups[3] && Groups[3..][1..] == Groups[4..];
    BuildStep(AfterPresentations(), Groups[3..], AfterImages());
  }

  lemma BuildVideos()
    ensures Build(AfterImages(), Groups[4..]) == Build(AfterVideos(), Groups[5..])
  {
    StepVideos();
    assert Groups[4..][0] == Groups[4] && Groups[4..][1..] == Groups[5..];
    BuildStep(AfterImages(), Groups[4..], AfterVideos());
  }

  lemma BuildAudios()
    ensures Build(AfterVideos(), Groups[5..]) == ExpectedTable()
  {
    StepAudios();
    assert Groups[5..][0] == Groups[5] && Groups[5..][1..] == Groups[6..];
    BuildStep(AfterVideos(), Groups[5..], ExpectedTable());
  }

  /** The keys of the table, listed once each. */
  const TableKeys: set<string> := {
    "TXT", "DOC", "DOCX", "CSV", "ODT", "XLS", "XLSX", "PPT", "PPTX", "ODP", "JPG",
    "JPEG", "PNG", "TIFF", "BMP", "MP4", "MOV", "AVI", "WMV", "WAV", "MP3", "FLAC"
  }

  /** The six category names. */
  const Categories: set<string> := {"Texts", "Tables", "Presentations", "Images", "Videos", "Audios"}

  lemma ExpectedTableShape()
    ensures ExpectedTable().Keys == TableKeys
    ensures forall k :: k in ExpectedTable() ==> ExpectedTable()[k] in Categories
  {
  }

  /** The first seven keys (texts and tables) are distinct. */
  lemma CountDocumentKeys()
    ensures |{"TXT", "DOC", "DOCX", "CSV", "ODT", "XLS", "XLSX"}| == 7
  {
  }

  /** The next eight keys (presentations and images) are distinct. */
  lemma CountPictureKeys()
    ensures |{"PPT", "PPTX", "ODP", "JPG", "JPEG", "PNG", "TIFF", "BMP"}| == 8
  {
  }

  /** The last seven keys (videos and audios) are distinct. */
  lemma CountMediaKeys()
    ensures |{"MP4", "MOV", "AVI", "WMV", "WAV", "MP3", "FLAC"}| == 7
  {
  }

  /** No key is listed in two of the three blocks above. */
  lemma KeyBlocksDisjoint()
    ensures {"TXT", "DOC", "DOCX", "CSV", "ODT", "XLS", "XLSX"} !! {"PPT", "PPTX", "ODP", "JPG", "JPEG", "PNG", "TIFF", "BMP"}
    ensures ({"TXT", "DOC", "DOCX", "CSV", "ODT", "XLS", "XLSX"} + {"PPT", "PPTX", "ODP", "JPG", "JPEG", "PNG", "TIFF", "BMP"}) !! {"MP4", "MOV", "AVI", "WMV", "WAV", "MP3", "FLAC"}
  {
  }

  /** The 22 listed keys are distinct. */
  lemma TableKeysCount()
    ensures |TableKeys| == 22
  {
    CountDocumentKeys();
    CountPictureKeys();
    CountMediaKeys();
    KeyBlocksDisjoint();
    var a, b, c := {"TXT", "DOC", "DOCX", "CSV", "ODT", "XLS", "XLSX"}, {"PPT", "PPTX", "ODP", "JPG", "JPEG", "PNG", "TIFF", "BMP"}, {"MP4", "MOV", "AVI", "WMV", "WAV", "MP3", "FLAC"};
    assert TableKeys == a + b + c;
    assert |a + b| == 15;
  }

  /** `get_name_map` holds exactly the 22 distinct listed keys. */
  lemma NameTableKeys()
    ensures NameTable().Keys == TableKeys
    ensures |NameTable().Keys| == 22
  {
    NameTableIsExpected();
    ExpectedTableShape();
    TableKeysCount();
  }

  /** "ODT" is listed under texts and then under tables; the later insert wins. */
  lemma NameTableOdt()
    ensures "ODT" in NameTable() && NameTable()["ODT"] == "Tables"
  {
    assert "ODT" in Groups[1].keys;
    assert forall j :: 1 < j < |Groups| ==> "ODT" !in Groups[j].keys;
    BuildLastWriteWins(map[], Groups, "ODT", 1);
  }

  /** "JPG" is listed only under images. */
  lemma NameTableJpg()
    ensures "JPG" in NameTable() && NameTable()["JPG"] == "Images"
  {
    assert "JPG" in Groups[3].keys;
    assert forall j :: 3 < j < |Groups| ==> "JPG" !in Groups[j].keys;
    BuildLastWriteWins(map[], Groups, "JPG", 3);
  }

  /** Every value of the table is one of the six category names. */
  lemma NameTableCategories()
    ensures forall k :: k in NameTable() ==> NameTable()[k] in Categories
  {
    NameTableIsExpected();
    ExpectedTableShape();
  }

  /** A key that none of the six lists names is not in the table. */
  lemma NameTableUnlisted(k: string)
    requires k !in TextKeys && k !in TabularKeys && k !in PptKeys
    requires k !in ImageKeys && k !in VideoKeys && k !in AudioKeys
    ensures k !in NameTable()
  {
    BuildUntouched(map[], Groups, k);
  }

  /** "INI" is not a key of the table. */
  lemma NameTableNoIniKey()
    ensures "INI" !in NameTable()
  {
    NameTableUnlisted("INI");
  }

  /** "INI" is not a value of the table. */
  lemma NameTableNoIniValue()
    ensures "INI" !in NameTable().Values
  {
    NameTableCategories();
  }

  /** The category of an extension: the table's entry for its upper-cased form,
      or the upper-cased form itself when the table has none. */
  function Classify(table: map<string, string>, ext: string): (r: string)
    ensures r in table.Values || r == Upper(ext)
    ensures Upper(ext) in table ==> r == table[Upper(ext)]
    ensures Upper(ext) !in table ==> r == Upper(ext)
  {
    var key := Upper(ext);
    if key in table then table[key] else key
  }

  /** With the real table, the category is one of the six names exactly when the
      extension is a listed key; any other extension yields a name no category has. */
  lemma ClassifyCategoryIff(ext: string)
    ensures Classify(NameTable(), ext) in Categories <==> Upper(ext) in TableKeys
  {
    NameTableKeys();
    NameTableCategories();
    ClassifyInCategories(NameTable(), ext);
  }

  /** The same for any table with the listed keys and category values. */
  lemma ClassifyInCategories(table: map<string, string>, ext: string)
    requires table.Keys == TableKeys
    requires forall k :: k in table ==> table[k] in Categories
    ensures Classify(table, ext) in Categories <==> Upper(ext) in TableKeys
  {
    if Upper(ext) !in table && Upper(ext) in Categories {
      assert forall c :: c in Categories ==> |c| >= 2 && 'a' <= c[1] <= 'z';
      UpperHasNoLower(ext, 1);
      assert false;
    }
  }

  /** Classification ignores ASCII case. */
  lemma ClassifyCaseInsensitive(table: map<string, string>, a: string, b: string)
    requires Upper(a) == Upper(b)
    ensures Classify(table, a) == Classify(table, b)
  {
  }

  /** With the real table, a category is "INI" exactly for the extension "ini" in any case. */
  lemma ClassifyIniIff(ext: string)
    ensures Classify(NameTable(), ext) == "INI" <==> Upper(ext) == "INI"
  {
    NameTableNoIniKey();
    NameTableNoIniValue();
    if Upper(ext) in NameTable() {
      assert NameTable()[Upper(ext)] in NameTable().Values;
    }
  }

  /** "jpg", "JPG" and "Jpg" are all images. */
  lemma ClassifyImageExamples()
    ensures Classify(NameTable(), "jpg") == "Images"
    ensures Classify(NameTable(), "JPG") == "Images"
    ensures Classify(NameTable(), "Jpg") == "Images"
  {
    NameTableJpg();
    assert Upper("jpg") == "JPG";
    assert Upper("JPG") == "JPG";
    assert Upper("Jpg") == "JPG";
  }

  /** The unknown extension "xyz" passes through, upper-cased. */
  lemma ClassifyUnknownExample()
    ensures Classify(NameTable(), "xyz") == "XYZ"
  {
    NameTableUnlisted("XYZ");
    assert Upper("xyz") == "XYZ";
  }

  /** "odt", listed twice, classifies as a table. */
  lemma ClassifyOdtExample()
    ensures Classify(NameTable(), "odt") == "Tables"
  {
    NameTableOdt();
    assert Upper("odt") == "ODT";
  }
}
