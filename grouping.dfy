/**
 The main loop: for each (stage, short code) pair it looks up the stage's
 spreadsheet export by project name and files every project file's rows in
 `sorted_data[basename][stage]`, creating `sorted_data[basename]` the first
 time a basename is seen.
 */
module Grouping {
  import opened Wrappers
  import opened Constants
  import opened Basename

  /** One spreadsheet row; its cells are opaque to the grouping. */
  datatype Row = Row(cells: seq<string>)

  /** One per-file sheet of an export; its first row holds the column labels. */
  datatype Sheet = Sheet(rows: seq<Row>)

  /** An entry of the export's master sheet: the file's index and its on-disk name. */
  datatype ProjFile = ProjFile(idx: nat, fname: string)

  /** A stage's bundle: the project files in master-sheet order and the sheets by file index. */
  datatype Export = Export(files: seq<ProjFile>, sheets: map<nat, Sheet>)

  /** The exceptions that abort the run. */
  datatype Error =
    | NoExport(projName: string)  // no bundle found for the project
    | NoSheet(idx: nat)           // the bundle has no sheet for a file index
    | EmptySheet(idx: nat)        // the sheet has no label row

  /** What one project file contributes: its basename and its data rows. */
  datatype Entry = Entry(basename: string, rows: seq<Row>)

  /** `sorted_data`: basename to stage to rows. */
  type SortedData = map<string, map<string, seq<Row>>>

  /** `sorted_data[b][stage]` when both keys are present. */
  function Get(sd: SortedData, b: string, stage: string): Option<seq<Row>>
  {
    if b in sd && stage in sd[b] then Some(sd[b][stage]) else None
  }

  /** The rows filed for one project file, or the error its lookup raises. */
  function FileEntry(f: ProjFile, sheets: map<nat, Sheet>, rule: BasenameRule, stageShort: string, locale: string)
    : (r: Result<Entry, Error>)
    ensures r.Ok? <==> f.idx in sheets && |sheets[f.idx].rows| > 0
    ensures r.Err? ==> r.error == if f.idx !in sheets then NoSheet(f.idx) else EmptySheet(f.idx)
    ensures r.Ok? ==> r.value.basename == DeriveBasename(rule, f.fname, stageShort, locale)
    ensures r.Ok? ==> [sheets[f.idx].rows[0]] + r.value.rows == sheets[f.idx].rows
  {
    if f.idx !in sheets then Err(NoSheet(f.idx))
    else if |sheets[f.idx].rows| == 0 then Err(EmptySheet(f.idx))
    else Ok(Entry(DeriveBasename(rule, f.fname, stageShort, locale), sheets[f.idx].rows[1..]))
  }

  /** The entries of a stage's files in order, or the first file's error. */
  function StageEntries(files: seq<ProjFile>, sheets: map<nat, Sheet>, rule: BasenameRule, stageShort: string, locale: string)
    : Result<seq<Entry>, Error>
  {
    if files == [] then Ok([])
    else
      match StageEntries(files[..|files| - 1], sheets, rule, stageShort, locale)
      case Err(e) => Err(e)
      case Ok(es) =>
        match FileEntry(files[|files| - 1], sheets, rule, stageShort, locale)
        case Err(e) => Err(e)
        case Ok(entry) => Ok(es + [entry])
  }

  /** A stage's entries, or the error of a missing bundle or of one of its files. */
  function StageResult(locale: string, rule: BasenameRule, pair: (string, string), exports: map<string, Export>)
    : (r: Result<seq<Entry>, Error>)
    ensures (r.Err? && r.error.NoExport?) <==> ProjName(pair.0, locale) !in exports
  {
    var name := ProjName(pair.0, locale);
    if name !in exports then Err(NoExport(name))
    else
      StageEntriesFirstError(exports[name].files, exports[name].sheets, rule, pair.1, locale);
      StageEntries(exports[name].files, exports[name].sheets, rule, pair.1, locale)
  }

  /** One update: create the basename's map if absent, then set its entry for `stage`. */
  function Insert(sd: SortedData, stage: string, e: Entry): (r: SortedData)
  {
    var inner := if e.basename in sd then sd[e.basename] else map[];
    sd[e.basename := inner[stage := e.rows]]
  }

  /**
   One update sets `sorted_data[b][stage]` for the entry's basename `b`,
   makes `b` a key, and changes no other basename or stage.
   */
  lemma InsertFrame(sd: SortedData, stage: string, e: Entry)
    ensures Insert(sd, stage, e).Keys == sd.Keys + {e.basename}
    ensures Get(Insert(sd, stage, e), e.basename, stage) == Some(e.rows)
    ensures forall b, st :: (b != e.basename || st != stage) ==> Get(Insert(sd, stage, e), b, st) == Get(sd, b, st)
  {
  }

  /** The updates of one stage's entries, in order. */
  function InsertAll(sd: SortedData, stage: string, es: seq<Entry>): SortedData
  {
    if es == [] then sd else Insert(InsertAll(sd, stage, es[..|es| - 1]), stage, es[|es| - 1])
  }

  /** The whole loop over the stage pairs, or the first error raised. */
  function Build(locale: string, rule: BasenameRule, pairs: seq<(string, string)>, exports: map<string, Export>)
    : Result<SortedData, Error>
  {
    if pairs == [] then Ok(map[])
    else
      match Build(locale, rule, pairs[..|pairs| - 1], exports)
      case Err(e) => Err(e)
      case Ok(sd) =>
        match StageResult(locale, rule, pairs[|pairs| - 1], exports)
        case Err(e) => Err(e)
        case Ok(es) => Ok(InsertAll(sd, pairs[|pairs| - 1].0, es))
  }

  /** Reference definition: the rows of the last entry with basename `b`, if any. */
  function LastRows(es: seq<Entry>, b: string): (r: Option<seq<Row>>)
    ensures r.None? <==> forall i :: 0 <= i < |es| ==> es[i].basename != b
    ensures r.Some? ==> exists i :: 0 <= i < |es| && es[i].basename == b && es[i].rows == r.value
                                    && forall j :: i < j < |es| ==> es[j].basename != b
  {
    if es == [] then None
    else if es[|es| - 1].basename == b then Some(es[|es| - 1].rows)
    else LastRows(es[..|es| - 1], b)
  }

  /** Entry by entry, a successful stage holds its files' entries; it succeeds when every file does. */
  lemma {:induction false} StageEntriesPointwise(files: seq<ProjFile>, sheets: map<nat, Sheet>, rule: BasenameRule, stageShort: string, locale: string)
    ensures var r := StageEntries(files, sheets, rule, stageShort, locale);
            r.Ok? ==> |r.value| == |files| && forall i :: 0 <= i < |files| ==> FileEntry(files[i], sheets, rule, stageShort, locale) == Ok(r.value[i])
    ensures (forall i :: 0 <= i < |files| ==> FileEntry(files[i], sheets, rule, stageShort, locale).Ok?) ==>
              StageEntries(files, sheets, rule, stageShort, locale).Ok?
  {
    if files != [] {
      var init := files[..|files| - 1];
      StageEntriesPointwise(init, sheets, rule, stageShort, locale);
      assert forall i :: 0 <= i < |init| ==> init[i] == files[i];
    }
  }

  /** A failing stage fails with the error of its first failing file. */
  lemma {:induction false} StageEntriesFirstError(files: seq<ProjFile>, sheets: map<nat, Sheet>, rule: BasenameRule, stageShort: string, locale: string)
    ensures var r := StageEntries(files, sheets, rule, stageShort, locale);
            r.Err? ==> exists i :: 0 <= i < |files| && FileEntry(files[i], sheets, rule, stageShort, locale) == Err(r.error)
                                  && forall j :: 0 <= j < i ==> FileEntry(files[j], sheets, rule, stageShort, locale).Ok?
  {
    if files != [] {
      var init := files[..|files| - 1];
      StageEntriesFirstError(init, sheets, rule, stageShort, locale);
      StageEntriesPointwise(init, sheets, rule, stageShort, locale);
      assert forall i :: 0 <= i < |init| ==> init[i] == files[i];
    }
  }

  /**
   A stage's files yield entries exactly when every file has a non-empty
   sheet; the entries are the files' basenames and data rows in order, and
   otherwise the error is that of the first failing file.
   */
  lemma StageEntriesSpec(files: seq<ProjFile>, sheets: map<nat, Sheet>, rule: BasenameRule, stageShort: string, locale: string)
    ensures var r := StageEntries(files, sheets, rule, stageShort, locale);
            r.Ok? <==> forall i :: 0 <= i < |files| ==> files[i].idx in sheets && |sheets[files[i].idx].rows| > 0
    ensures var r := StageEntries(files, sheets, rule, stageShort, locale);
            r.Ok? ==> |r.value| == |files| && forall i :: 0 <= i < |files| ==>
              r.value[i] == Entry(DeriveBasename(rule, files[i].fname, stageShort, locale), sheets[files[i].idx].rows[1..])
    ensures var r := StageEntries(files, sheets, rule, stageShort, locale);
            r.Err? ==> exists i :: 0 <= i < |files| && FileEntry(files[i], sheets, rule, stageShort, locale) == Err(r.error)
                                  && forall j :: 0 <= j < i ==> FileEntry(files[j], sheets, rule, stageShort, locale).Ok?
  {
    StageEntriesPointwise(files, sheets, rule, stageShort, locale);
    StageEntriesFirstError(files, sheets, rule, stageShort, locale);
  }

  /** A stage whose files succeed up to `j` and fail at `j` fails with that file's error. */
  lemma StageEntriesFailAt(files: seq<ProjFile>, sheets: map<nat, Sheet>, rule: BasenameRule, stageShort: string, locale: string, j: nat)
    requires j < |files|
    requires StageEntries(files[..j], sheets, rule, stageShort, locale).Ok?
    requires FileEntry(files[j], sheets, rule, stageShort, locale).Err?
    ensures StageEntries(files, sheets, rule, stageShort, locale) == Err(FileEntry(files[j], sheets, rule, stageShort, locale).error)
  {
    StageEntriesSpec(files, sheets, rule, stageShort, locale);
    StageEntriesSpec(files[..j], sheets, rule, stageShort, locale);
    assert forall k :: 0 <= k < j ==> files[..j][k] == files[k];
  }

  /** A stage's entries grow by one file's entry at a time. */
  lemma StageEntriesSnoc(files: seq<ProjFile>, sheets: map<nat, Sheet>, rule: BasenameRule, stageShort: string, locale: string,
                         j: nat, es: seq<Entry>)
    requires j < |files|
    requires StageEntries(files[..j], sheets, rule, stageShort, locale) == Ok(es)
    requires FileEntry(files[j], sheets, rule, stageShort, locale).Ok?
    ensures StageEntries(files[..j + 1], sheets, rule, stageShort, locale)
              == Ok(es + [FileEntry(files[j], sheets, rule, stageShort, locale).value])
  {
    assert files[..j + 1][..j] == files[..j];
  }

  /** The source's two-step update of `sorted_data` is one `Insert`. */
  lemma CreateThenSet(prev: SortedData, stage: string, b: string, rows: seq<Row>)
    ensures var created := if b in prev then prev else prev[b := map[]];
            created[b := created[b][stage := rows]] == Insert(prev, stage, Entry(b, rows))
  {
  }

  /** Filing one more file extends both the stage's entries and the updates applied so far. */
  lemma FileStageStep(files: seq<ProjFile>, sheets: map<nat, Sheet>, rule: BasenameRule, stageShort: string, locale: string,
                      sd0: SortedData, stage: string, j: nat, entries: seq<Entry>)
    requires j < |files|
    requires StageEntries(files[..j], sheets, rule, stageShort, locale) == Ok(entries)
    requires FileEntry(files[j], sheets, rule, stageShort, locale).Ok?
    ensures var e := FileEntry(files[j], sheets, rule, stageShort, locale).value;
            && StageEntries(files[..j + 1], sheets, rule, stageShort, locale) == Ok(entries + [e])
            && InsertAll(sd0, stage, entries + [e]) == Insert(InsertAll(sd0, stage, entries), stage, e)
  {
    var e := FileEntry(files[j], sheets, rule, stageShort, locale).value;
    StageEntriesSnoc(files, sheets, rule, stageShort, locale, j, entries);
    assert (entries + [e])[..|entries|] == entries;
  }

  /** After a stage's updates, only that stage's entries have changed: each holds the last matching file's rows. */
  lemma {:induction false} InsertAllAt(sd: SortedData, stage: string, es: seq<Entry>, b: string, st: string)
    ensures b in InsertAll(sd, stage, es) <==> b in sd || LastRows(es, b).Some?
    ensures Get(InsertAll(sd, stage, es), b, st) ==
              if st == stage && LastRows(es, b).Some? then LastRows(es, b) else Get(sd, b, st)
  {
    if es != [] {
      InsertAllAt(sd, stage, es[..|es| - 1], b, st);
      InsertFrame(InsertAll(sd, stage, es[..|es| - 1]), stage, es[|es| - 1]);
    }
  }

  /** Once a stage pair fails, the whole loop fails with that error. */
  lemma {:induction false} BuildErrPersists(locale: string, rule: BasenameRule, pairs: seq<(string, string)>, exports: map<string, Export>, k: nat)
    requires k <= |pairs|
    requires Build(locale, rule, pairs[..k], exports).Err?
    ensures Build(locale, rule, pairs, exports) == Build(locale, rule, pairs[..k], exports)
    decreases |pairs| - k
  {
    if k < |pairs| {
      var init := pairs[..|pairs| - 1];
      assert init[..k] == pairs[..k];
      BuildErrPersists(locale, rule, init, exports, k);
    } else {
      assert pairs[..k] == pairs;
    }
  }

  /** Processing pair `i` after a successful prefix extends the prefix's result. */
  lemma BuildStep(locale: string, rule: BasenameRule, pairs: seq<(string, string)>, exports: map<string, Export>, i: nat, sd: SortedData)
    requires i < |pairs|
    requires Build(locale, rule, pairs[..i], exports) == Ok(sd)
    ensures StageResult(locale, rule, pairs[i], exports).Err? ==>
              Build(locale, rule, pairs, exports) == Err(StageResult(locale, rule, pairs[i], exports).error)
    ensures StageResult(locale, rule, pairs[i], exports).Ok? ==>
              Build(locale, rule, pairs[..i + 1], exports) == Ok(InsertAll(sd, pairs[i].0, StageResult(locale, rule, pairs[i], exports).value))
  {
    assert pairs[..i + 1][..i] == pairs[..i];
    if StageResult(locale, rule, pairs[i], exports).Err? {
      BuildErrPersists(locale, rule, pairs, exports, i + 1);
    }
  }

  /** The loop succeeds exactly when every stage pair yields its entries. */
  lemma {:induction false} BuildOk(locale: string, rule: BasenameRule, pairs: seq<(string, string)>, exports: map<string, Export>)
    ensures Build(locale, rule, pairs, exports).Ok? <==>
              forall s :: 0 <= s < |pairs| ==> StageResult(locale, rule, pairs[s], exports).Ok?
  {
    if pairs != [] {
      var init := pairs[..|pairs| - 1];
      BuildOk(locale, rule, init, exports);
      assert forall s :: 0 <= s < |init| ==> init[s] == pairs[s];
    }
  }

  /** A stage name that no pair carries has no entry anywhere. */
  lemma {:induction false} BuildNoOtherStage(locale: string, rule: BasenameRule, pairs: seq<(string, string)>, exports: map<string, Export>, sd: SortedData, b: string, st: string)
    requires Build(locale, rule, pairs, exports) == Ok(sd)
    requires forall s :: 0 <= s < |pairs| ==> pairs[s].0 != st
    ensures Get(sd, b, st) == None
  {
    if pairs != [] {
      var init := pairs[..|pairs| - 1];
      var sd' := Build(locale, rule, init, exports).value;
      assert forall s :: 0 <= s < |init| ==> init[s] == pairs[s];
      BuildNoOtherStage(locale, rule, init, exports, sd', b, st);
      InsertAllAt(sd', pairs[|pairs| - 1].0, StageResult(locale, rule, pairs[|pairs| - 1], exports).value, b, st);
    }
  }

  /**
   When stage names are distinct, `sorted_data[b][stage]` holds the rows of
   the last file of that stage whose basename is `b`, and is absent when no
   file of the stage has that basename; later stages leave it alone.
   */
  lemma {:induction false} BuildStageAt(locale: string, rule: BasenameRule, pairs: seq<(string, string)>, exports: map<string, Export>, sd: SortedData, s: nat, b: string)
    requires Build(locale, rule, pairs, exports) == Ok(sd)
    requires s < |pairs|
    requires forall t :: 0 <= t < |pairs| && t != s ==> pairs[t].0 != pairs[s].0
    ensures StageResult(locale, rule, pairs[s], exports).Ok?
    ensures Get(sd, b, pairs[s].0) == LastRows(StageResult(locale, rule, pairs[s], exports).value, b)
  {
    var n := |pairs|;
    var init := pairs[..n - 1];
    var sd' := Build(locale, rule, init, exports).value;
    assert Build(locale, rule, init, exports).Ok? && StageResult(locale, rule, pairs[n - 1], exports).Ok?;
    var es := StageResult(locale, rule, pairs[n - 1], exports).value;
    assert sd == InsertAll(sd', pairs[n - 1].0, es);
    assert forall t :: 0 <= t < |init| ==> init[t] == pairs[t];
    InsertAllAt(sd', pairs[n - 1].0, es, b, pairs[s].0);
    if s == n - 1 {
      BuildNoOtherStage(locale, rule, init, exports, sd', b, pairs[s].0);
    } else {
      BuildStageAt(locale, rule, init, exports, sd', s, b);
    }
  }

  /** The stage succeeds and some file of it has basename `b`. */
  ghost predicate StageHasBasename(locale: string, rule: BasenameRule, pair: (string, string), exports: map<string, Export>, b: string)
  {
    var r := StageResult(locale, rule, pair, exports);
    r.Ok? && exists i :: 0 <= i < |r.value| && r.value[i].basename == b
  }

  /** The keys of `sorted_data` are exactly the basenames of the files of all stages. */
  lemma {:induction false} BuildKeys(locale: string, rule: BasenameRule, pairs: seq<(string, string)>, exports: map<string, Export>, sd: SortedData, b: string)
    requires Build(locale, rule, pairs, exports) == Ok(sd)
    ensures b in sd <==> exists s :: 0 <= s < |pairs| && StageHasBasename(locale, rule, pairs[s], exports, b)
  {
    if pairs != [] {
      var n := |pairs|;
      var init := pairs[..n - 1];
      var sd' := Build(locale, rule, init, exports).value;
      var es := StageResult(locale, rule, pairs[n - 1], exports).value;
      BuildKeys(locale, rule, init, exports, sd', b);
      InsertAllAt(sd', pairs[n - 1].0, es, b, "");
      assert b in sd <==> b in sd' || StageHasBasename(locale, rule, pairs[n - 1], exports, b);
      if b in sd' {
        var s :| 0 <= s < |init| && StageHasBasename(locale, rule, init[s], exports, b);
        assert init[s] == pairs[s];
      }
      if b !in sd {
        forall s | 0 <= s < n ensures !StageHasBasename(locale, rule, pairs[s], exports, b) {
          if s < n - 1 {
            assert init[s] == pairs[s];
          }
        }
      }
    }
  }

  /** The basename derived from every listed file of every stage is a key of `sorted_data`. */
  lemma FileBasenameIsKey(locale: string, rule: BasenameRule, pairs: seq<(string, string)>, exports: map<string, Export>, sd: SortedData, s: nat, i: nat)
    requires Build(locale, rule, pairs, exports) == Ok(sd)
    requires s < |pairs|
    ensures ProjName(pairs[s].0, locale) in exports
    ensures var bundle := exports[ProjName(pairs[s].0, locale)];
            i < |bundle.files| ==> DeriveBasename(rule, bundle.files[i].fname, pairs[s].1, locale) in sd
  {
    BuildOk(locale, rule, pairs, exports);
    var name := ProjName(pairs[s].0, locale);
    assert StageResult(locale, rule, pairs[s], exports).Ok?;
    var bundle := exports[name];
    if i < |bundle.files| {
      StageEntriesSpec(bundle.files, bundle.sheets, rule, pairs[s].1, locale);
      var b := DeriveBasename(rule, bundle.files[i].fname, pairs[s].1, locale);
      assert StageHasBasename(locale, rule, pairs[s], exports, b);
      BuildKeys(locale, rule, pairs, exports, sd, b);
    }
  }

  /**
   For the source's two stages, the field-trial rows filed under a basename
   survive the main-study pass, and each stage's entry is that stage's last
   file with the basename.
   */
  lemma FieldTrialSurvivesMainStudy(locale: string, rule: BasenameRule, exports: map<string, Export>, sd: SortedData, b: string)
    requires Build(locale, rule, StagePairs(), exports) == Ok(sd)
    ensures StageResult(locale, rule, ("2021FT", "FT21"), exports).Ok?
    ensures StageResult(locale, rule, ("2022MS", "MS22"), exports).Ok?
    ensures Get(sd, b, "2021FT") == LastRows(StageResult(locale, rule, ("2021FT", "FT21"), exports).value, b)
    ensures Get(sd, b, "2022MS") == LastRows(StageResult(locale, rule, ("2022MS", "MS22"), exports).value, b)
  {
    StagePairsValue();
    BuildStageAt(locale, rule, StagePairs(), exports, sd, 0, b);
    BuildStageAt(locale, rule, StagePairs(), exports, sd, 1, b);
  }

  /** When no two entries share a basename, each entry's rows are the last ones for its basename. */
  lemma LastRowsDistinct(es: seq<Entry>, i: nat)
    requires forall k, l :: 0 <= k < l < |es| ==> es[k].basename != es[l].basename
    requires i < |es|
    ensures LastRows(es, es[i].basename) == Some(es[i].rows)
  {
  }

  /**
   With the intended basename rule, files named `<name><suffix>` with
   distinct names each keep their own rows: nothing is overwritten.
   */
  lemma SuffixRemovalKeepsEveryFile(files: seq<ProjFile>, sheets: map<nat, Sheet>, stageShort: string, locale: string,
                                    names: seq<string>, sd: SortedData, stage: string, es: seq<Entry>, i: nat)
    requires |names| == |files|
    requires forall k :: 0 <= k < |files| ==> files[k].fname == names[k] + Suffix(stageShort, locale)
    requires forall k, l :: 0 <= k < l < |names| ==> names[k] != names[l]
    requires StageEntries(files, sheets, SuffixRemoval, stageShort, locale) == Ok(es)
    requires i < |files|
    ensures files[i].idx in sheets && |sheets[files[i].idx].rows| > 0
    ensures Get(InsertAll(sd, stage, es), names[i], stage) == Some(sheets[files[i].idx].rows[1..])
  {
    StageEntriesPointwise(files, sheets, SuffixRemoval, stageShort, locale);
    forall k | 0 <= k < |es| ensures es[k].basename == names[k] {
      assert FileEntry(files[k], sheets, SuffixRemoval, stageShort, locale) == Ok(es[k]);
      SuffixRemovalRecoversName(names[k], stageShort, locale);
    }
    assert FileEntry(files[i], sheets, SuffixRemoval, stageShort, locale) == Ok(es[i]);
    LastRowsDistinct(es, i);
    InsertAllAt(sd, stage, es, names[i], stage);
  }

  /**
   With the source's basename rule, `Q1_FT21_ara.xlf` and `Q2_FT21_ara.xlf`
   are filed under the same key `Q`, and the rows of `Q1` are overwritten.
   */
  lemma CharSetStripLosesRows(h: Row, r1: Row, r2: Row)
    ensures var files: seq<ProjFile> := [ProjFile(1, "Q1_FT21_ara.xlf"), ProjFile(2, "Q2_FT21_ara.xlf")];
            var sheets: map<nat, Sheet> := map[1 := Sheet([h, r1]), 2 := Sheet([h, r2])];
            StageEntries(files, sheets, CharSetStrip, "FT21", "ara") == Ok([Entry("Q", [r1]), Entry("Q", [r2])])
  {
    var files: seq<ProjFile> := [ProjFile(1, "Q1_FT21_ara.xlf"), ProjFile(2, "Q2_FT21_ara.xlf")];
    var sheets: map<nat, Sheet> := map[1 := Sheet([h, r1]), 2 := Sheet([h, r2])];
    CharSetStripMergesFiles();
    var e1 := FileEntry(files[0], sheets, CharSetStrip, "FT21", "ara");
    var e2 := FileEntry(files[1], sheets, CharSetStrip, "FT21", "ara");
    assert sheets[1].rows[1..] == [r1] && sheets[2].rows[1..] == [r2];
    assert e1 == Ok(Entry("Q", [r1]));
    assert e2 == Ok(Entry("Q", [r2]));
    var f1 := files[..1];
    assert |f1| == 1 && f1[..|f1| - 1] == [] && f1[|f1| - 1] == files[0];
    assert StageEntries([], sheets, CharSetStrip, "FT21", "ara") == Ok([]);
    assert [] + [Entry("Q", [r1])] == [Entry("Q", [r1])];
    assert StageEntries(f1, sheets, CharSetStrip, "FT21", "ara") == Ok([Entry("Q", [r1])]);
    assert [Entry("Q", [r1])] + [Entry("Q", [r2])] == [Entry("Q", [r1]), Entry("Q", [r2])];
    assert files[..|files| - 1] == f1 && files[|files| - 1] == files[1];
  }

  /** A stage whose bundle lists one file with a label row and one data row yields that file's entry. */
  lemma SingleFileStage(locale: string, rule: BasenameRule, pair: (string, string), exports: map<string, Export>,
                        f: ProjFile, h: Row, row: Row)
    requires ProjName(pair.0, locale) in exports
    requires exports[ProjName(pair.0, locale)] == Export([f], map[f.idx := Sheet([h, row])])
    ensures StageResult(locale, rule, pair, exports) == Ok([Entry(DeriveBasename(rule, f.fname, pair.1, locale), [row])])
  {
    var bundle := exports[ProjName(pair.0, locale)];
    var r := StageEntries(bundle.files, bundle.sheets, rule, pair.1, locale);
    assert StageResult(locale, rule, pair, exports) == r;
    StageEntriesSpec(bundle.files, bundle.sheets, rule, pair.1, locale);
    assert bundle.sheets[f.idx].rows[1..] == [row];
    assert r.Ok? && |r.value| == 1;
    assert r.value == [r.value[0]];
  }

  /**
   Two bundles for locale `ara`: questionnaire `Q1` listed once in the field
   trial and once in the main study, each sheet a label row and one data row.
   */
  function SplitExample(h: Row, r1: Row, r2: Row): map<string, Export>
  {
    map[ProjName("2021FT", "ara") := Export([ProjFile(1, "Q1_FT21_ara.xlf")], map[1 := Sheet([h, r1])]),
        ProjName("2022MS", "ara") := Export([ProjFile(1, "Q1_MS22_ara.xlf")], map[1 := Sheet([h, r2])])]
  }

  /** With the source's rule, the two stages of `SplitExample` file `Q1` under different basenames. */
  lemma SplitExampleStages(h: Row, r1: Row, r2: Row)
    ensures StageResult("ara", CharSetStrip, ("2021FT", "FT21"), SplitExample(h, r1, r2)) == Ok([Entry("Q", [r1])])
    ensures StageResult("ara", CharSetStrip, ("2022MS", "MS22"), SplitExample(h, r1, r2)) == Ok([Entry("Q1", [r2])])
  {
    var ft := Export([ProjFile(1, "Q1_FT21_ara.xlf")], map[1 := Sheet([h, r1])]);
    var ms := Export([ProjFile(1, "Q1_MS22_ara.xlf")], map[1 := Sheet([h, r2])]);
    var nameFt, nameMs := ProjName("2021FT", "ara"), ProjName("2022MS", "ara");
    if nameFt == nameMs {
      ProjNameInjective("2021FT", "2022MS", "ara");
    }
    var exports := SplitExample(h, r1, r2);
    assert nameFt in exports && exports[nameFt] == ft;
    assert nameMs in exports && exports[nameMs] == ms;
    CharSetStripSplitsStages();
    SingleFileStage("ara", CharSetStrip, ("2021FT", "FT21"), exports, ProjFile(1, "Q1_FT21_ara.xlf"), h, r1);
    SingleFileStage("ara", CharSetStrip, ("2022MS", "MS22"), exports, ProjFile(1, "Q1_MS22_ara.xlf"), h, r2);
  }

  /**
   With the source's basename rule, questionnaire `Q1` is filed as `Q` in the
   field trial and as `Q1` in the main study, so no key of `sorted_data`
   holds both stages' rows of it.
   */
  lemma CharSetStripSplitsQuestionnaire(h: Row, r1: Row, r2: Row)
    ensures var r := Build("ara", CharSetStrip, StagePairs(), SplitExample(h, r1, r2));
            && r.Ok?
            && Get(r.value, "Q", "2021FT") == Some([r1]) && Get(r.value, "Q", "2022MS") == None
            && Get(r.value, "Q1", "2022MS") == Some([r2]) && Get(r.value, "Q1", "2021FT") == None
  {
    var exports := SplitExample(h, r1, r2);
    SplitExampleStages(h, r1, r2);
    var esFt := [Entry("Q", [r1])];
    var esMs := [Entry("Q1", [r2])];
    assert LastRows(esFt, "Q") == Some([r1]) && LastRows(esFt, "Q1") == None;
    assert LastRows(esMs, "Q1") == Some([r2]) && LastRows(esMs, "Q") == None;
    StagePairsValue();
    BuildOk("ara", CharSetStrip, StagePairs(), exports);
    var sd := Build("ara", CharSetStrip, StagePairs(), exports).value;
    FieldTrialSurvivesMainStudy("ara", CharSetStrip, exports, sd, "Q");
    FieldTrialSurvivesMainStudy("ara", CharSetStrip, exports, sd, "Q1");
  }

  /** Filing the two merged entries keeps only the second file's rows under `Q`. */
  lemma MergedEntriesOverwrite(r1: seq<Row>, r2: seq<Row>)
    ensures InsertAll(map[], "2021FT", [Entry("Q", r1), Entry("Q", r2)]) == map["Q" := map["2021FT" := r2]]
  {
    var es := [Entry("Q", r1), Entry("Q", r2)];
    assert es[..1] == [Entry("Q", r1)] && es[..1][..0] == [];
    var first := map["Q" := map["2021FT" := r1]];
    assert InsertAll(map[], "2021FT", es[..1]) == Insert(map[], "2021FT", es[0]) == first;
    assert Insert(first, "2021FT", es[1]) == map["Q" := first["Q"]["2021FT" := r2]];
    assert first["Q"]["2021FT" := r2] == map["2021FT" := r2];
  }

  /**
   The inner loop of `__main__` for one stage: the rows of each of the
   stage's project files are filed under the file's basename, in
   master-sheet order.
   */
  method FileStage(sortedData0: SortedData, stage: string, stageShort: string, locale: string, bundle: Export, rule: BasenameRule)
    returns (r: Result<SortedData, Error>)
    ensures var es := StageEntries(bundle.files, bundle.sheets, rule, stageShort, locale);
            r == if es.Err? then Err(es.error) else Ok(InsertAll(sortedData0, stage, es.value))
  {
    var sortedData := sortedData0;
    ghost var entries: seq<Entry> := [];
    var j := 0;
    while j < |bundle.files|
      invariant 0 <= j <= |bundle.files|
      invariant StageEntries(bundle.files[..j], bundle.sheets, rule, stageShort, locale) == Ok(entries)
      invariant sortedData == InsertAll(sortedData0, stage, entries)
    {
      var file := bundle.files[j];
      ghost var prev := sortedData;
      var basename := DeriveBasename(rule, file.fname, stageShort, locale);
      if basename !in sortedData {
        sortedData := sortedData[basename := map[]];
      }
      if file.idx !in bundle.sheets {
        assert FileEntry(file, bundle.sheets, rule, stageShort, locale) == Err(NoSheet(file.idx));
        StageEntriesFailAt(bundle.files, bundle.sheets, rule, stageShort, locale, j);
        return Err(NoSheet(file.idx));
      }
      if |bundle.sheets[file.idx].rows| == 0 {
        assert FileEntry(file, bundle.sheets, rule, stageShort, locale) == Err(EmptySheet(file.idx));
        StageEntriesFailAt(bundle.files, bundle.sheets, rule, stageShort, locale, j);
        return Err(EmptySheet(file.idx));
      }
      var rows := bundle.sheets[file.idx].rows[1..];
      sortedData := sortedData[basename := sortedData[basename][stage := rows]];
      CreateThenSet(prev, stage, basename, rows);
      assert FileEntry(file, bundle.sheets, rule, stageShort, locale) == Ok(Entry(basename, rows));
      FileStageStep(bundle.files, bundle.sheets, rule, stageShort, locale, sortedData0, stage, j, entries);
      entries := entries + [Entry(basename, rows)];
      j := j + 1;
    }
    assert bundle.files[..j] == bundle.files;
    r := Ok(sortedData);
  }

  /**
   The `__main__` loop over `zip(stages, stages_short)`: each stage's export
   is looked up by its project name and its files are filed in `sorted_data`.
   */
  method BuildSortedData(locale: string, exports: map<string, Export>, rule: BasenameRule)
    returns (r: Result<SortedData, Error>)
    ensures r == Build(locale, rule, StagePairs(), exports)
  {
    var pairs := StagePairs();
    var sortedData: SortedData := map[];
    var i := 0;
    while i < |pairs|
      invariant 0 <= i <= |pairs|
      invariant Build(locale, rule, pairs[..i], exports) == Ok(sortedData)
    {
      var (stage, stageShort) := pairs[i];
      var projName := ProjName(stage, locale);
      BuildStep(locale, rule, pairs, exports, i, sortedData);
      if projName !in exports {
        return Err(NoExport(projName));
      }
      var filed := FileStage(sortedData, stage, stageShort, locale, exports[projName], rule);
      if filed.Err? {
        return Err(filed.error);
      }
      sortedData := filed.value;
      i := i + 1;
    }
    assert pairs[..i] == pairs;
    r := Ok(sortedData);
  }
}
