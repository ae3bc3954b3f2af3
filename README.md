# PISA field-trial / main-study questionnaire grouping, modelled in Dafny

This project models the core of `code/main.py` of the PISA FT-to-MS
transfer checker. That script collects the translated questionnaire files of
one locale from two production stages: the 2021 field trial (`2021FT`, file
code `FT21`) and the 2022 main study (`2022MS`, file code `MS22`). For each
stage it finds the OmegaT project `PISA{stage}_{locale}_OMT_Questionnaires`
and reads that project's spreadsheet export. Each project file is filed under
a basename derived from its file name. The result is a dictionary
`sorted_data[basename][stage]` that holds the file's rows. The script also
defines a helper that picks the language tag carried by a file name.

The model has five modules:

- `Wrappers` (`wrappers.dfy`): `Option` and `Result`.
- `LangTag` (`langtag.dfy`): `get_langtag_from_fname`. It keeps the tags that
  occur in the file name and returns the longest of them, or `None`. Python's
  `max(..., key=len)` keeps the first of several equally long tags. The model
  writes this as a fold over the list, which is what `max` does.
- `Constants` (`constants.dfy`): `define_constants`, the `zip` of the stage
  lists, and the project name produced from the template. A parser
  (`StageOfProjName`) is the inverse that the name's lemmas are proved
  against.
- `Basename` (`basename.dfy`): Python's `str.rstrip(chars)` as the source
  uses it. The model also has the suffix removal the source evidently
  intends (see Findings). `BasenameRule` selects between the two rules.
- `Grouping` (`grouping.dfy`): the `__main__` loops. `FileStage` is the
  inner loop over a stage's project files. `BuildSortedData` is the outer
  loop over the stage pairs. Both are methods with loop invariants, and
  each is proved equal to a specification function (`StageEntries`,
  `InsertAll`, `Build`). The lemmas about those functions compare them with
  an independent reference, `LastRows`, which returns the rows of the last
  entry with a given basename.

The grouping is parameterised by `BasenameRule`. `CharSetStrip` is what
`main.py` does. `SuffixRemoval` is the corrected rule. The lemmas about the
loop hold for both rules. The lemmas about what the rules do to file names
are stated for each rule separately.

Inputs that the script reads from disk are parameters. A stage's export is
a value `Export(files, sheets)`. The exports are passed as a map keyed by
project name. A missing export, a missing sheet and a sheet without its
label row are the three errors the model represents. The model returns
them as `Err` values. Other failures that also abort the Python run are
listed under "Left out".

## Model

| member | source | states |
|---|---|---|
| `LangTag.GetLangtagFromFname` | code/main.py:124-129 | Returns `None` exactly when no tag of `langtags` occurs in `src_file`. Otherwise returns a tag of `langtags` that occurs in `src_file`, is at least as long as every occurring tag, and is the first such tag in list order. |
| `LangTag.IsSubstring` | code/main.py:125-126 | Python's `tag in src_file`: an occurring tag is no longer than the file name, and the empty tag occurs in every name. |
| `LangTag.SubstringOfConcat` | code/main.py:125-126 | A tag occurs in every name of the form `<a><tag><c>`. |
| `LangTag.SubstringSplits` | code/main.py:125-126 | Conversely, a name that contains a tag splits as `<a><tag><c>`. |
| `LangTag.Matching` | code/main.py:126 | The comprehension holds exactly the tags of `langtags` that occur in `src_file`. |
| `LangTag.MatchingSingle` | code/main.py:126 | A one-tag list keeps its tag exactly when the tag occurs. |
| `LangTag.MatchingKeepsOrder` | code/main.py:126 | The comprehension keeps list order: filtering a concatenation gives the concatenation of the filtered parts. |
| `LangTag.MaxByLen` | code/main.py:127 | `max(xs, key=len)` returns an element of `xs` that is at least as long as every element, and every earlier element is strictly shorter. |
| `LangTag.MaxOfMatching` | code/main.py:126-127 | `max(tags, key=len)` over the matching tags lands on the first index whose tag is a longest match. |
| `LangTag.FirstLongestMatchUnique` | code/main.py:127 | At most one tag is the first longest match, so the tie-break fixes the answer. |
| `LangTag.GetLangtagIsFirstLongest` | code/main.py:124-129 | Converse: the first longest match is the value returned. |
| `LangTag.LongerTagWins` | code/main.py:127 | `dut-NL` beats `dut` whichever order the two tags are listed in. |
| `LangTag.NoTagGivesNone` | code/main.py:128-129 | A file name that carries none of the tags yields `None`. |
| `Constants.Zip` | code/main.py:220 | `zip` has the length of the shorter list, and its i-th pair is the pair of i-th elements. |
| `Constants.StagePairs` | code/main.py:220 | `zip(stages, stages_short)` pairs each stage with its short code, one pair per stage. |
| `Constants.StagePairsValue` | code/main.py:137-141 | The loop sees `("2021FT","FT21")` and then `("2022MS","MS22")`, and the two stage names are distinct. |
| `Constants.ProjName` | code/main.py:140 | The filled-in template `PISA{stage}_{locale}_OMT_Questionnaires`: the parser reads the stage back from it. |
| `Constants.StageOfProjNameSound` | code/main.py:222 | Every name the parser accepts is the project name of the stage it returns. |
| `Constants.ProjNameInjective` | code/main.py:222 | For one locale, distinct stages name distinct projects, so the two stages read different exports. |
| `Basename.RStrip` | code/main.py:227 | `rstrip(chars)` returns a prefix of its input. Every removed character belongs to `chars`. The result does not end with a character of `chars`. |
| `Basename.RStripUnique` | code/main.py:227 | The result of `rstrip(chars)` is the only prefix with those three properties. |
| `Basename.RStripIdempotent` | code/main.py:227 | Stripping a second time changes nothing. |
| `Basename.Suffix` | code/main.py:227 | The f-string `_{stage_short}_{locale}.xlf`. Read as a character set, as `rstrip` reads it, it holds exactly the characters of `_.xlf`, of the stage code and of the locale. |
| `Basename.DeriveBasename` | code/main.py:227 | Under either rule, the basename is a prefix of the file name. |
| `Basename.CharSetStripIdempotent` | code/main.py:227 | Deriving the basename again from a derived basename gives it back unchanged. |
| `Basename.CharSetStripMergesFiles` | code/main.py:227 | The source's rule maps `Q1_FT21_ara.xlf` and `Q2_FT21_ara.xlf` both to `Q`. |
| `Basename.CharSetStripSplitsStages` | code/main.py:227 | The source's rule maps `Q1_FT21_ara.xlf` to `Q` but `Q1_MS22_ara.xlf` to `Q1`, so one questionnaire's two stages get different keys. |
| `Basename.CharSetStripKeepsMainStudyDigit` | code/main.py:227 | `1` is not a character of `_MS22_ara.xlf`, so the source's rule maps `Q1_MS22_ara.xlf` to `Q1`. |
| `Basename.SuffixRemovalJoinsStages` | code/main.py:227 | With the corrected rule, `Q1_FT21_ara.xlf` and `Q1_MS22_ara.xlf` both yield `Q1`. |
| `Basename.RemoveSuffixRoundTrip` | code/main.py:227 | Removing the suffix undoes appending it. |
| `Basename.RemoveSuffixOtherwiseUnchanged` | code/main.py:227 | A name without the suffix is left unchanged. |
| `Basename.SuffixRemovalRecoversName` | code/main.py:227 | With the corrected rule, `<name>_{stage_short}_{locale}.xlf` yields `<name>`. |
| `Basename.SuffixRemovalSeparatesFiles` | code/main.py:227 | With the corrected rule, `Q1` and `Q2` keep distinct basenames. |
| `Grouping.LastRows` | code/main.py:226-237 | Reference definition: `None` when no entry has basename `b`. Otherwise the rows of an entry with basename `b` after which no entry has `b`. |
| `Grouping.FileEntry` | code/main.py:227-235 | One file yields an entry exactly when its sheet exists and has a label row. A missing sheet gives the `KeyError` of line 231 (`NoSheet`) and an empty sheet the `IndexError` of line 232 (`EmptySheet`), each for that file's index. The entry's basename is the one line 227 derives from the file name, and its rows are the sheet's rows after the label row. |
| `Grouping.StageResult` | code/main.py:222-226 | A stage fails with a missing-export error exactly when no bundle has its project name. |
| `Grouping.Insert` | code/main.py:228-237 | One create-then-update step. `InsertFrame` proves that it sets `sorted_data[b][stage]`, adds `b` as a key and changes nothing else. |
| `Grouping.StageEntries` | code/main.py:226-235 | The inner loop as a function. `StageEntriesSpec` proves that it yields every file's entry in order, or the first failing file's error. |
| `Grouping.InsertAll` | code/main.py:226-237 | The updates of one stage's pass. `InsertAllAt` relates its keys and entries to the reference `LastRows`. |
| `Grouping.Build` | code/main.py:216-237 | The whole loop as a function. `BuildOk`, `BuildErrPersists`, `BuildStageAt` and `BuildKeys` state its result. |
| `Grouping.InsertFrame` | code/main.py:228-237 | One update makes the basename a key and sets `sorted_data[b][stage]` to the file's rows. Every other basename and stage entry is unchanged. |
| `Grouping.CreateThenSet` | code/main.py:228-237 | Creating `{}` only when the basename is absent and then updating the stage entry is exactly that one update. |
| `Grouping.StageEntriesSpec` | code/main.py:226-235 | A stage's files yield entries exactly when every file's sheet exists and is non-empty. Entry i is file i's basename with its sheet's rows after the first, in order. Otherwise the error is that of the first failing file. |
| `Grouping.InsertAllAt` | code/main.py:226-237 | After one stage's pass, `b` is a key iff it was one before or some file had basename `b`. `sorted_data[b][stage]` holds the last such file's rows. Every other stage entry is as before. |
| `Grouping.BuildOk` | code/main.py:220-237 | The run succeeds exactly when every stage pair yields its entries. |
| `Grouping.BuildErrPersists` | code/main.py:220-237 | Once a stage fails, the whole run fails with that error. |
| `Grouping.BuildStageAt` | code/main.py:220-237 | With distinct stage names, `sorted_data[b][stage]` is the rows of that stage's last file with basename `b`, and it is absent when there is no such file. Later stages do not disturb it. |
| `Grouping.BuildKeys` | code/main.py:226-229 | The keys of `sorted_data` are exactly the basenames of the files of all stages. |
| `Grouping.FileBasenameIsKey` | code/main.py:223-229 | After a successful run, every stage's export exists, and the basename of every one of its listed files is a key. |
| `Grouping.FieldTrialSurvivesMainStudy` | code/main.py:216-237 | For the two real stages, the field-trial entry of a basename survives the main-study pass. Each stage's entry is its own last file with that basename. |
| `Grouping.LastRowsDistinct` | code/main.py:237 | When no two entries share a basename, every entry's rows are retrievable. |
| `Grouping.SuffixRemovalKeepsEveryFile` | code/main.py:227-237 | With the corrected rule and distinct file names, every file's rows end up under its own name. |
| `Grouping.CharSetStripLosesRows` | code/main.py:227-235 | With the source's rule, files `Q1` and `Q2` yield two entries that share basename `Q`. |
| `Grouping.SingleFileStage` | code/main.py:222-235 | A bundle listing one file whose sheet has a label row and one data row yields exactly that file's entry. |
| `Grouping.SplitExampleStages` | code/main.py:222-235 | For a `Q1` file in each stage, the source's rule gives the field-trial entry the basename `Q` and the main-study entry the basename `Q1`. |
| `Grouping.CharSetStripSplitsQuestionnaire` | code/main.py:216-237 | For those two files the run succeeds with `sorted_data["Q"]` holding only the field-trial rows and `sorted_data["Q1"]` only the main-study rows. |
| `Grouping.MergedEntriesOverwrite` | code/main.py:228-237 | Filing those two entries keeps only `Q2`'s rows under `Q`. |
| `Grouping.FileStage` | code/main.py:226-237 | The inner loop returns the first file error of the stage, or else the stage's updates applied in order. |
| `Grouping.BuildSortedData` | code/main.py:216-237 | The nested loop returns `Build`: the first error raised, or the grouped dictionary. |

## Left out

- Argument parsing, `--version` and `sys.exit` (code/main.py:49-74): command-line plumbing. `locale` is a parameter.
- Log directory creation, timestamps and logging (code/main.py:80-101), the `logging.info` of the export path (code/main.py:116), and the `print` calls for the export found (code/main.py:118) and after each file (code/main.py:239): output only, with no effect on `sorted_data`.
- `fstr` (code/main.py:107-110) evaluates the template with `eval`. Only its result for the one template in use is modelled, as `Constants.ProjName`.
- `get_xls_export_data` (code/main.py:113-121) globs the export and reads it with pandas. Exports are instead given as a map from project name to `Export`. The first glob match, the directory layout and `locale_dir_path` are not modelled. A missing export is `NoExport`.
- `get_proj_files_from_xls_export` (code/main.py:132-134) is pandas indexing. `Export.files` is already the list of (index, file name) entries, in master-sheet order.
- Sheet lookup by `str(idx)`: sheets are keyed by the index itself. This is equivalent because `str` is injective on naturals.
- Column selection `iloc[1:, 1:4]`, the relabelling of columns from the first row, and `to_dict(orient='index')` (code/main.py:232-235) are pandas internals. A row is kept opaque, and only "the rows after the first, in order" is modelled.
- An export without a `"Master Sheet"` sheet (the `KeyError` at code/main.py:133) and a failure to read the export file (code/main.py:119-120) also abort the run. They are not modelled: `Export.files` is always present.
- File names that are not strings (empty master-sheet cells read as NaN) are not modelled.
- `get_data_from_xlf` (code/main.py:144-210) depends on machine-translation calls and names not defined in the file. It is not part of this model.
- `pprint.pprint(sorted_data)` (code/main.py:241): output only. The insertion order of `sorted_data`'s keys is not modelled, because Dafny maps are unordered.
- `get_langtag_from_fname` is never called by `main.py`. It is modelled on its own.
- Fingerprints, alignment and segment classification do not exist in `main.py`. They are not modelled.

## Findings

| source | as written | input that shows it | evidently intended | confidence | as-written member | corrected member |
|---|---|---|---|---|---|---|
| code/main.py:227 | The basename is computed with `rstrip` of the suffix string. This strips every trailing character that occurs anywhere in `_{stage_short}_{locale}.xlf`. | `Q1_FT21_ara.xlf` and `Q2_FT21_ara.xlf` both become `Q`, because `1` and `2` occur in `FT21`. The second file's rows then overwrite the first file's under `sorted_data["Q"]["2021FT"]`. The same rule also splits one questionnaire across stages: `Q1_MS22_ara.xlf` becomes `Q1`, because `1` is not in `_MS22_ara.xlf`, so `Q1`'s field-trial rows end up under `sorted_data["Q"]` and its main-study rows under `sorted_data["Q1"]`. | Remove the suffix `_{stage_short}_{locale}.xlf`, giving `Q1` and `Q2`, so that no file's rows are lost and `Q1` has one key in both stages. | high (not executed) | `Basename.CharSetStripMergesFiles`, `Basename.CharSetStripSplitsStages`, `Grouping.CharSetStripSplitsQuestionnaire`, `Grouping.CharSetStripLosesRows`, `Grouping.MergedEntriesOverwrite` | `Basename.SuffixRemovalRecoversName`, `Basename.SuffixRemovalJoinsStages`, `Grouping.SuffixRemovalKeepsEveryFile` |
