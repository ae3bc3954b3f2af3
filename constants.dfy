/**
 The run's constants (`define_constants`) and the OmegaT project name built
 from the template `PISA{stage}_{locale}_OMT_Questionnaires`.
 */
module Constants {
  import opened Wrappers

  /** The two production stages, field trial first. */
  const Stages: seq<string> := ["2021FT", "2022MS"]

  /** The short stage codes used in file names, in the same order. */
  const StagesShort: seq<string> := ["FT21", "MS22"]

  /** Python's `zip`: pairs up elements until the shorter list runs out. */
  function Zip<A, B>(xs: seq<A>, ys: seq<B>): (r: seq<(A, B)>)
    ensures |r| == if |xs| <= |ys| then |xs| else |ys|
    ensures forall i :: 0 <= i < |r| ==> r[i] == (xs[i], ys[i])
  {
    if xs == [] || ys == [] then [] else [(xs[0], ys[0])] + Zip(xs[1..], ys[1..])
  }

  /** `zip(stages, stages_short)`: the (stage, short code) pairs the main loop walks. */
  function StagePairs(): (r: seq<(string, string)>)
    ensures |r| == |Stages| == |StagesShort|
    ensures forall i :: 0 <= i < |r| ==> r[i].0 == Stages[i] && r[i].1 == StagesShort[i]
  {
    Zip(Stages, StagesShort)
  }

  /** The main loop sees the field trial paired with `FT21`, then the main study paired with `MS22`. */
  lemma StagePairsValue()
    ensures StagePairs() == [("2021FT", "FT21"), ("2022MS", "MS22")]
    ensures StagePairs()[0].0 != StagePairs()[1].0
  {
    var p := StagePairs();
    assert |p| == 2 && p[0] == ("2021FT", "FT21") && p[1] == ("2022MS", "MS22");
  }

  /** What follows the stage in a project name. */
  function ProjNameTail(locale: string): string
  {
    "_" + locale + "_OMT_Questionnaires"
  }

  /**
   The template `PISA{stage}_{locale}_OMT_Questionnaires` filled in; the
   stage can be read back from the name.
   */
  function ProjName(stage: string, locale: string): (r: string)
    ensures StageOfProjName(r, locale) == Some(stage)
  {
    var tail := ProjNameTail(locale);
    var name := "PISA" + stage + tail;
    assert name == "PISA" + (stage + tail);
    assert name[..4] == "PISA";
    assert name[|name| - |tail|..] == tail;
    assert name[4..|name| - |tail|] == stage;
    name
  }

  /** Reads the stage back out of a project name for a known locale. */
  function StageOfProjName(name: string, locale: string): Option<string>
  {
    var tail := ProjNameTail(locale);
    if |name| >= 4 + |tail| && name[..4] == "PISA" && name[|name| - |tail|..] == tail then
      Some(name[4..|name| - |tail|])
    else
      None
  }

  /** Every name the parser accepts is the project name of the stage it returns. */
  lemma StageOfProjNameSound(name: string, locale: string)
    requires StageOfProjName(name, locale).Some?
    ensures ProjName(StageOfProjName(name, locale).value, locale) == name
  {
    var tail := ProjNameTail(locale);
    var stage := name[4..|name| - |tail|];
    assert name == name[..4] + stage + name[|name| - |tail|..];
  }

  /** For one locale, distinct stages name distinct projects. */
  lemma ProjNameInjective(s1: string, s2: string, locale: string)
    requires ProjName(s1, locale) == ProjName(s2, locale)
    ensures s1 == s2
  {
    assert Some(s1) == StageOfProjName(ProjName(s1, locale), locale) == Some(s2);
  }
}
