/**
 Deriving a file's basename from its on-disk name
 `<name>_<stage short>_<locale>.xlf`. The source calls Python's
 `str.rstrip` with the suffix as argument, which removes trailing
 characters that belong to the suffix's character set rather than the
 suffix itself; `SuffixRemoval` is the intended rule.
 */
module Basename {

  /** Python's `s.rstrip(chars)`: drop trailing characters that occur anywhere in `chars`. */
  function RStrip(s: string, chars: string): (r: string)
    ensures |r| <= |s| && r == s[..|r|]
    ensures forall i :: |r| <= i < |s| ==> s[i] in chars
    ensures |r| > 0 ==> r[|r| - 1] !in chars
    decreases |s|
  {
    if |s| > 0 && s[|s| - 1] in chars then RStrip(s[..|s| - 1], chars) else s
  }

  /** Stripping twice strips nothing more. */
  lemma RStripIdempotent(s: string, chars: string)
    ensures RStrip(RStrip(s, chars), chars) == RStrip(s, chars)
  {
  }

  /**
   `RStrip` is the only prefix of `s` that leaves behind only characters of
   `chars` and does not itself end with one.
   */
  lemma {:induction false} RStripUnique(s: string, chars: string, p: string)
    requires |p| <= |s| && p == s[..|p|]
    requires forall i :: |p| <= i < |s| ==> s[i] in chars
    requires |p| > 0 ==> p[|p| - 1] !in chars
    ensures RStrip(s, chars) == p
    decreases |s|
  {
    if |s| == |p| {
      assert s == p;
    } else {
      var init := s[..|s| - 1];
      assert p == init[..|p|];
      RStripUnique(init, chars, p);
    }
  }

  /** Python 3.9's `s.removesuffix(suffix)`. */
  function RemoveSuffix(s: string, suffix: string): (r: string)
    ensures |r| <= |s| && r == s[..|r|]
  {
    if |suffix| <= |s| && s[|s| - |suffix|..] == suffix then s[..|s| - |suffix|] else s
  }

  /** Removing a suffix undoes appending it. */
  lemma RemoveSuffixRoundTrip(name: string, suffix: string)
    ensures RemoveSuffix(name + suffix, suffix) == name
  {
    var s := name + suffix;
    assert s[|s| - |suffix|..] == suffix;
    assert s[..|s| - |suffix|] == name;
  }

  /** A name that does not end with the suffix is left unchanged. */
  lemma RemoveSuffixOtherwiseUnchanged(s: string, suffix: string)
    requires !(exists name :: s == name + suffix)
    ensures RemoveSuffix(s, suffix) == s
  {
    if |suffix| <= |s| && s[|s| - |suffix|..] == suffix {
      assert s == s[..|s| - |suffix|] + suffix;
    }
  }

  /**
   The file-name suffix `_{stage_short}_{locale}.xlf`. Read as a character
   set, as `rstrip` reads it, it holds the characters of `_.xlf`, of the
   stage code and of the locale, and nothing else.
   */
  function Suffix(stageShort: string, locale: string): (r: string)
    ensures |r| == |stageShort| + |locale| + 6
    ensures forall c :: c in r <==> c in "_.xlf" || c in stageShort || c in locale
  {
    "_" + stageShort + "_" + locale + ".xlf"
  }

  /** How a basename is obtained from a file name. */
  datatype BasenameRule =
    | CharSetStrip   // `fname.rstrip(suffix)`, what the source does
    | SuffixRemoval  // removing the suffix, what the source means to do

  /** The basename of `fname` in the stage with short code `stageShort`. */
  function DeriveBasename(rule: BasenameRule, fname: string, stageShort: string, locale: string): (r: string)
    ensures |r| <= |fname| && r == fname[..|r|]
  {
    match rule
    case CharSetStrip => RStrip(fname, Suffix(stageShort, locale))
    case SuffixRemoval => RemoveSuffix(fname, Suffix(stageShort, locale))
  }

  /** Deriving the basename with the source's rule a second time changes nothing. */
  lemma CharSetStripIdempotent(fname: string, stageShort: string, locale: string)
    ensures var b := DeriveBasename(CharSetStrip, fname, stageShort, locale);
            DeriveBasename(CharSetStrip, b, stageShort, locale) == b
  {
    RStripIdempotent(fname, Suffix(stageShort, locale));
  }

  /**
   With the source's rule the digit of `Q1` and `Q2` belongs to the suffix's
   character set (`1` of `FT21`), so both files get the basename `Q`.
   */
  lemma CharSetStripMergesFiles()
    ensures DeriveBasename(CharSetStrip, "Q1_FT21_ara.xlf", "FT21", "ara") == "Q"
    ensures DeriveBasename(CharSetStrip, "Q2_FT21_ara.xlf", "FT21", "ara") == "Q"
  {
    var chars := "_FT21_ara.xlf";
    assert Suffix("FT21", "ara") == chars;
    assert 'Q' !in chars;
    var s1 := "Q1_FT21_ara.xlf";
    assert forall i :: 1 <= i < |s1| ==> s1[i] in chars;
    RStripUnique(s1, chars, "Q");
    var s2 := "Q2_FT21_ara.xlf";
    assert forall i :: 1 <= i < |s2| ==> s2[i] in chars;
    RStripUnique(s2, chars, "Q");
  }

  /**
   The source's rule also depends on the stage: `1` belongs to the character
   set of `_FT21_ara.xlf` but not to that of `_MS22_ara.xlf`, so the same
   questionnaire `Q1` is filed as `Q` in the field trial and as `Q1` in the
   main study, and its two stages never share a key.
   */
  lemma CharSetStripSplitsStages()
    ensures DeriveBasename(CharSetStrip, "Q1_FT21_ara.xlf", "FT21", "ara") == "Q"
    ensures DeriveBasename(CharSetStrip, "Q1_MS22_ara.xlf", "MS22", "ara") == "Q1"
  {
    CharSetStripMergesFiles();
    CharSetStripKeepsMainStudyDigit();
  }

  /** `1` is not a character of `_MS22_ara.xlf`, so the source's rule keeps it. */
  lemma CharSetStripKeepsMainStudyDigit()
    ensures DeriveBasename(CharSetStrip, "Q1_MS22_ara.xlf", "MS22", "ara") == "Q1"
  {
    var chars := "_MS22_ara.xlf";
    assert Suffix("MS22", "ara") == chars;
    assert '1' !in chars;
    var s := "Q1_MS22_ara.xlf";
    assert forall i :: 2 <= i < |s| ==> s[i] in chars;
    RStripUnique(s, chars, "Q1");
  }

  /** With the intended rule, a well-formed file name gives back exactly its name part. */
  lemma SuffixRemovalRecoversName(name: string, stageShort: string, locale: string)
    ensures DeriveBasename(SuffixRemoval, name + Suffix(stageShort, locale), stageShort, locale) == name
  {
    RemoveSuffixRoundTrip(name, Suffix(stageShort, locale));
  }

  /** With the intended rule, `Q1` has the same basename in both stages. */
  lemma SuffixRemovalJoinsStages()
    ensures DeriveBasename(SuffixRemoval, "Q1_FT21_ara.xlf", "FT21", "ara") == "Q1"
    ensures DeriveBasename(SuffixRemoval, "Q1_MS22_ara.xlf", "MS22", "ara") == "Q1"
  {
    assert Suffix("FT21", "ara") == "_FT21_ara.xlf";
    assert Suffix("MS22", "ara") == "_MS22_ara.xlf";
    assert "Q1" + "_FT21_ara.xlf" == "Q1_FT21_ara.xlf";
    assert "Q1" + "_MS22_ara.xlf" == "Q1_MS22_ara.xlf";
    SuffixRemovalRecoversName("Q1", "FT21", "ara");
    SuffixRemovalRecoversName("Q1", "MS22", "ara");
  }

  /** With the intended rule, `Q1` and `Q2` keep distinct basenames. */
  lemma SuffixRemovalSeparatesFiles()
    ensures DeriveBasename(SuffixRemoval, "Q1_FT21_ara.xlf", "FT21", "ara") == "Q1"
    ensures DeriveBasename(SuffixRemoval, "Q2_FT21_ara.xlf", "FT21", "ara") == "Q2"
  {
    assert Suffix("FT21", "ara") == "_FT21_ara.xlf";
    assert "Q1" + "_FT21_ara.xlf" == "Q1_FT21_ara.xlf";
    assert "Q2" + "_FT21_ara.xlf" == "Q2_FT21_ara.xlf";
    SuffixRemovalRecoversName("Q1", "FT21", "ara");
    SuffixRemovalRecoversName("Q2", "FT21", "ara");
  }
}
