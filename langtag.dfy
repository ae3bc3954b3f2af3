/**
 Picking the language tag of a source file from its file name
 (`get_langtag_from_fname`). The tags that occur in the file name are kept
 in list order and the longest of them is returned; Python's `max` with
 `key=len` keeps the first of several equally long maxima.
 */
module LangTag {
  import opened Wrappers

  /** `t` occurs in `s` starting at position `i`. */
  predicate OccursAt(t: string, s: string, i: nat)
  {
    i + |t| <= |s| && s[i..i + |t|] == t
  }

  /** Python's `t in s` on two strings: `t` occurs in `s` as a contiguous substring. */
  predicate IsSubstring(t: string, s: string): (b: bool)
    ensures b ==> |t| <= |s|
    ensures t == [] ==> b
  {
    assert OccursAt([], s, 0);
    exists i: nat | i <= |s| :: OccursAt(t, s, i)
  }

  /** `t` occurs in every string that has it between some prefix and some suffix. */
  lemma SubstringOfConcat(a: string, t: string, c: string)
    ensures IsSubstring(t, a + t + c)
  {
    var s := a + t + c;
    assert s[|a|..|a| + |t|] == t;
    assert OccursAt(t, s, |a|);
  }

  /** Conversely, a string that contains `t` splits around an occurrence of it. */
  lemma SubstringSplits(t: string, s: string) returns (a: string, c: string)
    requires IsSubstring(t, s)
    ensures s == a + t + c
  {
    var i: nat :| i <= |s| && OccursAt(t, s, i);
    a, c := s[..i], s[i + |t|..];
    assert s == s[..i] + s[i..i + |t|] + s[i + |t|..];
  }

  /** `[tag for tag in langtags if tag in src_file]`, written as a fold from the back. */
  function Matching(srcFile: string, langtags: seq<string>): (r: seq<string>)
    ensures |r| <= |langtags|
    ensures forall t :: t in r <==> t in langtags && IsSubstring(t, srcFile)
  {
    if langtags == [] then []
    else
      var last := langtags[|langtags| - 1];
      Matching(srcFile, langtags[..|langtags| - 1]) + (if IsSubstring(last, srcFile) then [last] else [])
  }

  /** One tag is kept exactly when it occurs. */
  lemma MatchingSingle(srcFile: string, t: string)
    ensures Matching(srcFile, [t]) == if IsSubstring(t, srcFile) then [t] else []
  {
    assert [t][..0] == [];
  }

  /**
   The comprehension keeps list order: filtering a concatenation is the
   concatenation of the filtered parts.
   */
  lemma {:induction false} MatchingKeepsOrder(srcFile: string, xs: seq<string>, ys: seq<string>)
    ensures Matching(srcFile, xs + ys) == Matching(srcFile, xs) + Matching(srcFile, ys)
    decreases |ys|
  {
    if ys == [] {
      assert xs + ys == xs;
    } else {
      var init := ys[..|ys| - 1];
      var y := ys[|ys| - 1];
      var tail := if IsSubstring(y, srcFile) then [y] else [];
      assert (xs + ys)[..|xs + ys| - 1] == xs + init;
      assert (xs + ys)[|xs + ys| - 1] == y;
      MatchingKeepsOrder(srcFile, xs, init);
      calc {
        Matching(srcFile, xs + ys);
        Matching(srcFile, xs + init) + tail;
        Matching(srcFile, xs) + Matching(srcFile, init) + tail;
        Matching(srcFile, xs) + (Matching(srcFile, init) + tail);
        Matching(srcFile, xs) + Matching(srcFile, ys);
      }
    }
  }

  /**
   `max(xs, key=len)`: Python scans left to right and replaces the current
   best only by a strictly longer element.
   */
  function MaxByLen(xs: seq<string>): (r: string)
    requires |xs| > 0
    ensures r in xs
    ensures forall x :: x in xs ==> |x| <= |r|
    ensures exists k :: 0 <= k < |xs| && xs[k] == r && forall j :: 0 <= j < k ==> |xs[j]| < |r|
  {
    if |xs| == 1 then xs[0]
    else
      var init := xs[..|xs| - 1];
      var best := MaxByLen(init);
      assert forall j :: 0 <= j < |init| ==> init[j] == xs[j] && init[j] in init;
      assert xs == init + [xs[|xs| - 1]];
      if |xs[|xs| - 1]| > |best| then xs[|xs| - 1] else best
  }

  /** Appending an element replaces the maximum only when the element is strictly longer. */
  lemma MaxByLenSnoc(xs: seq<string>, x: string)
    requires |xs| > 0
    ensures MaxByLen(xs + [x]) == if |x| > |MaxByLen(xs)| then x else MaxByLen(xs)
  {
    assert (xs + [x])[..|xs|] == xs;
  }

  /**
   `langtags[k]` occurs in `srcFile`, is as long as every tag that occurs in
   `srcFile`, and every earlier tag that occurs is strictly shorter.
   */
  ghost predicate IsFirstLongestAt(srcFile: string, langtags: seq<string>, k: nat)
  {
    && k < |langtags|
    && IsSubstring(langtags[k], srcFile)
    && (forall j :: 0 <= j < |langtags| && IsSubstring(langtags[j], srcFile) ==> |langtags[j]| <= |langtags[k]|)
    && (forall j :: 0 <= j < k && IsSubstring(langtags[j], srcFile) ==> |langtags[j]| < |langtags[k]|)
  }

  /** `t` is the first of the longest tags that occur in `srcFile`. */
  ghost predicate FirstLongestMatch(srcFile: string, langtags: seq<string>, t: string)
  {
    exists k: nat :: IsFirstLongestAt(srcFile, langtags, k) && langtags[k] == t
  }

  /** A first longest match of all but the last tag stays one when the last tag is no longer. */
  lemma FirstLongestKeep(srcFile: string, langtags: seq<string>, k: nat)
    requires |langtags| > 0
    requires IsFirstLongestAt(srcFile, langtags[..|langtags| - 1], k)
    requires IsSubstring(langtags[|langtags| - 1], srcFile) ==> |langtags[|langtags| - 1]| <= |langtags[k]|
    ensures IsFirstLongestAt(srcFile, langtags, k)
  {
    assert forall j :: 0 <= j < |langtags| - 1 ==> langtags[..|langtags| - 1][j] == langtags[j];
  }

  /** The last tag is the first longest match when it occurs and beats every earlier match. */
  lemma FirstLongestLast(srcFile: string, langtags: seq<string>)
    requires |langtags| > 0
    requires IsSubstring(langtags[|langtags| - 1], srcFile)
    requires forall j :: 0 <= j < |langtags| - 1 && IsSubstring(langtags[j], srcFile) ==>
               |langtags[j]| < |langtags[|langtags| - 1]|
    ensures IsFirstLongestAt(srcFile, langtags, |langtags| - 1)
  {
  }

  /** The maximum of the matching tags is the first longest match; `k` is its index. */
  lemma {:induction false} MaxOfMatching(srcFile: string, langtags: seq<string>) returns (k: nat)
    requires Matching(srcFile, langtags) != []
    ensures IsFirstLongestAt(srcFile, langtags, k)
    ensures langtags[k] == MaxByLen(Matching(srcFile, langtags))
  {
    var n := |langtags|;
    var init := langtags[..n - 1];
    var last := langtags[n - 1];
    var m := Matching(srcFile, init);
    if !IsSubstring(last, srcFile) {
      assert Matching(srcFile, langtags) == m;
      k := MaxOfMatching(srcFile, init);
      assert init[k] == langtags[k];
      FirstLongestKeep(srcFile, langtags, k);
    } else if m == [] {
      assert Matching(srcFile, langtags) == [last];
      assert forall j :: 0 <= j < n - 1 ==> init[j] == langtags[j] && init[j] in init;
      FirstLongestLast(srcFile, langtags);
      k := n - 1;
    } else {
      assert Matching(srcFile, langtags) == m + [last];
      var k0 := MaxOfMatching(srcFile, init);
      assert init[k0] == langtags[k0];
      k := MaxOfMatchingExtend(srcFile, langtags, m, k0);
    }
  }

  /**
   The step of `MaxOfMatching` where the last tag occurs: `m` stands for the
   earlier tags that match, whose maximum is the first longest match `k0`.
   */
  lemma MaxOfMatchingExtend(srcFile: string, langtags: seq<string>, m: seq<string>, k0: nat) returns (k: nat)
    requires |langtags| > 0 && |m| > 0
    requires IsSubstring(langtags[|langtags| - 1], srcFile)
    requires IsFirstLongestAt(srcFile, langtags[..|langtags| - 1], k0)
    requires langtags[k0] == MaxByLen(m)
    ensures IsFirstLongestAt(srcFile, langtags, k)
    ensures langtags[k] == MaxByLen(m + [langtags[|langtags| - 1]])
  {
    var n := |langtags|;
    var last := langtags[n - 1];
    MaxByLenSnoc(m, last);
    if |last| > |langtags[k0]| {
      assert forall j :: 0 <= j < n - 1 ==> langtags[..n - 1][j] == langtags[j];
      FirstLongestLast(srcFile, langtags);
      k := n - 1;
    } else {
      FirstLongestKeep(srcFile, langtags, k0);
      k := k0;
    }
  }

  /** The same fact with the index left existential, for use inside expressions. */
  lemma MaxOfMatchingIsFirstLongest(srcFile: string, langtags: seq<string>)
    requires Matching(srcFile, langtags) != []
    ensures FirstLongestMatch(srcFile, langtags, MaxByLen(Matching(srcFile, langtags)))
  {
    var k := MaxOfMatching(srcFile, langtags);
  }

  /** At most one tag is the first longest match. */
  lemma FirstLongestMatchUnique(srcFile: string, langtags: seq<string>, t1: string, t2: string)
    requires FirstLongestMatch(srcFile, langtags, t1)
    requires FirstLongestMatch(srcFile, langtags, t2)
    ensures t1 == t2
  {
    var k1: nat :| IsFirstLongestAt(srcFile, langtags, k1) && langtags[k1] == t1;
    var k2: nat :| IsFirstLongestAt(srcFile, langtags, k2) && langtags[k2] == t2;
    assert |t1| == |t2|;
    assert !(k1 < k2) && !(k2 < k1);
  }

  /**
   `get_langtag_from_fname(src_file, langtags)`: `None` exactly when no tag
   occurs in the file name, otherwise the first longest tag that occurs.
   */
  function GetLangtagFromFname(srcFile: string, langtags: seq<string>): (r: Option<string>)
    ensures r.None? <==> forall t :: t in langtags ==> !IsSubstring(t, srcFile)
    ensures r.Some? ==> r.value in langtags && IsSubstring(r.value, srcFile)
    ensures r.Some? ==> forall t :: t in langtags && IsSubstring(t, srcFile) ==> |t| <= |r.value|
    ensures r.Some? ==> FirstLongestMatch(srcFile, langtags, r.value)
  {
    if exists t :: t in langtags && IsSubstring(t, srcFile) then
      var tags := Matching(srcFile, langtags);
      MaxOfMatchingIsFirstLongest(srcFile, langtags);
      Some(MaxByLen(tags))
    else
      None
  }

  /** Conversely, the first longest match is what the picker returns. */
  lemma GetLangtagIsFirstLongest(srcFile: string, langtags: seq<string>, t: string)
    requires FirstLongestMatch(srcFile, langtags, t)
    ensures GetLangtagFromFname(srcFile, langtags) == Some(t)
  {
    var r := GetLangtagFromFname(srcFile, langtags);
    assert r.Some?;
    FirstLongestMatchUnique(srcFile, langtags, r.value, t);
  }

  /** The example of the source's comment: `dut-NL` wins over `dut`, whichever comes first. */
  lemma LongerTagWins(tags: seq<string>)
    requires tags == ["dut", "dut-NL"] || tags == ["dut-NL", "dut"]
    ensures GetLangtagFromFname("q_dut-NL.xlf", tags) == Some("dut-NL")
  {
    var s := "q_dut-NL.xlf";
    assert OccursAt("dut-NL", s, 2) && OccursAt("dut", s, 2);
    var k := if tags[0] == "dut" then 1 else 0;
    assert IsFirstLongestAt(s, tags, k);
    GetLangtagIsFirstLongest(s, tags, "dut-NL");
  }

  /** A tag whose first character never appears in `s` does not occur in `s`. */
  lemma AbsentFirstChar(t: string, s: string)
    requires |t| > 0 && t[0] !in s
    ensures !IsSubstring(t, s)
  {
    forall i: nat | i <= |s| ensures !OccursAt(t, s, i) {
      if i + |t| <= |s| {
        assert s[i..i + |t|][0] == s[i] != t[0];
      }
    }
  }

  /** A file name that carries none of the tags yields `None`. */
  lemma NoTagGivesNone()
    ensures GetLangtagFromFname("q_fra.xlf", ["dut", "dut-NL"]) == None
  {
    AbsentFirstChar("dut", "q_fra.xlf");
    AbsentFirstChar("dut-NL", "q_fra.xlf");
  }
}
