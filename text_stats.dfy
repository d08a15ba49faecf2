/**
 * The counters `handleTextChange` derives from the raw input: the character
 * count `text.length` and the word count
 * `text.trim().split(/\s+/).filter(word => word.length > 0).length`.
 */
module TextStats {

  /** ECMAScript's WhiteSpace and LineTerminator characters: the class `\s`
    * matches exactly these, and `String.prototype.trim` strips exactly these. */
  predicate IsSpace(c: char)
    ensures c <= '\U{007F}' ==> (IsSpace(c) <==> c in "\t\n\U{000B}\U{000C}\r ")
  {
    c == '\t' || c == '\n' || c == '\U{000B}' || c == '\U{000C}' || c == '\r' || c == ' ' ||
    c == '\U{00A0}' || c == '\U{1680}' || ('\U{2000}' <= c <= '\U{200A}') ||
    c == '\U{2028}' || c == '\U{2029}' || c == '\U{202F}' || c == '\U{205F}' ||
    c == '\U{3000}' || c == '\U{FEFF}'
  }

  /** Every character is whitespace (this includes the empty string). */
  predicate Blank(s: string)
  {
    forall i :: 0 <= i < |s| ==> IsSpace(s[i])
  }

  predicate NoSpace(s: string)
  {
    forall i :: 0 <= i < |s| ==> !IsSpace(s[i])
  }

  /** Drops the leading whitespace: what is left is empty or starts with a
    * non-space, and something is dropped whenever `s` starts with whitespace. */
  function TrimStart(s: string): (r: string)
    ensures |r| <= |s|
    ensures r == [] || !IsSpace(r[0])
    ensures s != [] && IsSpace(s[0]) ==> |r| < |s|
  {
    if s != [] && IsSpace(s[0]) then TrimStart(s[1..]) else s
  }

  /** What `TrimStart` keeps is a suffix of `s`, and everything it drops is whitespace. */
  lemma {:induction false} TrimStartDropsBlank(s: string)
    ensures TrimStart(s) == s[|s| - |TrimStart(s)|..]
    ensures Blank(s[..|s| - |TrimStart(s)|])
    decreases |s|
  {
    if s != [] && IsSpace(s[0]) {
      var r := TrimStart(s[1..]);
      TrimStartDropsBlank(s[1..]);
      assert s[..|s| - |r|] == [s[0]] + s[1..][..|s| - 1 - |r|];
    }
  }

  /** Drops the trailing whitespace: what is left is empty or ends with a non-space. */
  function TrimEnd(s: string): (r: string)
    ensures |r| <= |s|
    ensures r == [] || !IsSpace(r[|r| - 1])
  {
    if s != [] && IsSpace(s[|s| - 1]) then TrimEnd(s[..|s| - 1]) else s
  }

  /** What `TrimEnd` keeps is a prefix of `s`, and everything it drops is whitespace. */
  lemma {:induction false} TrimEndDropsBlank(s: string)
    ensures TrimEnd(s) == s[..|TrimEnd(s)|]
    ensures Blank(s[|TrimEnd(s)|..])
    decreases |s|
  {
    if s != [] && IsSpace(s[|s| - 1]) {
      var r := TrimEnd(s[..|s| - 1]);
      TrimEndDropsBlank(s[..|s| - 1]);
      assert s[|r|..] == s[..|s| - 1][|r|..] + [s[|s| - 1]];
    }
  }

  /** `String.prototype.trim`: a slice of `s` that neither starts nor ends with whitespace. */
  function Trim(s: string): (r: string)
    ensures |r| <= |s|
    ensures r == [] || (!IsSpace(r[0]) && !IsSpace(r[|r| - 1]))
  {
    TrimEndDropsBlank(TrimStart(s));
    TrimEnd(TrimStart(s))
  }

  /** `trim()` keeps one slice of `s` and drops only whitespace around it. */
  lemma TrimIsBlankFramedSlice(s: string)
    ensures exists i, j :: 0 <= i <= j <= |s| && Trim(s) == s[i..j] && Blank(s[..i]) && Blank(s[j..])
  {
    var u := TrimStart(s);
    TrimStartDropsBlank(s);
    TrimEndDropsBlank(u);
    var i, j := |s| - |u|, |s| - |u| + |TrimEnd(u)|;
    assert Trim(s) == s[i..j];
    assert s[j..] == u[|TrimEnd(u)|..];
  }

  /** `s.split(/\s+/)`: the fragments between maximal whitespace runs. A leading
    * (trailing) run yields an empty first (last) fragment, and the empty string
    * yields one empty fragment. */
  function Split(s: string): (r: seq<string>)
    ensures |r| >= 1
    ensures forall i :: 0 <= i < |r| ==> NoSpace(r[i])
    ensures r[0] == [] <==> (s == [] || IsSpace(s[0]))
    decreases |s|
  {
    if s == [] then
      [[]]
    else if IsSpace(s[0]) then
      var t := TrimStart(s);
      [[]] + Split(t)
    else
      var rest := Split(s[1..]);
      [[s[0]] + rest[0]] + rest[1..]
  }

  /** `fragments.filter(word => word.length > 0)`: the non-empty fragments, in order. */
  function NonEmpty(fs: seq<string>): (r: seq<string>)
    ensures |r| <= |fs|
    ensures forall i :: 0 <= i < |r| ==> r[i] != [] && r[i] in fs
    ensures forall i :: 0 <= i < |fs| && fs[i] != [] ==> fs[i] in r
  {
    if fs == [] then []
    else (if fs[0] == [] then [] else [fs[0]]) + NonEmpty(fs[1..])
  }

  /** The words `handleTextChange` counts. */
  function Words(s: string): (r: seq<string>)
    ensures forall i :: 0 <= i < |r| ==> r[i] != [] && NoSpace(r[i])
  {
    NonEmpty(Split(Trim(s)))
  }

  /** The word count of `handleTextChange`: the number of maximal
    * non-whitespace runs of the raw text. */
  function WordCount(s: string): (n: nat)
    ensures n == RunCount(s)
  {
    SplitCountsRuns(Trim(s));
    RunsTrim(s);
    |Words(s)|
  }

  /** Reference definition: a left-to-right scan that counts every non-space
    * character entered from whitespace (or from the start), i.e. the number
    * of maximal non-whitespace runs. `inRun` says whether the previous
    * character was a non-space. */
  function RunsFrom(s: string, inRun: bool): nat
  {
    if s == [] then 0
    else if IsSpace(s[0]) then RunsFrom(s[1..], false)
    else (if inRun then 0 else 1) + RunsFrom(s[1..], true)
  }

  function RunCount(s: string): nat
  {
    RunsFrom(s, false)
  }

  lemma RunsEntering(t: string)
    ensures RunsFrom(t, false) == RunsFrom(t, true) + (if t != [] && !IsSpace(t[0]) then 1 else 0)
  {
  }

  lemma {:induction false} RunsOfBlank(t: string, inRun: bool)
    requires Blank(t)
    ensures RunsFrom(t, inRun) == 0
    decreases |t|
  {
    if t != [] {
      RunsOfBlank(t[1..], false);
    }
  }

  /** Whitespace at the front never starts a run. */
  lemma {:induction false} RunsTrimStart(s: string)
    ensures RunsFrom(TrimStart(s), false) == RunsFrom(s, false)
    decreases |s|
  {
    if s != [] && IsSpace(s[0]) {
      RunsTrimStart(s[1..]);
    }
  }

  /** Whitespace at the back never starts a run. */
  lemma {:induction false} RunsBlankSuffix(u: string, t: string, inRun: bool)
    requires Blank(t)
    ensures RunsFrom(u + t, inRun) == RunsFrom(u, inRun)
    decreases |u|
  {
    if u == [] {
      assert u + t == t;
      RunsOfBlank(t, inRun);
    } else {
      assert (u + t)[1..] == u[1..] + t;
      RunsBlankSuffix(u[1..], t, !IsSpace(u[0]));
    }
  }

  /** The filter acts on each part independently, so it keeps the order and
    * the repetitions of the fragments it keeps. */
  lemma {:induction false} NonEmptyConcat(a: seq<string>, b: seq<string>)
    decreases |a|
    ensures NonEmpty(a + b) == NonEmpty(a) + NonEmpty(b)
  {
    if a != [] {
      assert (a + b)[1..] == a[1..] + b;
      NonEmptyConcat(a[1..], b);
    } else {
      assert a + b == b;
    }
  }

  /** Splitting on whitespace runs and dropping empty fragments leaves exactly
    * one fragment per maximal non-whitespace run. */
  lemma {:induction false} SplitCountsRuns(s: string)
    ensures |NonEmpty(Split(s))| == RunsFrom(s, false)
    decreases |s|
  {
    if s == [] {
    } else if IsSpace(s[0]) {
      var t := TrimStart(s);
      NonEmptyConcat([[]], Split(t));
      SplitCountsRuns(t);
      RunsTrimStart(s);
    } else {
      var rest := Split(s[1..]);
      assert Split(s) == [[s[0]] + rest[0]] + rest[1..];
      NonEmptyConcat([[s[0]] + rest[0]], rest[1..]);
      assert rest == [rest[0]] + rest[1..];
      NonEmptyConcat([rest[0]], rest[1..]);
      SplitCountsRuns(s[1..]);
      RunsEntering(s[1..]);
    }
  }

  /** Trimming before the split does not change the number of runs. */
  lemma RunsTrim(s: string)
    ensures RunsFrom(Trim(s), false) == RunsFrom(s, false)
  {
    var u := TrimStart(s);
    var r := TrimEnd(u);
    TrimEndDropsBlank(u);
    assert u == r + u[|r|..];
    RunsBlankSuffix(r, u[|r|..], false);
    RunsTrimStart(s);
  }

  lemma {:induction false} NoRunsIffBlank(s: string)
    ensures RunsFrom(s, false) == 0 <==> Blank(s)
    decreases |s|
  {
    if s != [] {
      NoRunsIffBlank(s[1..]);
      if IsSpace(s[0]) {
        assert Blank(s) <==> Blank(s[1..]);
      }
    }
  }

  /** Empty and all-whitespace text, and only such text, has no words. */
  lemma WordCountZeroIffBlank(s: string)
    ensures WordCount(s) == 0 <==> Blank(s)
  {
    NoRunsIffBlank(s);
  }

  /** `!text.trim()` holds exactly for empty and all-whitespace text. */
  lemma TrimEmptyIffBlank(s: string)
    ensures Trim(s) == [] <==> Blank(s)
  {
    var u := TrimStart(s);
    var r := TrimEnd(u);
    TrimStartDropsBlank(s);
    TrimEndDropsBlank(u);
    if r == [] {
      assert u[|r|..] == u;
      assert s == s[..|s| - |u|] + u;
    } else {
      assert r[0] == s[|s| - |u|];
    }
  }
}
