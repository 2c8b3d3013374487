/**
  The line shapes that `parse_iwyu_output.py` recognizes: its regular expressions
  as deterministic matchers, and blanks as `str.strip` sees them.
 */
module IwyuText {
  import opened Outcomes

  /** The blanks of Latin-1 text. */
  predicate IsSpace(c: char) {
    var n := c as int;
    9 <= n <= 13 || 28 <= n <= 32 || n == 133 || n == 160
  }

  predicate StartsWith(s: string, p: string) { |p| <= |s| && s[..|p|] == p }

  function StripLeft(s: string): string { if s != [] && IsSpace(s[0]) then StripLeft(s[1..]) else s }

  function StripRight(s: string): string
    decreases |s|
  {
    if s != [] && IsSpace(s[|s| - 1]) then StripRight(s[..|s| - 1]) else s
  }

  function Strip(s: string): string { StripRight(StripLeft(s)) }

  /** No blank at either end. */
  predicate Trimmed(s: string) { s == [] || (!IsSpace(s[0]) && !IsSpace(s[|s| - 1])) }

  lemma {:induction false} StripRightKeepsFront(s: string)
    requires s == [] || !IsSpace(s[0])
    ensures Trimmed(StripRight(s))
    decreases |s|
  {
    if s != [] && IsSpace(s[|s| - 1]) {
      StripRightKeepsFront(s[..|s| - 1]);
    }
  }

  lemma {:induction false} StripLeftFront(s: string)
    ensures StripLeft(s) == [] || !IsSpace(StripLeft(s)[0])
  {
    if s != [] && IsSpace(s[0]) {
      StripLeftFront(s[1..]);
    }
  }

  /** Stripping trims, and leaves trimmed text alone. */
  lemma StripTrims(s: string)
    ensures Trimmed(Strip(s))
    ensures Trimmed(s) ==> Strip(s) == s
  {
    StripLeftFront(s);
    StripRightKeepsFront(StripLeft(s));
  }

  ghost predicate Blanks(s: string) { forall i :: 0 <= i < |s| ==> IsSpace(s[i]) }

  /** Tab to carriage return, the four separators, the blank, NEL and the no-break blank. */
  lemma BlankChars(c: char)
    ensures IsSpace(c) <==> c in {'\t', '\n', '\U{0B}', '\U{0C}', '\r', '\U{1C}', '\U{1D}', '\U{1E}', '\U{1F}', ' ',
                                  '\U{85}', '\U{A0}'}
  {
  }

  lemma {:induction false} StripLeftTakes(s: string) returns (front: string)
    ensures Blanks(front) && s == front + StripLeft(s)
  {
    front := "";
    if s != [] && IsSpace(s[0]) {
      var more := StripLeftTakes(s[1..]);
      front := [s[0]] + more;
    }
  }

  lemma {:induction false} StripRightTakes(s: string) returns (back: string)
    ensures Blanks(back) && s == StripRight(s) + back
    decreases |s|
  {
    back := "";
    if s != [] && IsSpace(s[|s| - 1]) {
      var more := StripRightTakes(s[..|s| - 1]);
      back := more + [s[|s| - 1]];
    }
  }

  /** What is stripped is blanks at either end, and all of them. */
  lemma StripIs(s: string)
    ensures Trimmed(Strip(s))
    ensures exists front, back :: Blanks(front) && Blanks(back) && s == front + Strip(s) + back
  {
    StripTrims(s);
    var front := StripLeftTakes(s);
    var back := StripRightTakes(StripLeft(s));
    assert s == front + Strip(s) + back;
  }

  lemma StripBlanks(s: string)
    ensures Strip(s) == "" <==> Blanks(s)
  {
    StripIs(s);
    var front, back :| Blanks(front) && Blanks(back) && s == front + Strip(s) + back;
    assert Strip(s) != "" ==> s[|front|] == Strip(s)[0];
  }

  // ------------------------------------------------------------------- headers

  /** Length of the run of non-blanks (`\S*`) that `s` starts with. */
  function RunLength(s: string): (n: nat)
    ensures n <= |s| && (forall i :: 0 <= i < n ==> !IsSpace(s[i])) && (n < |s| ==> IsSpace(s[n]))
  {
    if s == [] || IsSpace(s[0]) then 0 else 1 + RunLength(s[1..])
  }

  /** `(\/\S+)` followed by `suffix`, which starts with a blank. */
  function PathBefore(s: string, suffix: string): Option<string> {
    var n := RunLength(s);
    if n >= 2 && s[0] == '/' && StartsWith(s[n..], suffix) then Some(s[..n]) else None
  }

  const ADD_TEXT := " should add these lines:"
  const REMOVE_TEXT := " should remove these lines:"
  const FULL_TEXT := "The full include-list for "

  function AddHeader(s: string): Option<string> { PathBefore(s, ADD_TEXT) }

  function RemoveHeader(s: string): Option<string> { PathBefore(s, REMOVE_TEXT) }

  /** `FULL_TEXT`, then `\/\S+:`; the run of non-blanks must hold a colon after its second character. */
  predicate FullHeader(s: string) {
    StartsWith(s, FULL_TEXT) &&
    var path := s[|FULL_TEXT|..];
    RunLength(path) > 0 && path[0] == '/' && exists k :: 2 <= k < RunLength(path) && path[k] == ':'
  }

  predicate IsSeparator(s: string) { Strip(s) == "---" }

  predicate IsHeader(s: string) {
    AddHeader(s).Some? || RemoveHeader(s).Some? || FullHeader(s) || IsSeparator(s)
  }

  predicate IsPath(f: string) { |f| >= 2 && f[0] == '/' && RunLength(f) == |f| }

  lemma RunIs(f: string)
    ensures RunLength(f) == |f| <==> forall i :: 0 <= i < |f| ==> !IsSpace(f[i])
  {
  }

  /** The path a header names, behind which the text follows. */
  lemma PathBeforeIff(s: string, f: string, suffix: string)
    requires suffix != [] && IsSpace(suffix[0])
    ensures PathBefore(s, suffix) == Some(f) <==> IsPath(f) && exists rest :: s == f + suffix + rest
  {
    if PathBefore(s, suffix) == Some(f) {
      var rest := s[|f|..];
      RunIs(f);
      assert s == f + suffix + rest[|suffix|..];
    }
    if rest :| IsPath(f) && s == f + suffix + rest {
      RunIs(f);
      RunOf(f, suffix + rest);
      assert s == f + (suffix + rest);
      assert s[|f|..] == suffix + rest && s[..|f|] == f;
    }
  }

  /** A line opens an addition section exactly when it is a path and the words behind it, with anything following. */
  lemma AddHeaderIff(s: string, f: string)
    ensures AddHeader(s) == Some(f) <==> IsPath(f) && exists rest :: s == f + " should add these lines:" + rest
  {
    HeaderTexts();
    PathBeforeIff(s, f, ADD_TEXT);
  }

  lemma RemoveHeaderIff(s: string, f: string)
    ensures RemoveHeader(s) == Some(f) <==> IsPath(f) && exists rest :: s == f + " should remove these lines:" + rest
  {
    HeaderTexts();
    PathBeforeIff(s, f, REMOVE_TEXT);
  }

  lemma {:induction false} RunAtLeast(s: string, n: nat)
    requires n <= |s| && forall i :: 0 <= i < n ==> !IsSpace(s[i])
    ensures RunLength(s) >= n
  {
    if n > 0 {
      RunAtLeast(s[1..], n - 1);
    }
  }

  lemma ColonBehindPath(path: string, k: nat)
    requires 2 <= k < RunLength(path) && path[k] == ':' && path[0] == '/'
    ensures exists f, rest :: IsPath(f) && path == f + ":" + rest
  {
    RunIs(path[..k]);
    assert IsPath(path[..k]) && path == path[..k] + ":" + path[k + 1..];
  }

  lemma PathWithColon(path: string)
    ensures RunLength(path) > 0 && path[0] == '/' && (exists k :: 2 <= k < RunLength(path) && path[k] == ':')
       <==> exists f, rest :: IsPath(f) && path == f + ":" + rest
  {
    if k :| 2 <= k < RunLength(path) && path[k] == ':' && path[0] == '/' {
      ColonBehindPath(path, k);
    }
    if f, rest :| IsPath(f) && path == f + ":" + rest {
      RunIs(f);
      RunAtLeast(path, |f| + 1);
      assert path[0] == f[0] && path[|f|] == ':';
    }
  }

  lemma BehindPrefix(s: string, p: string)
    ensures (exists f, rest :: IsPath(f) && s == p + f + ":" + rest)
       <==> StartsWith(s, p) && exists f, rest :: IsPath(f) && s[|p|..] == f + ":" + rest
  {
    if f, rest :| IsPath(f) && s == p + f + ":" + rest {
      assert s[..|p|] == p && s[|p|..] == f + ":" + rest;
    }
    if f, rest :| IsPath(f) && StartsWith(s, p) && s[|p|..] == f + ":" + rest {
      assert s == p + f + ":" + rest;
    }
  }

  /** A line opens a full list exactly when a path and a colon follow the words. */
  lemma FullHeaderIff(s: string)
    ensures FullHeader(s) <==> exists f, rest :: IsPath(f) && s == "The full include-list for " + f + ":" + rest
  {
    BehindPrefix(s, FULL_TEXT);
    if StartsWith(s, FULL_TEXT) {
      PathWithColon(s[|FULL_TEXT|..]);
    }
  }

  lemma SeparatorStart(s: string)
    requires IsSeparator(s)
    ensures s != [] && (IsSpace(s[0]) || s[0] == '-')
  {
    StripIs(s);
    var front, back :| Blanks(front) && Blanks(back) && s == front + Strip(s) + back;
    if front == [] {
      assert s[0] == Strip(s)[0];
    } else {
      assert s[0] == front[0];
    }
  }

  /** A line has one of the four shapes at most. */
  lemma ShapesDiffer(s: string)
    ensures AddHeader(s).Some? ==> RemoveHeader(s).None? && !FullHeader(s) && !IsSeparator(s)
    ensures RemoveHeader(s).Some? ==> !FullHeader(s) && !IsSeparator(s)
    ensures FullHeader(s) ==> !IsSeparator(s)
  {
    HeaderTexts();
    if FullHeader(s) {
      assert s[0] == FULL_TEXT[0] == 'T';
    }
    if IsSeparator(s) {
      SeparatorStart(s);
    }
    assert REMOVE_TEXT[8] == 'r' && ADD_TEXT[8] == 'a';
  }

  lemma {:induction false} RunOf(f: string, rest: string)
    requires RunLength(f) == |f| && rest != [] && IsSpace(rest[0])
    ensures RunLength(f + rest) == |f|
  {
    if f == [] {
      assert f + rest == rest;
    } else {
      assert (f + rest)[1..] == f[1..] + rest;
      RunOf(f[1..], rest);
    }
  }

  /** A header names the path it was written for. */
  lemma PathBeforeText(f: string, text: string, suffix: string)
    requires IsPath(f) && text != [] && IsSpace(text[0])
    ensures PathBefore(f + text, suffix) == if StartsWith(text, suffix) then Some(f) else None
  {
    RunOf(f, text);
    assert (f + text)[|f|..] == text && (f + text)[..|f|] == f;
  }

  lemma HeaderTexts()
    ensures ADD_TEXT != [] && IsSpace(ADD_TEXT[0]) && REMOVE_TEXT != [] && IsSpace(REMOVE_TEXT[0])
    ensures StartsWith(ADD_TEXT, ADD_TEXT) && StartsWith(REMOVE_TEXT, REMOVE_TEXT) && !StartsWith(REMOVE_TEXT, ADD_TEXT)
  {
    assert ADD_TEXT[8] == 'a' && REMOVE_TEXT[8] == 'r';
  }

  lemma AddHeaderText(f: string)
    requires IsPath(f)
    ensures AddHeader(f + ADD_TEXT) == Some(f)
  {
    HeaderTexts();
    PathBeforeText(f, ADD_TEXT, ADD_TEXT);
  }

  lemma RemoveHeaderText(f: string)
    requires IsPath(f)
    ensures AddHeader(f + REMOVE_TEXT) == None && RemoveHeader(f + REMOVE_TEXT) == Some(f)
  {
    HeaderTexts();
    PathBeforeText(f, REMOVE_TEXT, ADD_TEXT);
    PathBeforeText(f, REMOVE_TEXT, REMOVE_TEXT);
  }

  lemma {:induction false} RunWithColon(f: string)
    requires RunLength(f) == |f|
    ensures RunLength(f + ":") == |f| + 1
  {
    if f == [] {
      assert f + ":" == ":" && ":"[1..] == [];
    } else {
      assert (f + ":")[1..] == f[1..] + ":";
      RunWithColon(f[1..]);
    }
  }

  lemma FullHeaderText(f: string)
    requires IsPath(f)
    ensures var s := FULL_TEXT + f + ":"; FullHeader(s) && AddHeader(s) == None && RemoveHeader(s) == None
  {
    var s := FULL_TEXT + f + ":";
    RunWithColon(f);
    assert s[..|FULL_TEXT|] == FULL_TEXT && s[|FULL_TEXT|..] == f + ":";
    assert (f + ":")[|f|] == ':';
    assert s[0] == FULL_TEXT[0] == 'T';
  }

  lemma SeparatorText()
    ensures IsSeparator("---") && AddHeader("---") == None && RemoveHeader("---") == None && !FullHeader("---")
  {
    StripTrims("---");
    assert "---"[0] == '-' && FULL_TEXT[0] == 'T';
  }

  lemma BlankText()
    ensures !IsHeader("") && Strip("") == ""
  {
    StripTrims("");
    assert |"---"| == 3 && |FULL_TEXT| > 0;
  }

  // ------------------------------------------------------------------ includes

  const INCLUDE_TEXT := "#include"

  function SpaceLength(s: string): (n: nat)
    ensures n <= |s| && (forall i :: 0 <= i < n ==> IsSpace(s[i])) && (n < |s| ==> !IsSpace(s[n]))
  {
    if s != [] && IsSpace(s[0]) then 1 + SpaceLength(s[1..]) else 0
  }

  predicate IsCloser(c: char) { c == '"' || c == '>' }

  /** Length of the run without closing marks (`[^">]*`) that `s` starts with. */
  function NameLength(s: string): (n: nat)
    ensures n <= |s| && (forall i :: 0 <= i < n ==> !IsCloser(s[i])) && (n < |s| ==> IsCloser(s[n]))
  {
    if s != [] && !IsCloser(s[0]) then 1 + NameLength(s[1..]) else 0
  }

  /** An include directive at the very start of `s`. */
  function IncludeAt(s: string): Option<string> {
    if !StartsWith(s, INCLUDE_TEXT) then None
    else
      var afterWord := s[|INCLUDE_TEXT|..];
      var blanks := SpaceLength(afterWord);
      var quoted := afterWord[blanks..];
      if blanks == 0 || quoted == [] || !(quoted[0] == '<' || quoted[0] == '"') then None
      else
        var name := quoted[1..];
        var n := NameLength(name);
        if n > 0 && n < |name| then Some(name[..n]) else None
  }

  /** `extract_include_file`: the first include directive anywhere in the line. */
  function ExtractIncludeFile(s: string): Option<string> {
    if s == [] then None
    else if IncludeAt(s).Some? then IncludeAt(s)
    else ExtractIncludeFile(s[1..])
  }

  predicate HasInclude(s: string) { ExtractIncludeFile(s).Some? }

  /**
    The text opens with a directive: the word, `b` blanks, an opening mark, a name of
    length `n` without closing marks, and a closing mark.
   */
  ghost predicate Opens(s: string, b: int, n: int) {
    && b > 0 && n > 0 && 9 + b + n < |s|
    && s[..8] == "#include"
    && (forall i :: 8 <= i < 8 + b ==> IsSpace(s[i]))
    && (s[8 + b] == '<' || s[8 + b] == '"')
    && (forall i :: 9 + b <= i < 9 + b + n ==> s[i] != '"' && s[i] != '>')
    && (s[9 + b + n] == '"' || s[9 + b + n] == '>')
  }

  lemma {:induction false} SpaceLengthIs(s: string, n: nat)
    requires n < |s| && (forall i :: 0 <= i < n ==> IsSpace(s[i])) && !IsSpace(s[n])
    ensures SpaceLength(s) == n
  {
    if n > 0 {
      SpaceLengthIs(s[1..], n - 1);
    }
  }

  lemma {:induction false} NameLengthIs(s: string, n: nat)
    requires n < |s| && (forall i :: 0 <= i < n ==> !IsCloser(s[i])) && IsCloser(s[n])
    ensures NameLength(s) == n
  {
    if n > 0 {
      NameLengthIs(s[1..], n - 1);
    }
  }

  lemma QuotedName(s: string, b: nat)
    requires 9 + b <= |s|
    ensures s[8..][b..] == s[8 + b..] && s[8 + b..][1..] == s[9 + b..]
  {
  }

  /** A directive at the start is found, with its name. */
  lemma DirectiveFound(s: string, b: int, n: int)
    requires Opens(s, b, n)
    ensures IncludeAt(s) == Some(s[9 + b..9 + b + n])
  {
    var afterWord, name := s[8..], s[9 + b..];
    assert forall i :: 0 <= i < b ==> afterWord[i] == s[8 + i];
    SpaceLengthIs(afterWord, b);
    QuotedName(s, b);
    assert forall i :: 0 <= i < n ==> name[i] == s[9 + b + i];
    NameLengthIs(name, n);
    assert |INCLUDE_TEXT| == 8 && s[..8] == INCLUDE_TEXT;
    assert name[..n] == s[9 + b..9 + b + n];
  }

  /** What is found at the start is a directive. */
  lemma FoundDirective(s: string)
    requires IncludeAt(s).Some?
    ensures exists b, n :: Opens(s, b, n)
  {
    assert |INCLUDE_TEXT| == 8;
    var afterWord := s[8..];
    var b := SpaceLength(afterWord);
    QuotedName(s, b);
    var name := s[9 + b..];
    var n := NameLength(name);
    assert forall i :: 8 <= i < 8 + b ==> s[i] == afterWord[i - 8];
    assert forall i :: 9 + b <= i < 9 + b + n ==> s[i] == name[i - 9 - b];
    assert s[9 + b + n] == name[n];
    assert Opens(s, b, n);
  }

  /** Some directive opens the text. */
  ghost predicate OpensDirective(s: string) { exists b, n :: Opens(s, b, n) }

  lemma IncludeAtIff(s: string)
    ensures IncludeAt(s).Some? <==> OpensDirective(s)
  {
    if IncludeAt(s).Some? {
      FoundDirective(s);
    }
    if b, n :| Opens(s, b, n) {
      DirectiveFound(s, b, n);
    }
  }

  /** No directive starts before place `k` of the line. */
  ghost predicate NoneBefore(s: string, k: nat)
    requires k <= |s|
  {
    forall j :: 0 <= j < k ==> !OpensDirective(s[j..])
  }

  lemma NoneBeforeTail(s: string, k: nat)
    requires 0 < k <= |s| && NoneBefore(s, k)
    ensures NoneBefore(s[1..], k - 1) && IncludeAt(s).None?
  {
    assert s[0..] == s;
    IncludeAtIff(s);
    forall j | 0 <= j < k - 1 ensures !OpensDirective(s[1..][j..]) {
      assert s[1..][j..] == s[j + 1..];
    }
  }

  lemma {:induction false} FoundFirst(s: string, k: nat)
    requires k < |s| && NoneBefore(s, k) && IncludeAt(s[k..]).Some?
    ensures ExtractIncludeFile(s) == IncludeAt(s[k..])
  {
    if k == 0 {
      assert s[0..] == s;
    } else {
      NoneBeforeTail(s, k);
      assert s[1..][k - 1..] == s[k..];
      FoundFirst(s[1..], k - 1);
    }
  }

  lemma {:induction false} FoundNowhere(s: string)
    ensures ExtractIncludeFile(s) == None <==> NoneBefore(s, |s|)
  {
    if s != [] {
      FoundNowhere(s[1..]);
      IncludeAtIff(s);
      assert s[0..] == s;
      if NoneBefore(s, |s|) {
        NoneBeforeTail(s, |s|);
      } else if NoneBefore(s[1..], |s| - 1) && IncludeAt(s).None? {
        forall j | 0 <= j < |s| ensures !OpensDirective(s[j..]) {
          assert j > 0 ==> s[j..] == s[1..][j - 1..];
        }
      }
    }
  }

  /** The path of a line is the name in its first directive; without a directive there is none. */
  lemma ExtractedPath(s: string)
    ensures forall k, b, n :: 0 <= k < |s| && Opens(s[k..], b, n) && NoneBefore(s, k) ==>
        ExtractIncludeFile(s) == Some(s[k..][9 + b..9 + b + n])
    ensures ExtractIncludeFile(s) == None <==> NoneBefore(s, |s|)
  {
    FoundNowhere(s);
    forall k, b, n | 0 <= k < |s| && Opens(s[k..], b, n) && NoneBefore(s, k)
      ensures ExtractIncludeFile(s) == Some(s[k..][9 + b..9 + b + n])
    {
      DirectiveFound(s[k..], b, n);
      FoundFirst(s, k);
    }
  }

  function DirectiveText(blanks: string, open: char, name: string, close: char, rest: string): string {
    "#include" + (blanks + ([open] + (name + ([close] + rest))))
  }

  lemma DirectivePlaces(blanks: string, open: char, name: string, close: char, rest: string)
    ensures var s, b, n := DirectiveText(blanks, open, name, close, rest), |blanks|, |name|;
            && |s| == 8 + b + 1 + n + 1 + |rest| && s[..8] == "#include"
            && s[8..8 + b] == blanks && s[8 + b] == open
            && s[9 + b..9 + b + n] == name && s[9 + b + n] == close
  {
    var s, b := DirectiveText(blanks, open, name, close, rest), |blanks|;
    assert s[8..] == blanks + ([open] + (name + ([close] + rest)));
    assert s[9 + b..] == name + ([close] + rest) by {
      assert s[8..][b..] == [open] + (name + ([close] + rest));
      QuotedName(s, b);
    }
    assert s[9 + b..][..|name|] == name;
    assert s[9 + b..9 + b + |name|] == s[9 + b..][..|name|];
    assert s[8..8 + b] == s[8..][..b];
  }

  lemma TextOpens(blanks: string, open: char, name: string, close: char, rest: string)
    requires blanks != [] && Blanks(blanks) && (open == '<' || open == '"')
    requires name != [] && '"' !in name && '>' !in name && (close == '"' || close == '>')
    ensures var t, b, n := DirectiveText(blanks, open, name, close, rest), |blanks|, |name|;
            Opens(t, b, n) && t[9 + b..9 + b + n] == name
  {
    var t, b, n := DirectiveText(blanks, open, name, close, rest), |blanks|, |name|;
    DirectivePlaces(blanks, open, name, close, rest);
    assert forall i :: 8 <= i < 8 + b ==> t[i] == t[8..8 + b][i - 8];
    assert forall i :: 9 + b <= i < 9 + b + n ==> t[i] == t[9 + b..9 + b + n][i - 9 - b];
  }

  /** A written directive is read back, whatever stands behind it, if none starts in front of it. */
  lemma IncludeText(front: string, blanks: string, open: char, name: string, close: char, rest: string)
    requires blanks != [] && Blanks(blanks) && (open == '<' || open == '"')
    requires name != [] && '"' !in name && '>' !in name && (close == '"' || close == '>')
    requires NoneBefore(front + DirectiveText(blanks, open, name, close, rest), |front|)
    ensures ExtractIncludeFile(front + DirectiveText(blanks, open, name, close, rest)) == Some(name)
  {
    var t := DirectiveText(blanks, open, name, close, rest);
    var s := front + t;
    assert s[|front|..] == t;
    TextOpens(blanks, open, name, close, rest);
    ExtractedPath(s);
  }
}
