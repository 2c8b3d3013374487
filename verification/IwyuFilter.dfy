/**
  The include-what-you-use filter: a parser that is a state machine over lines, an
  in-place clean-up of what was parsed, and a printer whose output is parsed again.
 */
module IwyuFilter {
  import opened Outcomes
  import opened Sequences
  import opened Totals
  import opened IwyuText

  /** What is known of one file; the files are kept in the order they were first named. */
  datatype Mods = Mods(file: string, add: seq<string>, remove: seq<string>, full: seq<string>)

  datatype Mode = NORMAL | ADD | REMOVE | FULL_INCLUDE_LIST

  // ------------------------------------------------------------------- parser

  datatype State = State(mods: seq<Mods>, current: Option<string>, mode: Mode, printed: seq<string>)

  const START := State([], None, NORMAL, [])

  predicate Names(mods: seq<Mods>, file: string) { exists i :: 0 <= i < |mods| && mods[i].file == file }

  /** `setdefault`: an entry named before keeps its lists. */
  function SetDefault(mods: seq<Mods>, file: string): seq<Mods> {
    if Names(mods, file) then mods else mods + [Mods(file, [], [], [])]
  }

  function AddTo(m: Mods, mode: Mode, line: string): Mods {
    match mode
    case NORMAL => m
    case ADD => m.(add := m.add + [line])
    case REMOVE => m.(remove := m.remove + [line])
    case FULL_INCLUDE_LIST => m.(full := m.full + [line])
  }

  /** Appends a line to the list that the mode selects, in the entry of `file`. */
  function AddLine(mods: seq<Mods>, file: string, mode: Mode, line: string): (r: seq<Mods>)
    ensures |r| == |mods|
    ensures forall i :: 0 <= i < |mods| ==> r[i] == if mods[i].file == file then AddTo(mods[i], mode, line) else mods[i]
  {
    seq(|mods|, i requires 0 <= i < |mods| => if mods[i].file == file then AddTo(mods[i], mode, line) else mods[i])
  }

  predicate Has(line: string, part: string) { exists i :: 0 <= i <= |line| && StartsWith(line[i..], part) }

  /** Lines that neither belong to a section nor come from the tool's own reports are passed on. */
  predicate IsPassedOn(line: string) {
    && Strip(line) != ""
    && !Has(line, "include-what-you-use reported diagnostics")
    && !Has(line, "In file included from")
    && !Has(line, "has correct #includes/fwd-decls")
  }

  lemma HasIff(line: string, part: string)
    ensures Has(line, part) <==> exists before, behind :: line == before + part + behind
  {
    if i :| 0 <= i <= |line| && StartsWith(line[i..], part) {
      assert line == line[..i] + part + line[i + |part|..];
    }
    if before, behind :| line == before + part + behind {
      assert line[|before|..] == part + behind;
    }
  }

  /** Text around a part. */
  ghost predicate Around(line: string, part: string) { exists before, behind :: line == before + part + behind }

  /** Blank lines and the tool's own reports are not passed on. */
  lemma PassedOnIff(line: string)
    ensures IsPassedOn(line)
       <==> && !Blanks(line)
            && !Around(line, "include-what-you-use reported diagnostics") && !Around(line, "In file included from")
            && !Around(line, "has correct #includes/fwd-decls")
  {
    HasIff(line, "include-what-you-use reported diagnostics");
    HasIff(line, "In file included from");
    HasIff(line, "has correct #includes/fwd-decls");
    StripBlanks(line);
  }

  function Step(s: State, line: string): State {
    if AddHeader(line).Some? then
      State(SetDefault(s.mods, AddHeader(line).value), AddHeader(line), ADD, s.printed)
    else if RemoveHeader(line).Some? then s.(mode := REMOVE)
    else if FullHeader(line) then s.(mode := FULL_INCLUDE_LIST)
    else if IsSeparator(line) then s.(current := None, mode := NORMAL)
    else if s.current.Some? then s.(mods := AddLine(s.mods, s.current.value, s.mode, Strip(line)))
    else if IsPassedOn(line) then s.(printed := s.printed + [line])
    else s
  }

  function Run(s: State, lines: seq<string>): State
    decreases |lines|
  {
    if lines == [] then s else Run(Step(s, lines[0]), lines[1..])
  }

  lemma {:induction false} RunConcat(s: State, a: seq<string>, b: seq<string>)
    ensures Run(s, a + b) == Run(Run(s, a), b)
    decreases |a|
  {
    if a == [] {
      assert a + b == b;
    } else {
      assert (a + b)[1..] == a[1..] + b;
      RunConcat(Step(s, a[0]), a[1..], b);
    }
  }

  lemma RunSnoc(s: State, lines: seq<string>, i: nat)
    requires i < |lines|
    ensures Run(s, lines[..i + 1]) == Step(Run(s, lines[..i]), lines[i])
  {
    assert lines[..i + 1] == lines[..i] + [lines[i]];
    RunConcat(s, lines[..i], [lines[i]]);
  }

  // ----------------------------------------------------- what the sections hold

  datatype Shape = Addition(path: string) | Removal | FullList | Separator | Plain

  function ShapeOf(line: string): Shape {
    if AddHeader(line).Some? then Addition(AddHeader(line).value)
    else if RemoveHeader(line).Some? then Removal
    else if FullHeader(line) then FullList
    else if IsSeparator(line) then Separator
    else Plain
  }

  /** The text of the line decides its shape. */
  lemma ShapeIff(line: string)
    ensures forall f ::
        ShapeOf(line) == Addition(f) <==> IsPath(f) && exists rest :: line == f + " should add these lines:" + rest
    ensures ShapeOf(line) == Removal
       <==> exists f, rest :: IsPath(f) && line == f + " should remove these lines:" + rest
    ensures ShapeOf(line) == FullList
       <==> exists f, rest :: IsPath(f) && line == "The full include-list for " + f + ":" + rest
    ensures ShapeOf(line) == Separator <==> Strip(line) == "---"
  {
    ShapesDiffer(line);
    FullHeaderIff(line);
    forall f ensures ShapeOf(line) == Addition(f) <==> AddHeader(line) == Some(f) {}
    forall f { AddHeaderIff(line, f); }
    forall f { RemoveHeaderIff(line, f); }
    assert RemoveHeader(line).Some? <==> exists f :: RemoveHeader(line) == Some(f);
  }

  function Shapes(input: seq<string>): (shapes: seq<Shape>)
    ensures |shapes| == |input| && forall i :: 0 <= i < |input| ==> shapes[i] == ShapeOf(input[i])
  {
    seq(|input|, i requires 0 <= i < |input| => ShapeOf(input[i]))
  }

  /** Behind line `n` the current file is `f`: it was named, and no separator or other file came since. */
  ghost predicate FileAt(shapes: seq<Shape>, n: nat, f: string)
    requires n <= |shapes|
  {
    exists j :: 0 <= j < n && shapes[j] == Addition(f)
             && forall i :: j < i < n ==> !shapes[i].Addition? && !shapes[i].Separator?
  }

  ghost predicate NoFileAt(shapes: seq<Shape>, n: nat)
    requires n <= |shapes|
  {
    forall f :: !FileAt(shapes, n, f)
  }

  function ModeOf(header: Shape): Mode {
    match header
    case Addition(_) => ADD
    case Removal => REMOVE
    case FullList => FULL_INCLUDE_LIST
    case _ => NORMAL
  }

  /** The last header or separator before line `n` opened a section of this kind. */
  ghost predicate ModeAt(shapes: seq<Shape>, n: nat, mode: Mode)
    requires n <= |shapes|
  {
    (mode == NORMAL && forall i :: 0 <= i < n ==> shapes[i] == Plain)
    || exists h :: 0 <= h < n && shapes[h] != Plain && ModeOf(shapes[h]) == mode
                && forall i :: h < i < n ==> shapes[i] == Plain
  }

  /** Line `i` is listed for file `f` in the section of kind `mode`. */
  ghost predicate BelongsTo(shapes: seq<Shape>, i: nat, f: string, mode: Mode)
    requires i < |shapes|
  {
    shapes[i] == Plain && FileAt(shapes, i, f) && ModeAt(shapes, i, mode)
  }

  /** The lines among the first `n` that are listed for `f` in sections of kind `mode`, stripped and in order. */
  ghost function Section(input: seq<string>, shapes: seq<Shape>, n: nat, f: string, mode: Mode): seq<string>
    requires n <= |input| == |shapes|
  {
    if n == 0 then []
    else
      Section(input, shapes, n - 1, f, mode)
      + if BelongsTo(shapes, n - 1, f, mode) then [Strip(input[n - 1])] else []
  }

  /** The files named by the first `n` lines, in the order they were first named. */
  function FilesNamed(shapes: seq<Shape>, n: nat): seq<string>
    requires n <= |shapes|
  {
    if n == 0 then []
    else
      var before, shape := FilesNamed(shapes, n - 1), shapes[n - 1];
      if shape.Addition? && shape.path !in before then before + [shape.path] else before
  }

  /** The lines among the first `n` that stand in no file's sections and are passed on. */
  ghost function PassedOn(input: seq<string>, shapes: seq<Shape>, n: nat): seq<string>
    requires n <= |input| == |shapes|
  {
    if n == 0 then []
    else
      PassedOn(input, shapes, n - 1)
      + if shapes[n - 1] == Plain && IsPassedOn(input[n - 1]) && NoFileAt(shapes, n - 1) then [input[n - 1]] else []
  }

  /** `mods` holds the sections of the first `n` lines, file by file. */
  ghost predicate HoldsSections(mods: seq<Mods>, input: seq<string>, shapes: seq<Shape>, n: nat)
    requires n <= |input| == |shapes|
  {
    && Image(mods, FileName()) == FilesNamed(shapes, n)
    && forall i :: 0 <= i < |mods| ==> HoldsSection(mods[i], input, shapes, n)
  }

  ghost predicate HoldsSection(m: Mods, input: seq<string>, shapes: seq<Shape>, n: nat)
    requires n <= |input| == |shapes|
  {
    && m.add == Section(input, shapes, n, m.file, ADD)
    && m.remove == Section(input, shapes, n, m.file, REMOVE)
    && m.full == Section(input, shapes, n, m.file, FULL_INCLUDE_LIST)
  }

  function FileName(): Mods -> string { (m: Mods) => m.file }

  /** The step, told by the shape of the line. */
  function ShapeStep(s: State, line: string, shape: Shape): State {
    match shape
    case Addition(f) => State(SetDefault(s.mods, f), Some(f), ADD, s.printed)
    case Removal => s.(mode := REMOVE)
    case FullList => s.(mode := FULL_INCLUDE_LIST)
    case Separator => s.(current := None, mode := NORMAL)
    case Plain =>
      if s.current.Some? then s.(mods := AddLine(s.mods, s.current.value, s.mode, Strip(line)))
      else if IsPassedOn(line) then s.(printed := s.printed + [line])
      else s
  }

  lemma StepByShape(s: State, line: string)
    ensures Step(s, line) == ShapeStep(s, line, ShapeOf(line))
  {
  }

  /** The states between the lines. */
  ghost predicate IsTrace(states: seq<State>, input: seq<string>, shapes: seq<Shape>) {
    && |states| == |input| + 1 == |shapes| + 1 && states[0] == START
    && forall i :: 0 <= i < |input| ==> states[i + 1] == ShapeStep(states[i], input[i], shapes[i])
  }

  lemma RunTrace(input: seq<string>) returns (states: seq<State>)
    ensures IsTrace(states, input, Shapes(input)) && states[|input|] == Run(START, input)
  {
    states := seq(|input| + 1, i requires 0 <= i <= |input| => Run(START, input[..i]));
    forall i | 0 <= i < |input| ensures states[i + 1] == ShapeStep(states[i], input[i], Shapes(input)[i]) {
      RunSnoc(START, input, i);
      StepByShape(Run(START, input[..i]), input[i]);
    }
    assert input[..0] == [] && input[..|input|] == input;
  }

  lemma OneMode(shapes: seq<Shape>, n: nat, mode: Mode, other: Mode)
    requires n <= |shapes| && ModeAt(shapes, n, mode) && ModeAt(shapes, n, other)
    ensures mode == other
  {
  }

  /** One more line: the current file. */
  lemma NextFile(shapes: seq<Shape>, n: nat, f: string)
    requires n < |shapes|
    ensures FileAt(shapes, n + 1, f)
        <==> if shapes[n].Addition? then shapes[n].path == f else shapes[n] != Separator && FileAt(shapes, n, f)
  {
  }

  /** One more line: the kind of section. */
  lemma NextMode(shapes: seq<Shape>, n: nat, mode: Mode)
    requires n < |shapes| && ModeAt(shapes, n, mode)
    ensures ModeAt(shapes, n + 1, if shapes[n] == Plain then mode else ModeOf(shapes[n]))
  {
  }

  /** Behind line `n` the parser knows the current file. */
  ghost predicate KnowsFile(s: State, shapes: seq<Shape>, n: nat)
    requires n <= |shapes|
  {
    forall f :: FileAt(shapes, n, f) <==> s.current == Some(f)
  }

  /** A file not named yet has no lines. */
  lemma {:induction false} NotNamedYet(input: seq<string>, shapes: seq<Shape>, n: nat, f: string, mode: Mode)
    requires n <= |input| == |shapes| && f !in FilesNamed(shapes, n)
    ensures Section(input, shapes, n, f, mode) == [] && !FileAt(shapes, n, f)
  {
    if n > 0 {
      NotNamedYet(input, shapes, n - 1, f, mode);
      NextFile(shapes, n - 1, f);
    }
  }

  lemma NamesAreFiles(mods: seq<Mods>, file: string)
    ensures Names(mods, file) <==> file in Image(mods, FileName())
  {
    if i :| 0 <= i < |mods| && mods[i].file == file {
      assert Image(mods, FileName())[i] == file;
    }
  }

  /** A header leaves every section as it was. */
  lemma SectionsAtHeader(m: Mods, input: seq<string>, shapes: seq<Shape>, n: nat)
    requires n < |input| == |shapes| && shapes[n] != Plain && HoldsSection(m, input, shapes, n)
    ensures HoldsSection(m, input, shapes, n + 1)
  {
  }

  lemma StepAtAddition(s: State, input: seq<string>, shapes: seq<Shape>, n: nat)
    requires n < |input| == |shapes| && HoldsSections(s.mods, input, shapes, n) && shapes[n].Addition?
    ensures HoldsSections(ShapeStep(s, input[n], shapes[n]).mods, input, shapes, n + 1)
  {
    var f := shapes[n].path;
    var mods := SetDefault(s.mods, f);
    NamesAreFiles(s.mods, f);
    forall i | 0 <= i < |mods| ensures HoldsSection(mods[i], input, shapes, n + 1) {
      if i == |s.mods| {
        NotNamedYet(input, shapes, n, f, ADD);
        NotNamedYet(input, shapes, n, f, REMOVE);
        NotNamedYet(input, shapes, n, f, FULL_INCLUDE_LIST);
      }
      SectionsAtHeader(mods[i], input, shapes, n);
    }
    assert !Names(s.mods, f) ==> Image(mods, FileName()) == Image(s.mods, FileName()) + [f];
  }

  /** A plain line goes to the section it belongs to. */
  lemma LineAdded(s: State, m: Mods, input: seq<string>, shapes: seq<Shape>, n: nat)
    requires n < |input| == |shapes| && shapes[n] == Plain
    requires KnowsFile(s, shapes, n) && ModeAt(shapes, n, s.mode) && HoldsSection(m, input, shapes, n)
    ensures HoldsSection(if s.current == Some(m.file) then AddTo(m, s.mode, Strip(input[n])) else m, input, shapes,
                         n + 1)
  {
    forall mode ensures BelongsTo(shapes, n, m.file, mode) <==> s.current == Some(m.file) && s.mode == mode {
      if ModeAt(shapes, n, mode) {
        OneMode(shapes, n, mode, s.mode);
      }
    }
  }

  lemma StepAtLine(s: State, input: seq<string>, shapes: seq<Shape>, n: nat)
    requires n < |input| == |shapes| && shapes[n] == Plain
    requires KnowsFile(s, shapes, n) && ModeAt(shapes, n, s.mode) && HoldsSections(s.mods, input, shapes, n)
    ensures HoldsSections(ShapeStep(s, input[n], shapes[n]).mods, input, shapes, n + 1)
  {
    var mods := ShapeStep(s, input[n], shapes[n]).mods;
    forall i | 0 <= i < |mods| ensures mods[i].file == s.mods[i].file && HoldsSection(mods[i], input, shapes, n + 1) {
      LineAdded(s, s.mods[i], input, shapes, n);
    }
    assert Image(mods, FileName()) == Image(s.mods, FileName());
  }

  lemma StepSections(s: State, input: seq<string>, shapes: seq<Shape>, n: nat)
    requires n < |input| == |shapes|
    requires KnowsFile(s, shapes, n) && ModeAt(shapes, n, s.mode) && HoldsSections(s.mods, input, shapes, n)
    ensures HoldsSections(ShapeStep(s, input[n], shapes[n]).mods, input, shapes, n + 1)
  {
    match shapes[n] {
      case Addition(_) => StepAtAddition(s, input, shapes, n);
      case Plain => StepAtLine(s, input, shapes, n);
      case _ =>
        forall i | 0 <= i < |s.mods| ensures HoldsSection(s.mods[i], input, shapes, n + 1) {
          SectionsAtHeader(s.mods[i], input, shapes, n);
        }
    }
  }

  lemma StepPrinted(s: State, input: seq<string>, shapes: seq<Shape>, n: nat)
    requires n < |input| == |shapes| && KnowsFile(s, shapes, n) && s.printed == PassedOn(input, shapes, n)
    ensures ShapeStep(s, input[n], shapes[n]).printed == PassedOn(input, shapes, n + 1)
  {
    assert NoFileAt(shapes, n) <==> s.current.None? by {
      assert s.current.Some? ==> FileAt(shapes, n, s.current.value);
    }
  }

  lemma StepKnows(s: State, line: string, shapes: seq<Shape>, n: nat)
    requires n < |shapes| && KnowsFile(s, shapes, n) && ModeAt(shapes, n, s.mode)
    ensures KnowsFile(ShapeStep(s, line, shapes[n]), shapes, n + 1)
    ensures ModeAt(shapes, n + 1, ShapeStep(s, line, shapes[n]).mode)
  {
    NextMode(shapes, n, s.mode);
    forall f ensures FileAt(shapes, n + 1, f) <==> ShapeStep(s, line, shapes[n]).current == Some(f) {
      NextFile(shapes, n, f);
    }
  }

  lemma {:induction false} TraceKnows(states: seq<State>, input: seq<string>, shapes: seq<Shape>, n: nat)
    requires IsTrace(states, input, shapes) && n <= |input|
    ensures KnowsFile(states[n], shapes, n) && ModeAt(shapes, n, states[n].mode)
  {
    if n > 0 {
      TraceKnows(states, input, shapes, n - 1);
      StepKnows(states[n - 1], input[n - 1], shapes, n - 1);
    }
  }

  /** The states follow the sections, line by line. */
  lemma {:induction false} TraceFollows(states: seq<State>, input: seq<string>, shapes: seq<Shape>, n: nat)
    requires IsTrace(states, input, shapes) && n <= |input|
    ensures HoldsSections(states[n].mods, input, shapes, n) && states[n].printed == PassedOn(input, shapes, n)
  {
    if n > 0 {
      TraceFollows(states, input, shapes, n - 1);
      TraceKnows(states, input, shapes, n - 1);
      StepSections(states[n - 1], input, shapes, n - 1);
      StepPrinted(states[n - 1], input, shapes, n - 1);
    }
  }

  lemma ParsedSections(input: seq<string>)
    ensures HoldsSections(Run(START, input).mods, input, Shapes(input), |input|)
    ensures Run(START, input).printed == PassedOn(input, Shapes(input), |input|)
  {
    var states := RunTrace(input);
    TraceFollows(states, input, Shapes(input), |input|);
  }

  /** The parsing loop. */
  method ParseOutput(input: seq<string>) returns (mods: seq<Mods>, printed: seq<string>)
    ensures mods == Run(START, input).mods && printed == Run(START, input).printed
    ensures HoldsSections(mods, input, Shapes(input), |input|) && printed == PassedOn(input, Shapes(input), |input|)
  {
    ParsedSections(input);
    mods, printed := [], [];
    var currentFile: Option<string> := None;
    var mode := NORMAL;
    for i := 0 to |input|
      invariant State(mods, currentFile, mode, printed) == Run(START, input[..i])
    {
      var line := input[i];
      RunSnoc(START, input, i);
      var path := AddHeader(line);
      if path.Some? {
        currentFile := path;
        mods := SetDefault(mods, path.value);
        mode := ADD;
      } else if RemoveHeader(line).Some? {
        mode := REMOVE;
      } else if FullHeader(line) {
        mode := FULL_INCLUDE_LIST;
      } else if Strip(line) == "---" {
        currentFile, mode := None, NORMAL;
      } else if currentFile.Some? {
        mods := AddLine(mods, currentFile.value, mode, Strip(line));
      } else if IsPassedOn(line) {
        printed := printed + [line];
      }
    }
    assert input[..|input|] == input;
  }

  // ------------------------------------------------------------------ printer

  /** What is written for one file; nothing if there is no line to remove. */
  function Block(m: Mods): seq<string> {
    if m.remove == [] then []
    else [m.file + ADD_TEXT, "", m.file + REMOVE_TEXT] + m.remove + ["", FULL_TEXT + m.file + ":"] + m.full + ["---"]
  }

  function Written(mods: seq<Mods>): seq<string> { Flatten(Image(mods, Block)) }

  lemma WrittenSnoc(mods: seq<Mods>, i: nat)
    requires i < |mods|
    ensures Written(mods[..i + 1]) == Written(mods[..i]) + Block(mods[i])
  {
    assert Image(mods[..i + 1], Block) == Image(mods[..i], Block) + [Block(mods[i])];
    FlattenSnoc(Image(mods[..i], Block), Block(mods[i]));
  }

  method WriteBlock(m: Mods) returns (out: seq<string>)
    requires m.remove != []
    ensures out == Block(m)
    ensures out == [m.file + " should add these lines:", "", m.file + " should remove these lines:"] + m.remove
                   + ["", "The full include-list for " + m.file + ":"] + m.full + ["---"]
  {
    out := [m.file + ADD_TEXT, ""];
    out := out + [m.file + REMOVE_TEXT];
    ghost var front := out;
    for i := 0 to |m.remove|
      invariant out == front + m.remove[..i]
    {
      out := out + [m.remove[i]];
    }
    assert m.remove[..|m.remove|] == m.remove;
    out := out + [""];
    out := out + [FULL_TEXT + m.file + ":"];
    ghost var middle := out;
    for i := 0 to |m.full|
      invariant out == middle + m.full[..i]
    {
      out := out + [m.full[i]];
    }
    assert m.full[..|m.full|] == m.full;
    out := out + ["---"];
  }

  method WriteOutput(mods: seq<Mods>) returns (out: seq<string>)
    ensures out == Written(mods)
  {
    out := [];
    for i := 0 to |mods|
      invariant out == Written(mods[..i])
    {
      WrittenSnoc(mods, i);
      if |mods[i].remove| > 0 {
        var block := WriteBlock(mods[i]);
        out := out + block;
      }
    }
    assert mods[..|mods|] == mods;
  }

  // ----------------------------------------------------------------- clean-up

  /** The include path of a line, or None, as a set element. */
  ghost predicate InFiles(f: Option<string>, lines: seq<string>) {
    exists i :: 0 <= i < |lines| && ExtractIncludeFile(lines[i]) == f
  }

  /** In both lists; a line without an include counts as the path None. */
  ghost predicate InBoth(m: Mods, f: Option<string>) { InFiles(f, m.add) && InFiles(f, m.remove) }

  /** The lines whose path is not in `files`. */
  function Without(lines: seq<string>, files: set<Option<string>>): (r: seq<string>)
    ensures forall l :: l in r <==> l in lines && ExtractIncludeFile(l) !in files
  {
    if lines == [] then []
    else (if ExtractIncludeFile(lines[0]) in files then [] else [lines[0]]) + Without(lines[1..], files)
  }

  /** Nothing else is dropped, repeated or moved. */
  lemma {:induction false} WithoutPicks(lines: seq<string>, files: set<Option<string>>)
    ensures Picks(Without(lines, files), lines, line => ExtractIncludeFile(line) !in files)
  {
    var p := line => ExtractIncludeFile(line) !in files;
    if lines == [] {
      PicksNone(p);
    } else {
      WithoutPicks(lines[1..], files);
      PicksFirst(Without(lines[1..], files), lines, p);
    }
  }

  function FilesOf(lines: seq<string>): (r: set<Option<string>>)
    ensures forall f :: f in r <==> InFiles(f, lines)
  {
    set i | 0 <= i < |lines| :: ExtractIncludeFile(lines[i])
  }

  lemma {:induction false} WithoutDistinct(lines: seq<string>, files: set<Option<string>>)
    requires Distinct(lines)
    ensures Distinct(Without(lines, files))
  {
    if lines != [] {
      WithoutDistinct(lines[1..], files);
      assert lines[0] !in lines[1..];
    }
  }

  /** `list(set(lines))`: each line once, in an order left open. */
  method ListOfSet(lines: seq<string>) returns (r: seq<string>)
    ensures Distinct(r) && forall l :: l in r <==> l in lines
  {
    var rest := set l | l in lines;
    r := [];
    while rest != {}
      invariant Distinct(r) && forall l :: l in lines <==> l in r || l in rest
      invariant forall l :: l in r ==> l !in rest
      decreases |rest|
    {
      var l :| l in rest;
      rest := rest - {l};
      r := r + [l];
    }
  }

  /** What the clean-up may make of one entry. */
  ghost predicate IsCleaned(m: Mods, m': Mods) {
    && m'.file == m.file
    && Distinct(m'.add) && (forall l :: l in m'.add <==> l in m.add && !InBoth(m, ExtractIncludeFile(l)))
    && Distinct(m'.remove) && (forall l :: l in m'.remove <==> l in m.remove && !InBoth(m, ExtractIncludeFile(l)))
    && m'.full == Without(m.full, FilesOf(m.add))
  }

  lemma SameFiles(a: seq<string>, b: seq<string>)
    requires forall l :: l in a <==> l in b
    ensures FilesOf(a) == FilesOf(b)
  {
    forall f ensures InFiles(f, a) <==> InFiles(f, b) {
      if InFiles(f, a) {
        var i :| 0 <= i < |a| && ExtractIncludeFile(a[i]) == f;
        assert a[i] in b;
      }
      if InFiles(f, b) {
        var i :| 0 <= i < |b| && ExtractIncludeFile(b[i]) == f;
        assert b[i] in a;
      }
    }
  }

  method CleanEntry(m: Mods) returns (m': Mods)
    ensures IsCleaned(m, m')
    ensures Picks(m'.full, m.full, line => ExtractIncludeFile(line) !in FilesOf(m.add))
  {
    WithoutPicks(m.full, FilesOf(m.add));
    var add := ListOfSet(m.add);
    var remove := ListOfSet(m.remove);
    var addFiles, removeFiles := FilesOf(add), FilesOf(remove);
    SameFiles(add, m.add);
    SameFiles(remove, m.remove);
    var common := addFiles * removeFiles;
    WithoutDistinct(add, common);
    WithoutDistinct(remove, common);
    m' := Mods(m.file, Without(add, common), Without(remove, common), Without(m.full, addFiles));
    forall f ensures f in common <==> InBoth(m, f) {
      assert f in FilesOf(m.add) <==> InFiles(f, m.add);
      assert f in FilesOf(m.remove) <==> InFiles(f, m.remove);
    }
  }

  ghost predicate AllCleaned(mods: seq<Mods>, mods': seq<Mods>) {
    |mods'| == |mods| && forall i :: 0 <= i < |mods| ==> IsCleaned(mods[i], mods'[i])
  }

  /** Replaces every entry by its clean-up, in place. */
  method PostProcessIncludes(mods: seq<Mods>) returns (r: seq<Mods>)
    ensures AllCleaned(mods, r)
  {
    r := mods;
    for i := 0 to |mods|
      invariant |r| == |mods| && r[i..] == mods[i..]
      invariant forall j :: 0 <= j < i ==> IsCleaned(mods[j], r[j])
    {
      assert r[i] == r[i..][0] == mods[i];
      var m := CleanEntry(r[i]);
      assert r[i + 1..] == mods[i + 1..] by {
        assert r[i + 1..] == r[i..][1..] && mods[i + 1..] == mods[i..][1..];
      }
      r := r[i := m];
    }
  }

  lemma KeptFile(lines: seq<string>, kept: seq<string>, f: Option<string>)
    requires InFiles(f, kept) && forall l :: l in kept ==> l in lines
    ensures InFiles(f, lines)
  {
    var i :| 0 <= i < |kept| && ExtractIncludeFile(kept[i]) == f;
    assert kept[i] in lines;
  }

  /** No path, and no line without a path, is left both to add and to remove. */
  lemma NothingInBoth(m: Mods, m': Mods, f: Option<string>)
    requires IsCleaned(m, m')
    ensures !InBoth(m', f)
  {
    if InFiles(f, m'.add) {
      var i :| 0 <= i < |m'.add| && ExtractIncludeFile(m'.add[i]) == f;
      assert m'.add[i] in m'.add;
      KeptFile(m.add, m'.add, f);
      if InFiles(f, m'.remove) {
        KeptFile(m.remove, m'.remove, f);
      }
    }
  }

  lemma {:induction false} WithoutTwice(lines: seq<string>, files: set<Option<string>>, fewer: set<Option<string>>)
    requires fewer <= files
    ensures Without(Without(lines, files), fewer) == Without(lines, files)
  {
    if lines != [] {
      WithoutTwice(lines[1..], files, fewer);
      var rest := Without(lines[1..], files);
      if ExtractIncludeFile(lines[0]) in files {
        assert [] + rest == rest;
      } else {
        assert Without(lines, files)[1..] == rest;
      }
    }
  }

  /** Cleaning up again changes nothing, up to the order of the two sets. */
  lemma CleanUpIdempotent(m: Mods, m': Mods, m'': Mods)
    requires IsCleaned(m, m') && IsCleaned(m', m'')
    ensures (forall l :: l in m''.add <==> l in m'.add) && (forall l :: l in m''.remove <==> l in m'.remove)
    ensures m''.full == m'.full
  {
    forall f ensures !InBoth(m', f) {
      NothingInBoth(m, m', f);
    }
    forall f | f in FilesOf(m'.add) ensures f in FilesOf(m.add) {
      var i :| 0 <= i < |m'.add| && ExtractIncludeFile(m'.add[i]) == f;
      assert m'.add[i] in m.add;
      assert InFiles(f, m.add);
    }
    WithoutTwice(m.full, FilesOf(m.add), FilesOf(m'.add));
  }
}
