/** The filter fed with its own output: what a second pass keeps, and that a third changes nothing. */
module IwyuPasses {
  import opened Outcomes
  import opened Sequences
  import opened IwyuText
  import opened IwyuFilter

  // -------------------------------------------------------- what a parse gives

  ghost predicate AllTrimmed(lines: seq<string>) { forall i :: 0 <= i < |lines| ==> Trimmed(lines[i]) }

  ghost predicate EntryWellFormed(m: Mods) {
    IsPath(m.file) && AllTrimmed(m.add) && AllTrimmed(m.remove) && AllTrimmed(m.full)
  }

  ghost predicate DistinctFiles(mods: seq<Mods>) { forall i, j :: 0 <= i < j < |mods| ==> mods[i].file != mods[j].file }

  ghost predicate WellFormed(mods: seq<Mods>) {
    DistinctFiles(mods) && forall i :: 0 <= i < |mods| ==> EntryWellFormed(mods[i])
  }

  lemma {:induction false} RunIsPath(s: string)
    ensures RunLength(s[..RunLength(s)]) == RunLength(s)
  {
    if s != [] && !IsSpace(s[0]) {
      RunIsPath(s[1..]);
      var n := RunLength(s);
      assert s[..n][1..] == s[1..][..n - 1];
    }
  }

  lemma AddHeaderIsPath(line: string)
    requires AddHeader(line).Some?
    ensures IsPath(AddHeader(line).value)
  {
    RunIsPath(line);
  }

  lemma SetDefaultWellFormed(mods: seq<Mods>, file: string)
    requires WellFormed(mods) && IsPath(file)
    ensures WellFormed(SetDefault(mods, file))
  {
    assert EntryWellFormed(Mods(file, [], [], []));
  }

  lemma AddToWellFormed(m: Mods, mode: Mode, line: string)
    requires EntryWellFormed(m) && Trimmed(line)
    ensures EntryWellFormed(AddTo(m, mode, line)) && AddTo(m, mode, line).file == m.file
  {
  }

  lemma AddLineWellFormed(mods: seq<Mods>, file: string, mode: Mode, line: string)
    requires WellFormed(mods) && Trimmed(line)
    ensures WellFormed(AddLine(mods, file, mode, line))
  {
    forall i | 0 <= i < |mods| { AddToWellFormed(mods[i], mode, line); }
  }

  lemma StepWellFormed(s: State, line: string)
    requires WellFormed(s.mods)
    ensures WellFormed(Step(s, line).mods)
  {
    StripTrims(line);
    if AddHeader(line).Some? {
      AddHeaderIsPath(line);
      SetDefaultWellFormed(s.mods, AddHeader(line).value);
    } else if s.current.Some? {
      AddLineWellFormed(s.mods, s.current.value, s.mode, Strip(line));
    }
  }

  /** Every parse has distinct, well-shaped paths and trimmed lines. */
  lemma {:induction false} ParsedWellFormed(s: State, lines: seq<string>)
    requires WellFormed(s.mods)
    ensures WellFormed(Run(s, lines).mods)
    decreases |lines|
  {
    if lines != [] {
      StepWellFormed(s, lines[0]);
      ParsedWellFormed(Step(s, lines[0]), lines[1..]);
    }
  }

  lemma CleanedWellFormed(mods: seq<Mods>, mods': seq<Mods>)
    requires WellFormed(mods) && AllCleaned(mods, mods')
    ensures WellFormed(mods')
  {
    forall i | 0 <= i < |mods'| ensures EntryWellFormed(mods'[i]) {
      var m, m' := mods[i], mods'[i];
      assert IsCleaned(m, m');
      forall k | 0 <= k < |m'.add| ensures Trimmed(m'.add[k]) { assert m'.add[k] in m.add; }
      forall k | 0 <= k < |m'.remove| ensures Trimmed(m'.remove[k]) { assert m'.remove[k] in m.remove; }
      forall k | 0 <= k < |m'.full| ensures Trimmed(m'.full[k]) { assert m'.full[k] in m.full; }
    }
  }

  // ------------------------------------------------------------- reading back

  predicate Plain(line: string) { !IsHeader(line) }

  ghost predicate AllPlain(lines: seq<string>) { forall i :: 0 <= i < |lines| ==> Plain(lines[i]) }

  /** What parsing one written block gives: both blank lines are read as lines. */
  function Reread(m: Mods): Mods { Mods(m.file, [""], m.remove + [""], m.full) }

  function Rereader(m: Mods): Option<Mods> { if m.remove == [] then None else Some(Reread(m)) }

  /** The files that are written at all. */
  function Listed(m: Mods): Option<Mods> { if m.remove == [] then None else Some(m) }

  /** No line that is written has the shape of a header. */
  ghost predicate PlainEntry(m: Mods) { m.remove != [] ==> AllPlain(m.remove) && AllPlain(m.full) }

  ghost predicate PlainMods(mods: seq<Mods>) { forall i :: 0 <= i < |mods| ==> PlainEntry(mods[i]) }

  function AddAll(m: Mods, mode: Mode, lines: seq<string>): Mods {
    match mode
    case NORMAL => m
    case ADD => m.(add := m.add + lines)
    case REMOVE => m.(remove := m.remove + lines)
    case FULL_INCLUDE_LIST => m.(full := m.full + lines)
  }

  lemma StepPlain(es: seq<Mods>, e: Mods, mode: Mode, line: string, p: seq<string>)
    requires !Names(es, e.file) && Trimmed(line) && Plain(line)
    ensures Step(State(es + [e], Some(e.file), mode, p), line)
        == State(es + [AddTo(e, mode, line)], Some(e.file), mode, p)
  {
    StripTrims(line);
    var after := AddLine(es + [e], e.file, mode, line);
    assert after == es + [AddTo(e, mode, line)];
  }

  /** Plain lines are appended to the list the mode selects. */
  lemma {:induction false} AppendLines(es: seq<Mods>, e: Mods, mode: Mode, lines: seq<string>, p: seq<string>)
    requires !Names(es, e.file) && AllTrimmed(lines) && AllPlain(lines) && mode != NORMAL
    ensures Run(State(es + [e], Some(e.file), mode, p), lines)
        == State(es + [AddAll(e, mode, lines)], Some(e.file), mode, p)
    decreases |lines|
  {
    if lines == [] {
      assert AddAll(e, mode, []) == e by {
        assert e.add + [] == e.add && e.remove + [] == e.remove && e.full + [] == e.full;
      }
    } else {
      var e' := AddTo(e, mode, lines[0]);
      StepPlain(es, e, mode, lines[0], p);
      AppendLines(es, e', mode, lines[1..], p);
      assert AddAll(e', mode, lines[1..]) == AddAll(e, mode, lines) by {
        assert [lines[0]] + lines[1..] == lines;
        ConcatAssociative(e.add, [lines[0]], lines[1..]);
        ConcatAssociative(e.remove, [lines[0]], lines[1..]);
        ConcatAssociative(e.full, [lines[0]], lines[1..]);
      }
    }
  }

  /** The first three lines of a block open an entry whose list of additions is one blank line. */
  lemma OpenBlock(es: seq<Mods>, f: string, p: seq<string>)
    requires IsPath(f) && !Names(es, f)
    ensures Run(State(es, None, NORMAL, p), [f + ADD_TEXT, "", f + REMOVE_TEXT])
         == State(es + [Mods(f, [""], [], [])], Some(f), REMOVE, p)
  {
    var s0 := State(es, None, NORMAL, p);
    AddHeaderText(f);
    RemoveHeaderText(f);
    BlankText();
    var s1 := Step(s0, f + ADD_TEXT);
    assert s1 == State(es + [Mods(f, [], [], [])], Some(f), ADD, p);
    StepPlain(es, Mods(f, [], [], []), ADD, "", p);
    assert [] + [""] == [""];
    var s2 := Step(s1, "");
    assert s2 == State(es + [Mods(f, [""], [], [])], Some(f), ADD, p);
    RunThree(s0, f + ADD_TEXT, "", f + REMOVE_TEXT);
  }

  lemma RunThree(s: State, a: string, b: string, c: string)
    ensures Run(s, [a, b, c]) == Step(Step(Step(s, a), b), c)
  {
    assert [a, b, c][1..] == [b, c] && [b, c][1..] == [c] && [c][1..] == [];
    assert Run(Step(Step(s, a), b), [c]) == Run(Step(Step(Step(s, a), b), c), []);
  }

  lemma RunTwo(s: State, a: string, b: string)
    ensures Run(s, [a, b]) == Step(Step(s, a), b)
  {
    assert [a, b][1..] == [b] && [b][1..] == [];
    assert Run(Step(s, a), [b]) == Run(Step(Step(s, a), b), []);
  }

  lemma RunOne(s: State, a: string)
    ensures Run(s, [a]) == Step(s, a)
  {
    assert [a][1..] == [];
  }

  lemma MiddleOfBlock(es: seq<Mods>, e: Mods, p: seq<string>)
    requires IsPath(e.file) && !Names(es, e.file)
    ensures Run(State(es + [e], Some(e.file), REMOVE, p), ["", FULL_TEXT + e.file + ":"])
         == State(es + [e.(remove := e.remove + [""])], Some(e.file), FULL_INCLUDE_LIST, p)
  {
    BlankText();
    StepPlain(es, e, REMOVE, "", p);
    FullHeaderText(e.file);
    RunTwo(State(es + [e], Some(e.file), REMOVE, p), "", FULL_TEXT + e.file + ":");
  }

  lemma CloseBlock(s: State)
    ensures Run(s, ["---"]) == s.(current := None, mode := NORMAL)
  {
    SeparatorText();
    RunOne(s, "---");
  }

  /** One written block, read back. */
  lemma BlockRereads(es: seq<Mods>, m: Mods, p: seq<string>)
    requires EntryWellFormed(m) && !Names(es, m.file) && m.remove != [] && PlainEntry(m)
    ensures Run(State(es, None, NORMAL, p), Block(m)) == State(es + [Reread(m)], None, NORMAL, p)
  {
    var f := m.file;
    var front, middle := [f + ADD_TEXT, "", f + REMOVE_TEXT], ["", FULL_TEXT + f + ":"];
    var s0 := State(es, None, NORMAL, p);
    OpenBlock(es, f, p);
    var e1 := Mods(f, [""], [], []);
    AppendLines(es, e1, REMOVE, m.remove, p);
    assert [] + m.remove == m.remove;
    var e2 := Mods(f, [""], m.remove, []);
    MiddleOfBlock(es, e2, p);
    var e3 := Mods(f, [""], m.remove + [""], []);
    AppendLines(es, e3, FULL_INCLUDE_LIST, m.full, p);
    assert [] + m.full == m.full;
    CloseBlock(State(es + [Reread(m)], Some(f), FULL_INCLUDE_LIST, p));
    RunParts(s0, front, m.remove, middle, m.full, ["---"]);
  }

  lemma RunParts(s: State, a: seq<string>, b: seq<string>, c: seq<string>, d: seq<string>, e: seq<string>)
    ensures Run(s, a + b + c + d + e) == Run(Run(Run(Run(Run(s, a), b), c), d), e)
  {
    RunConcat(s, a, b);
    RunConcat(s, a + b, c);
    RunConcat(s, a + b + c, d);
    RunConcat(s, a + b + c + d, e);
  }

  lemma {:induction false} RereadFiles(mods: seq<Mods>, file: string)
    requires Names(Collect(mods, Rereader), file)
    ensures Names(mods, file)
  {
    if mods != [] {
      var i :| 0 <= i < |Collect(mods, Rereader)| && Collect(mods, Rereader)[i].file == file;
      if mods[0].remove != [] && i == 0 {
        assert mods[0].file == file;
      } else {
        var rest := Collect(mods[1..], Rereader);
        assert rest[if mods[0].remove == [] then i else i - 1].file == file;
        RereadFiles(mods[1..], file);
        var j :| 0 <= j < |mods[1..]| && mods[1..][j].file == file;
        assert mods[j + 1].file == file;
      }
    }
  }

  lemma {:induction false} CollectConcat<A, B>(a: seq<A>, b: seq<A>, f: A -> Option<B>)
    ensures Collect(a + b, f) == Collect(a, f) + Collect(b, f)
  {
    if a == [] {
      assert a + b == b;
    } else {
      CollectConcat(a[1..], b, f);
      assert (a + b)[1..] == a[1..] + b;
    }
  }

  lemma CollectSnoc<A, B>(s: seq<A>, i: nat, f: A -> Option<B>)
    requires i < |s|
    ensures Collect(s[..i + 1], f) == Collect(s[..i], f) + match f(s[i]) { case None => [] case Some(y) => [y] }
  {
    assert s[..i + 1] == s[..i] + [s[i]];
    CollectConcat(s[..i], [s[i]], f);
    CollectSingle(s[i], f);
  }

  /** One more block: nothing for a file without lines to remove, else a new entry. */
  lemma NextBlockRereads(es: seq<Mods>, m: Mods)
    requires EntryWellFormed(m) && PlainEntry(m) && (m.remove != [] ==> !Names(es, m.file))
    ensures Run(State(es, None, NORMAL, []), Block(m))
         == State(es + match Rereader(m) { case None => [] case Some(y) => [y] }, None, NORMAL, [])
  {
    if m.remove == [] {
      assert es + [] == es;
    } else {
      BlockRereads(es, m, []);
    }
  }

  lemma NewFile(mods: seq<Mods>, n: nat)
    requires n < |mods| && WellFormed(mods)
    ensures !Names(Collect(mods[..n], Rereader), mods[n].file)
  {
    if Names(Collect(mods[..n], Rereader), mods[n].file) {
      RereadFiles(mods[..n], mods[n].file);
      assert false;
    }
  }

  lemma NothingWritten(mods: seq<Mods>)
    ensures Written(mods[..0]) == []
  {
    assert Image(mods[..0], Block) == [];
  }

  /** Parsing what was written gives back the files that were written, with two blank lines more each. */
  lemma {:induction false} WrittenRereads(mods: seq<Mods>, n: nat)
    requires n <= |mods| && WellFormed(mods) && PlainMods(mods)
    ensures Run(START, Written(mods[..n])) == State(Collect(mods[..n], Rereader), None, NORMAL, [])
  {
    if n > 0 {
      WrittenRereads(mods, n - 1);
      WrittenSnoc(mods, n - 1);
      CollectSnoc(mods, n - 1, Rereader);
      RunConcat(START, Written(mods[..n - 1]), Block(mods[n - 1]));
      NewFile(mods, n - 1);
      NextBlockRereads(Collect(mods[..n - 1], Rereader), mods[n - 1]);
    } else {
      NothingWritten(mods);
    }
  }

  // --------------------------------------------------- when reading back works

  function PlainCount(lines: seq<string>): nat {
    if lines == [] then 0 else (if Plain(lines[0]) then 1 else 0) + PlainCount(lines[1..])
  }

  lemma {:induction false} PlainCountConcat(a: seq<string>, b: seq<string>)
    ensures PlainCount(a + b) == PlainCount(a) + PlainCount(b)
  {
    if a == [] {
      assert a + b == b;
    } else {
      assert (a + b)[1..] == a[1..] + b;
      PlainCountConcat(a[1..], b);
    }
  }

  lemma {:induction false} PlainCountAll(lines: seq<string>)
    ensures PlainCount(lines) <= |lines|
    ensures PlainCount(lines) == |lines| <==> AllPlain(lines)
  {
    if lines != [] {
      PlainCountAll(lines[1..]);
      assert AllPlain(lines) <==> Plain(lines[0]) && AllPlain(lines[1..]) by {
        assert forall i :: 0 < i < |lines| ==> lines[i] == lines[1..][i - 1];
      }
    }
  }

  function EntryLines(m: Mods): nat { |m.add| + |m.remove| + |m.full| }

  function LineCount(mods: seq<Mods>): nat { if mods == [] then 0 else EntryLines(mods[0]) + LineCount(mods[1..]) }

  lemma {:induction false} LineCountSnoc(mods: seq<Mods>, m: Mods)
    ensures LineCount(mods + [m]) == LineCount(mods) + EntryLines(m)
  {
    if mods == [] {
      assert mods + [m] == [m] && [m][1..] == [];
    } else {
      assert (mods + [m])[1..] == mods[1..] + [m];
      LineCountSnoc(mods[1..], m);
    }
  }

  /** A line goes into at most one entry. */
  lemma {:induction false} AddLineCount(mods: seq<Mods>, file: string, mode: Mode, line: string)
    requires DistinctFiles(mods)
    ensures LineCount(AddLine(mods, file, mode, line)) <= LineCount(mods) + if Names(mods, file) then 1 else 0
  {
    if mods != [] {
      AddLineCount(mods[1..], file, mode, line);
      assert AddLine(mods, file, mode, line)[1..] == AddLine(mods[1..], file, mode, line);
      if mods[0].file == file {
        assert !Names(mods[1..], file);
      } else if Names(mods[1..], file) {
        var i :| 0 <= i < |mods[1..]| && mods[1..][i].file == file;
        assert mods[i + 1].file == file;
      }
    }
  }

  lemma StepCount(s: State, line: string)
    requires WellFormed(s.mods)
    ensures LineCount(Step(s, line).mods) <= LineCount(s.mods) + if Plain(line) then 1 else 0
  {
    if AddHeader(line).Some? {
      LineCountSnoc(s.mods, Mods(AddHeader(line).value, [], [], []));
    } else if s.current.Some? {
      AddLineCount(s.mods, s.current.value, s.mode, Strip(line));
    }
  }

  /** A parse holds no more lines than the text has lines that are not headers. */
  lemma {:induction false} RunCount(s: State, lines: seq<string>)
    requires WellFormed(s.mods)
    ensures LineCount(Run(s, lines).mods) <= LineCount(s.mods) + PlainCount(lines)
    decreases |lines|
  {
    if lines != [] {
      StepCount(s, lines[0]);
      StepWellFormed(s, lines[0]);
      RunCount(Step(s, lines[0]), lines[1..]);
    }
  }

  lemma BlockCount(m: Mods)
    requires IsPath(m.file) && m.remove != []
    ensures PlainCount(Block(m)) == 2 + PlainCount(m.remove) + PlainCount(m.full)
  {
    var front, middle := [m.file + ADD_TEXT, "", m.file + REMOVE_TEXT], ["", FULL_TEXT + m.file + ":"];
    PlainCountConcat(front, m.remove);
    PlainCountConcat(front + m.remove, middle);
    PlainCountConcat(front + m.remove + middle, m.full);
    PlainCountConcat(front + m.remove + middle + m.full, ["---"]);
    AddHeaderText(m.file);
    RemoveHeaderText(m.file);
    FullHeaderText(m.file);
    BlankText();
    SeparatorText();
    CountThree(m.file + ADD_TEXT, "", m.file + REMOVE_TEXT);
    CountTwo("", FULL_TEXT + m.file + ":");
    assert ["---"][1..] == [];
  }

  lemma CountThree(a: string, b: string, c: string)
    requires !Plain(a) && Plain(b) && !Plain(c)
    ensures PlainCount([a, b, c]) == 1
  {
    assert [a, b, c][1..] == [b, c] && [b, c][1..] == [c] && [c][1..] == [];
    assert PlainCount([c]) == 0 + PlainCount([]);
  }

  lemma CountTwo(a: string, b: string)
    requires Plain(a) && !Plain(b)
    ensures PlainCount([a, b]) == 1
  {
    assert [a, b][1..] == [b] && [b][1..] == [];
    assert PlainCount([b]) == 0 + PlainCount([]);
  }

  lemma EntryCount(m: Mods)
    requires EntryWellFormed(m) && m.remove != []
    ensures PlainCount(Block(m)) <= EntryLines(Reread(m))
    ensures PlainCount(Block(m)) == EntryLines(Reread(m)) ==> PlainEntry(m)
  {
    BlockCount(m);
    PlainCountAll(m.remove);
    PlainCountAll(m.full);
  }

  lemma PlainSnoc(mods: seq<Mods>, n: nat)
    requires 0 < n <= |mods| && PlainMods(mods[..n - 1]) && PlainEntry(mods[n - 1])
    ensures PlainMods(mods[..n])
  {
    forall i | 0 <= i < n ensures PlainEntry(mods[..n][i]) {
      assert i < n - 1 ==> mods[..n][i] == mods[..n - 1][i];
    }
  }

  lemma CountsSnoc(mods: seq<Mods>, n: nat)
    requires 0 < n <= |mods|
    ensures var m := mods[n - 1];
        && PlainCount(Written(mods[..n])) == PlainCount(Written(mods[..n - 1])) + PlainCount(Block(m))
        && LineCount(Collect(mods[..n], Rereader))
           == LineCount(Collect(mods[..n - 1], Rereader)) + if m.remove == [] then 0 else EntryLines(Reread(m))
  {
    var es := Collect(mods[..n - 1], Rereader);
    WrittenSnoc(mods, n - 1);
    CollectSnoc(mods, n - 1, Rereader);
    PlainCountConcat(Written(mods[..n - 1]), Block(mods[n - 1]));
    LineCountSnoc(es, Reread(mods[n - 1]));
    assert es + [] == es;
  }

  /** Written lines that are not headers, against the lines a faithful rereading would hold. */
  lemma {:induction false} WrittenCount(mods: seq<Mods>, n: nat)
    requires n <= |mods| && WellFormed(mods)
    ensures PlainCount(Written(mods[..n])) <= LineCount(Collect(mods[..n], Rereader))
    ensures PlainCount(Written(mods[..n])) == LineCount(Collect(mods[..n], Rereader)) ==> PlainMods(mods[..n])
  {
    if n > 0 {
      WrittenCount(mods, n - 1);
      CountsSnoc(mods, n);
      if mods[n - 1].remove != [] {
        EntryCount(mods[n - 1]);
      }
      if PlainMods(mods[..n - 1]) && PlainEntry(mods[n - 1]) {
        PlainSnoc(mods, n);
      }
    } else {
      NothingWritten(mods);
    }
  }

  /** The filter reads its own output back faithfully exactly when no line it wrote looks like a header. */
  lemma RereadsIff(mods: seq<Mods>)
    requires WellFormed(mods)
    ensures Run(START, Written(mods)) == State(Collect(mods, Rereader), None, NORMAL, []) <==> PlainMods(mods)
  {
    assert mods[..|mods|] == mods;
    if PlainMods(mods) {
      WrittenRereads(mods, |mods|);
    }
    if Run(START, Written(mods)) == State(Collect(mods, Rereader), None, NORMAL, []) {
      RunCount(START, Written(mods));
      WrittenCount(mods, |mods|);
    }
  }

  // ------------------------------------------------------------------- passes

  /** `after` may come out of the filter when it is fed what was written for `before`. */
  ghost predicate Pass(before: seq<Mods>, after: seq<Mods>) {
    AllCleaned(Run(START, Written(before)).mods, after)
  }

  ghost predicate SameLines(a: seq<string>, b: seq<string>) { forall l :: l in a <==> l in b }

  /** The include-bearing lines to remove, as a set, and the include-bearing full list, in order. */
  ghost predicate KeepsIncludes(m: Mods, m': Mods) {
    && m'.file == m.file && m'.add == []
    && Distinct(m'.remove) && (forall l :: l in m'.remove <==> l in m.remove && HasInclude(l))
    && m'.full == Without(m.full, {None})
  }

  lemma EmptyOrMember(lines: seq<string>)
    ensures lines == [] || exists l :: l in lines
  {
    if lines != [] {
      assert lines[0] in lines;
    }
  }

  /** The two blank lines meet in the path None, which takes away every line without an include. */
  lemma RereadCleaned(m: Mods, m': Mods)
    requires IsCleaned(Reread(m), m')
    ensures KeepsIncludes(m, m')
  {
    var r := Reread(m);
    assert ExtractIncludeFile("") == None;
    assert r.add[0] == "" && r.remove[|m.remove|] == "";
    forall f ensures InBoth(r, f) <==> f == None {
      if InFiles(f, r.add) {
        var i :| 0 <= i < |r.add| && ExtractIncludeFile(r.add[i]) == f;
      }
    }
    assert FilesOf(r.add) == {None} by {
      forall f ensures InFiles(f, r.add) <==> f == None {
        assert ExtractIncludeFile(r.add[0]) == None;
      }
    }
    EmptyOrMember(m'.add);
  }

  /** A second pass keeps exactly the include-bearing lines of the files that were written. */
  lemma SecondPass(p1: seq<Mods>, p2: seq<Mods>)
    requires WellFormed(p1) && PlainMods(p1) && Pass(p1, p2)
    ensures |p2| == |Collect(p1, Listed)|
    ensures forall i :: 0 <= i < |p2| ==> KeepsIncludes(Collect(p1, Listed)[i], p2[i])
    ensures Run(START, Written(p1)).printed == []
  {
    RereadsIff(p1);
    RereadListed(p1);
    forall i | 0 <= i < |p2| ensures KeepsIncludes(Collect(p1, Listed)[i], p2[i]) {
      assert IsCleaned(Collect(p1, Rereader)[i], p2[i]);
      RereadCleaned(Collect(p1, Listed)[i], p2[i]);
    }
  }

  lemma {:induction false} RereadListed(mods: seq<Mods>)
    ensures |Collect(mods, Rereader)| == |Collect(mods, Listed)|
    ensures forall i :: 0 <= i < |Collect(mods, Listed)| ==>
        Collect(mods, Rereader)[i] == Reread(Collect(mods, Listed)[i])
  {
    if mods != [] {
      RereadListed(mods[1..]);
    }
  }

  lemma {:induction false} ListedPlain(mods: seq<Mods>, i: nat)
    requires PlainMods(mods) && i < |Collect(mods, Listed)|
    ensures PlainEntry(Collect(mods, Listed)[i]) && Collect(mods, Listed)[i].remove != []
  {
    if mods[0].remove == [] {
      assert forall j :: 0 <= j < |mods[1..]| ==> mods[1..][j] == mods[j + 1];
      ListedPlain(mods[1..], i);
    } else if i > 0 {
      assert forall j :: 0 <= j < |mods[1..]| ==> mods[1..][j] == mods[j + 1];
      ListedPlain(mods[1..], i - 1);
    }
  }

  /** What a pass over plain entries gives is plain again. */
  lemma PassPlain(p1: seq<Mods>, p2: seq<Mods>)
    requires WellFormed(p1) && PlainMods(p1) && Pass(p1, p2)
    ensures WellFormed(p2) && PlainMods(p2)
  {
    ParsedWellFormed(START, Written(p1));
    CleanedWellFormed(Run(START, Written(p1)).mods, p2);
    SecondPass(p1, p2);
    forall i | 0 <= i < |p2| ensures PlainEntry(p2[i]) {
      ListedPlain(p1, i);
      KeptPlain(Collect(p1, Listed)[i], p2[i]);
    }
  }

  lemma KeptPlain(m: Mods, m': Mods)
    requires KeepsIncludes(m, m') && PlainEntry(m) && m.remove != []
    ensures PlainEntry(m')
  {
    forall k | 0 <= k < |m'.remove| ensures Plain(m'.remove[k]) {
      assert m'.remove[k] in m.remove;
    }
    forall k | 0 <= k < |m'.full| ensures Plain(m'.full[k]) {
      assert m'.full[k] in m.full;
    }
  }

  /** The same files in the same order, the same lines to remove, the same full lists. */
  ghost predicate SameOutput(a: seq<Mods>, b: seq<Mods>) {
    && |Collect(a, Listed)| == |Collect(b, Listed)|
    && forall i :: 0 <= i < |Collect(a, Listed)| ==> SameEntry(Collect(a, Listed)[i], Collect(b, Listed)[i])
  }

  ghost predicate SameEntry(m: Mods, m': Mods) {
    m'.file == m.file && SameLines(m'.remove, m.remove) && m'.full == m.full
  }

  ghost predicate OnlyIncludes(m: Mods) {
    (forall l :: l in m.remove ==> HasInclude(l)) && (forall l :: l in m.full ==> HasInclude(l))
  }

  lemma {:induction false} WithoutNothing(lines: seq<string>)
    requires forall l :: l in lines ==> HasInclude(l)
    ensures Without(lines, {None}) == lines
  {
    if lines != [] {
      assert lines[0] in lines;
      WithoutNothing(lines[1..]);
      assert [lines[0]] + lines[1..] == lines;
    }
  }

  lemma KeptAgain(m: Mods, m': Mods)
    requires OnlyIncludes(m) && KeepsIncludes(m, m')
    ensures SameEntry(m, m') && (m'.remove == [] <==> m.remove == [])
  {
    WithoutNothing(m.full);
    if m.remove != [] {
      assert m.remove[0] in m.remove;
    }
    if m'.remove != [] {
      assert m'.remove[0] in m'.remove;
    }
  }

  lemma {:induction false} ListedAll(mods: seq<Mods>)
    requires forall i :: 0 <= i < |mods| ==> mods[i].remove != []
    ensures Collect(mods, Listed) == mods
  {
    if mods != [] {
      ListedAll(mods[1..]);
      assert [mods[0]] + mods[1..] == mods;
    }
  }

  lemma {:induction false} ListedOnlyIncludes(mods: seq<Mods>, i: nat)
    requires (forall j :: 0 <= j < |mods| ==> OnlyIncludes(mods[j])) && i < |Collect(mods, Listed)|
    ensures OnlyIncludes(Collect(mods, Listed)[i]) && Collect(mods, Listed)[i].remove != []
  {
    if mods[0].remove == [] {
      ListedOnlyIncludes(mods[1..], i);
    } else if i > 0 {
      ListedOnlyIncludes(mods[1..], i - 1);
    }
  }

  /** Once only include-bearing lines are left, a further pass changes nothing that is written. */
  lemma PassKeepsOutput(p2: seq<Mods>, p3: seq<Mods>)
    requires WellFormed(p2) && PlainMods(p2) && Pass(p2, p3)
    requires forall i :: 0 <= i < |p2| ==> OnlyIncludes(p2[i])
    ensures SameOutput(p2, p3)
  {
    SecondPass(p2, p3);
    forall i | 0 <= i < |p3| ensures p3[i].remove != [] && SameEntry(Collect(p2, Listed)[i], p3[i]) {
      ListedOnlyIncludes(p2, i);
      KeptAgain(Collect(p2, Listed)[i], p3[i]);
    }
    ListedAll(p3);
  }

  lemma KeptOnlyIncludes(m: Mods, m': Mods)
    requires KeepsIncludes(m, m')
    ensures OnlyIncludes(m')
  {
  }

  /** Each is what the filter may make of the output for the one before. */
  ghost predicate Passes(ps: seq<seq<Mods>>) {
    |ps| >= 2 ==> Pass(ps[0], ps[1]) && Passes(ps[1..])
  }

  lemma SameOutputTransitive(a: seq<Mods>, b: seq<Mods>, c: seq<Mods>)
    requires SameOutput(a, b) && SameOutput(b, c)
    ensures SameOutput(a, c)
  {
    forall i | 0 <= i < |Collect(a, Listed)| ensures SameEntry(Collect(a, Listed)[i], Collect(c, Listed)[i]) {
      assert SameEntry(Collect(a, Listed)[i], Collect(b, Listed)[i]);
      assert SameEntry(Collect(b, Listed)[i], Collect(c, Listed)[i]);
    }
  }

  /** Nothing but include-bearing lines is left. */
  ghost predicate Settled(p: seq<Mods>) {
    WellFormed(p) && PlainMods(p) && forall i :: 0 <= i < |p| ==> OnlyIncludes(p[i])
  }

  lemma SecondPassSettles(p1: seq<Mods>, p2: seq<Mods>)
    requires WellFormed(p1) && PlainMods(p1) && Pass(p1, p2)
    ensures Settled(p2)
  {
    SecondPass(p1, p2);
    PassPlain(p1, p2);
    forall i | 0 <= i < |p2| ensures OnlyIncludes(p2[i]) {
      KeptOnlyIncludes(Collect(p1, Listed)[i], p2[i]);
    }
  }

  lemma SettledStays(p: seq<Mods>, p': seq<Mods>)
    requires Settled(p) && Pass(p, p')
    ensures Settled(p') && SameOutput(p, p')
  {
    PassKeepsOutput(p, p');
    SecondPassSettles(p, p');
  }

  lemma SameOutputReflexive(p: seq<Mods>)
    ensures SameOutput(p, p)
  {
  }

  /** All passes behind one that leaves only include-bearing lines write the same. */
  lemma {:induction false} Stable(ps: seq<seq<Mods>>, n: nat)
    requires Passes(ps) && n < |ps| && Settled(ps[0])
    ensures SameOutput(ps[0], ps[n]) && Settled(ps[n])
  {
    if n == 0 {
      SameOutputReflexive(ps[0]);
    } else {
      SettledStays(ps[0], ps[1]);
      Stable(ps[1..], n - 1);
      SameOutputTransitive(ps[0], ps[1], ps[n]);
    }
  }

  lemma {:induction false} AllListed(mods: seq<Mods>)
    ensures |Collect(mods, Listed)| <= |mods|
    ensures |Collect(mods, Listed)| == |mods| ==> Collect(mods, Listed) == mods
  {
    if mods != [] {
      AllListed(mods[1..]);
      assert [mods[0]] + mods[1..] == mods;
    }
  }

  /** A pass changes nothing that is written exactly when only include-bearing lines are written. */
  lemma FixpointIff(p: seq<Mods>, p': seq<Mods>)
    requires WellFormed(p) && PlainMods(p) && Pass(p, p')
    ensures SameOutput(p, p') <==> forall i :: 0 <= i < |Collect(p, Listed)| ==> OnlyIncludes(Collect(p, Listed)[i])
  {
    SecondPass(p, p');
    var before := Collect(p, Listed);
    if forall i :: 0 <= i < |before| ==> OnlyIncludes(before[i]) {
      forall i | 0 <= i < |p'| ensures p'[i].remove != [] && SameEntry(before[i], p'[i]) {
        ListedPlain(p, i);
        KeptAgain(before[i], p'[i]);
      }
      ListedAll(p');
    }
    if SameOutput(p, p') {
      AllListed(p');
      forall i | 0 <= i < |before| ensures OnlyIncludes(before[i]) {
        assert SameEntry(before[i], p'[i]) && KeepsIncludes(before[i], p'[i]);
        KeptOnlyIncludes(before[i], p'[i]);
      }
    }
  }

  lemma FirstPassWellFormed(input: seq<string>, p1: seq<Mods>)
    requires AllCleaned(Run(START, input).mods, p1)
    ensures WellFormed(p1)
  {
    ParsedWellFormed(START, input);
    CleanedWellFormed(Run(START, input).mods, p1);
  }

  lemma PlainFirstSettles(input: seq<string>, p1: seq<Mods>, p2: seq<Mods>)
    requires AllCleaned(Run(START, input).mods, p1) && PlainMods(p1) && Pass(p1, p2)
    ensures Settled(p2)
  {
    FirstPassWellFormed(input, p1);
    SecondPassSettles(p1, p2);
  }

  /** If the first pass writes no line like a header, all later passes write what the second wrote. */
  lemma LaterPassesSame(input: seq<string>, p1: seq<Mods>, ps: seq<seq<Mods>>, n: nat)
    requires AllCleaned(Run(START, input).mods, p1) && PlainMods(p1) && Passes([p1] + ps) && n < |ps|
    ensures SameOutput(ps[0], ps[n])
  {
    assert ([p1] + ps)[1..] == ps;
    PlainFirstSettles(input, p1, ps[0]);
    Stable(ps, n);
  }

  // ------------------------------------------------- without any condition

  /** A line that a parse of trimmed lines stores was no header when it was read. */
  ghost predicate AllStoredPlain(mods: seq<Mods>) {
    forall i :: 0 <= i < |mods| ==> AllPlain(mods[i].add) && AllPlain(mods[i].remove) && AllPlain(mods[i].full)
  }

  lemma AddToPlain(m: Mods, mode: Mode, line: string)
    requires AllPlain(m.add) && AllPlain(m.remove) && AllPlain(m.full) && Plain(line)
    ensures var r := AddTo(m, mode, line); AllPlain(r.add) && AllPlain(r.remove) && AllPlain(r.full)
  {
  }

  lemma StepStoresPlain(s: State, line: string)
    requires AllStoredPlain(s.mods) && Trimmed(line)
    ensures AllStoredPlain(Step(s, line).mods)
  {
    StripTrims(line);
    if !IsHeader(line) && s.current.Some? {
      forall i | 0 <= i < |s.mods|
        ensures var m := AddLine(s.mods, s.current.value, s.mode, line)[i];
            AllPlain(m.add) && AllPlain(m.remove) && AllPlain(m.full)
      {
        AddToPlain(s.mods[i], s.mode, line);
      }
    }
  }

  lemma {:induction false} RunStoresPlain(s: State, lines: seq<string>)
    requires AllStoredPlain(s.mods) && AllTrimmed(lines)
    ensures AllStoredPlain(Run(s, lines).mods)
    decreases |lines|
  {
    if lines != [] {
      StepStoresPlain(s, lines[0]);
      RunStoresPlain(Step(s, lines[0]), lines[1..]);
    }
  }

  lemma HeadersTrimmed(f: string)
    requires IsPath(f)
    ensures Trimmed(f + ADD_TEXT) && Trimmed(f + REMOVE_TEXT) && Trimmed(FULL_TEXT + f + ":") && Trimmed("---")
  {
    assert !IsSpace(f[0]);
    var full := FULL_TEXT + f + ":";
    assert full[0] == 'T' && full[|full| - 1] == ':';
    assert (f + ADD_TEXT)[0] == f[0] && (f + ADD_TEXT)[|f + ADD_TEXT| - 1] == ADD_TEXT[|ADD_TEXT| - 1] == ':';
    assert (f + REMOVE_TEXT)[0] == f[0]
        && (f + REMOVE_TEXT)[|f + REMOVE_TEXT| - 1] == REMOVE_TEXT[|REMOVE_TEXT| - 1] == ':';
  }

  lemma BlockTrimmed(m: Mods)
    requires EntryWellFormed(m)
    ensures AllTrimmed(Block(m))
  {
    HeadersTrimmed(m.file);
  }

  lemma {:induction false} WrittenTrimmed(mods: seq<Mods>, n: nat)
    requires n <= |mods| && WellFormed(mods)
    ensures AllTrimmed(Written(mods[..n]))
  {
    if n > 0 {
      WrittenTrimmed(mods, n - 1);
      WrittenSnoc(mods, n - 1);
      BlockTrimmed(mods[n - 1]);
    } else {
      NothingWritten(mods);
    }
  }

  lemma CleanedPlain(m: Mods, m': Mods)
    requires IsCleaned(m, m') && AllPlain(m.remove) && AllPlain(m.full)
    ensures PlainEntry(m')
  {
    forall k | 0 <= k < |m'.remove| ensures Plain(m'.remove[k]) {
      assert m'.remove[k] in m.remove;
    }
    forall k | 0 <= k < |m'.full| ensures Plain(m'.full[k]) {
      assert m'.full[k] in m.full;
    }
  }

  /** Whatever the first pass wrote, the second writes no line like a header: all that it reads is trimmed. */
  lemma SecondPassPlain(p1: seq<Mods>, p2: seq<Mods>)
    requires WellFormed(p1) && Pass(p1, p2)
    ensures WellFormed(p2) && PlainMods(p2)
  {
    var parsed := Run(START, Written(p1)).mods;
    ParsedWellFormed(START, Written(p1));
    CleanedWellFormed(parsed, p2);
    assert p1[..|p1|] == p1;
    WrittenTrimmed(p1, |p1|);
    RunStoresPlain(START, Written(p1));
    forall i | 0 <= i < |p2| ensures PlainEntry(p2[i]) {
      CleanedPlain(parsed[i], p2[i]);
    }
  }

  lemma AnyFirstSettles(input: seq<string>, p1: seq<Mods>, p2: seq<Mods>, p3: seq<Mods>)
    requires AllCleaned(Run(START, input).mods, p1) && Pass(p1, p2) && Pass(p2, p3)
    ensures Settled(p3)
  {
    FirstPassWellFormed(input, p1);
    SecondPassPlain(p1, p2);
    SecondPassSettles(p2, p3);
  }

  /** From any input whatever: all passes from the third on write what the third wrote. */
  lemma PassesSettle(input: seq<string>, p1: seq<Mods>, p2: seq<Mods>, ps: seq<seq<Mods>>, n: nat)
    requires AllCleaned(Run(START, input).mods, p1) && Passes([p1, p2] + ps) && n < |ps|
    ensures SameOutput(ps[0], ps[n]) && Settled(ps[n])
  {
    assert ([p1, p2] + ps)[1..] == [p2] + ps && ([p2] + ps)[1..] == ps;
    AnyFirstSettles(input, p1, p2, ps[0]);
    Stable(ps, n);
  }

  /**
    From any input whose first pass writes no line that looks like a header: the second
    pass keeps exactly the include-bearing lines, and the third changes nothing.
   */
  lemma ThirdPassChangesNothing(input: seq<string>, p1: seq<Mods>, p2: seq<Mods>, p3: seq<Mods>)
    requires AllCleaned(Run(START, input).mods, p1) && PlainMods(p1) && Pass(p1, p2) && Pass(p2, p3)
    ensures |p2| == |Collect(p1, Listed)|
    ensures forall i :: 0 <= i < |p2| ==> KeepsIncludes(Collect(p1, Listed)[i], p2[i])
    ensures SameOutput(p2, p3)
  {
    FirstPassWellFormed(input, p1);
    SecondPass(p1, p2);
    SecondPassSettles(p1, p2);
    PassKeepsOutput(p2, p3);
  }

  // ---------------------------------------------------------- a misread output

  /** Any line to remove that is no header only because of the blanks in front of it. */
  function Misleading(f: string, hidden: string): seq<string> { [f + ADD_TEXT, f + REMOVE_TEXT, "  " + hidden, "---"] }

  function Misled(f: string, hidden: string): seq<Mods> { [Mods(f, [], [hidden], [])] }

  predicate HiddenHeader(s: string) { |s| > 3 && Trimmed(s) && IsHeader(s) }

  lemma IndentedStripped(s: string)
    requires |s| > 3 && Trimmed(s)
    ensures Strip("  " + s) == s
  {
    assert ("  " + s)[1..] == " " + s && ("  " + s)[1..][1..] == s;
    assert StripLeft("  " + s) == StripLeft(" " + s) == StripLeft(s) == s;
  }

  lemma IndentedIsNoHeader(s: string)
    requires |s| > 3 && Trimmed(s)
    ensures !IsHeader("  " + s)
  {
    IndentedStripped(s);
    assert ("  " + s)[0] == ' ' && FULL_TEXT[0] == 'T';
    assert RunLength("  " + s) == 0;
  }

  lemma RunOfFour(s: State, a: string, b: string, c: string, d: string)
    ensures Run(s, [a, b, c, d]) == Step(Step(Step(Step(s, a), b), c), d)
  {
    assert [a, b, c, d][1..] == [b, c, d] && [b, c, d][1..] == [c, d] && [c, d][1..] == [d] && [d][1..] == [];
    assert Run(Step(Step(Step(s, a), b), c), [d]) == Step(Step(Step(Step(s, a), b), c), d);
    assert Run(Step(Step(s, a), b), [c, d]) == Run(Step(Step(Step(s, a), b), c), [d]);
    assert Run(Step(s, a), [b, c, d]) == Run(Step(Step(s, a), b), [c, d]);
  }

  lemma MisleadingParsed(f: string, hidden: string)
    requires IsPath(f) && HiddenHeader(hidden)
    ensures Run(START, Misleading(f, hidden)).mods == Misled(f, hidden)
  {
    var entry := Mods(f, [], [], []);
    AddHeaderText(f);
    RemoveHeaderText(f);
    SeparatorText();
    IndentedStripped(hidden);
    IndentedIsNoHeader(hidden);
    RunOfFour(START, f + ADD_TEXT, f + REMOVE_TEXT, "  " + hidden, "---");
    assert Step(START, f + ADD_TEXT) == State([entry], Some(f), ADD, []);
    assert Step(State([entry], Some(f), ADD, []), f + REMOVE_TEXT) == State([entry], Some(f), REMOVE, []);
    assert [] + [hidden] == [hidden];
    assert Step(State([entry], Some(f), REMOVE, []), "  " + hidden) == State(Misled(f, hidden), Some(f), REMOVE, []);
  }

  /** The stripped line is written, and read back as a header: the written entry does not come back. */
  lemma MisreadOutput(f: string, hidden: string)
    requires IsPath(f) && HiddenHeader(hidden)
    ensures var mods := Misled(f, hidden);
        && Run(START, Misleading(f, hidden)).mods == mods && AllCleaned(mods, mods) && WellFormed(mods)
        && !PlainMods(mods)
        && Run(START, Written(mods)) != State(Collect(mods, Rereader), None, NORMAL, [])
  {
    var mods := Misled(f, hidden);
    MisleadingParsed(f, hidden);
    ParsedWellFormed(START, Misleading(f, hidden));
    assert !Plain(mods[0].remove[0]);
    assert !PlainEntry(mods[0]);
    RereadsIff(mods);
  }

  /** For one: a line that names the removals of another file. */
  lemma MisreadExample()
    ensures IsPath("/f") && HiddenHeader("/g" + REMOVE_TEXT)
  {
    RemoveHeaderText("/g");
  }

  // ------------------------------------------------ a third pass that is needed

  /** Two headers that blanks hide in the section of `f`, and a plain line. */
  function Unsettled(f: string, g: string, x: string, line: string): seq<string> {
    [f + ADD_TEXT, f + REMOVE_TEXT, "  " + (g + ADD_TEXT)] + ["  " + (x + REMOVE_TEXT), line, "---"]
  }

  function UnsettledFirst(f: string, g: string, x: string, line: string): seq<Mods> {
    [Mods(f, [], [g + ADD_TEXT, x + REMOVE_TEXT, line], [])]
  }

  function UnsettledSecond(f: string, g: string, line: string): seq<Mods> {
    [Mods(f, [""], [], []), Mods(g, [], [line, ""], [])]
  }

  predicate UnsettledParts(f: string, g: string, x: string, line: string) {
    IsPath(f) && IsPath(g) && IsPath(x) && f != g && line != "" && Trimmed(line) && Plain(line) && !HasInclude(line)
  }

  lemma StoreIn(es: seq<Mods>, e: Mods, mode: Mode, line: string, stored: string)
    requires !Names(es, e.file) && Strip(line) == stored && !IsHeader(line)
    ensures Step(State(es + [e], Some(e.file), mode, []), line)
        == State(es + [AddTo(e, mode, stored)], Some(e.file), mode, [])
  {
    assert AddLine(es + [e], e.file, mode, stored) == es + [AddTo(e, mode, stored)];
  }

  lemma UnsettledFront(f: string, g: string, x: string, line: string)
    requires UnsettledParts(f, g, x, line)
    ensures Run(START, [f + ADD_TEXT, f + REMOVE_TEXT, "  " + (g + ADD_TEXT)])
         == State([Mods(f, [], [g + ADD_TEXT], [])], Some(f), REMOVE, [])
  {
    AddHeaderText(f);
    RemoveHeaderText(f);
    HeadersTrimmed(g);
    IndentedStripped(g + ADD_TEXT);
    IndentedIsNoHeader(g + ADD_TEXT);
    var e := Mods(f, [], [], []);
    assert Step(START, f + ADD_TEXT) == State([e], Some(f), ADD, []);
    assert Step(State([e], Some(f), ADD, []), f + REMOVE_TEXT) == State([e], Some(f), REMOVE, []);
    StoreIn([], e, REMOVE, "  " + (g + ADD_TEXT), g + ADD_TEXT);
    assert [] + [e] == [e] && [] + [g + ADD_TEXT] == [g + ADD_TEXT];
    RunThree(START, f + ADD_TEXT, f + REMOVE_TEXT, "  " + (g + ADD_TEXT));
  }

  lemma UnsettledBack(f: string, g: string, x: string, line: string)
    requires UnsettledParts(f, g, x, line)
    ensures Run(State([Mods(f, [], [g + ADD_TEXT], [])], Some(f), REMOVE, []), ["  " + (x + REMOVE_TEXT), line, "---"])
         == State(UnsettledFirst(f, g, x, line), None, NORMAL, [])
  {
    HeadersTrimmed(x);
    IndentedStripped(x + REMOVE_TEXT);
    IndentedIsNoHeader(x + REMOVE_TEXT);
    StripTrims(line);
    SeparatorText();
    var e0 := Mods(f, [], [g + ADD_TEXT], []);
    var e1 := Mods(f, [], [g + ADD_TEXT, x + REMOVE_TEXT], []);
    StoreIn([], e0, REMOVE, "  " + (x + REMOVE_TEXT), x + REMOVE_TEXT);
    StoreIn([], e1, REMOVE, line, line);
    assert [g + ADD_TEXT] + [x + REMOVE_TEXT] == [g + ADD_TEXT, x + REMOVE_TEXT];
    assert [g + ADD_TEXT, x + REMOVE_TEXT] + [line] == [g + ADD_TEXT, x + REMOVE_TEXT, line];
    assert [] + [e0] == [e0] && [] + [e1] == [e1];
    RunThree(State([e0], Some(f), REMOVE, []), "  " + (x + REMOVE_TEXT), line, "---");
  }

  lemma TextsDiffer(g: string, x: string, line: string)
    requires IsPath(g) && IsPath(x) && Plain(line)
    ensures g + ADD_TEXT != x + REMOVE_TEXT && g + ADD_TEXT != line && x + REMOVE_TEXT != line
  {
    AddHeaderText(g);
    RemoveHeaderText(x);
  }

  lemma UnsettledRun(f: string, g: string, x: string, line: string)
    requires UnsettledParts(f, g, x, line)
    ensures Run(START, Unsettled(f, g, x, line)).mods == UnsettledFirst(f, g, x, line)
  {
    UnsettledFront(f, g, x, line);
    UnsettledBack(f, g, x, line);
    RunConcat(START, [f + ADD_TEXT, f + REMOVE_TEXT, "  " + (g + ADD_TEXT)], ["  " + (x + REMOVE_TEXT), line, "---"]);
  }

  lemma OnlyRemovalsCleaned(f: string, remove: seq<string>)
    requires Distinct(remove)
    ensures AllCleaned([Mods(f, [], remove, [])], [Mods(f, [], remove, [])])
  {
  }

  lemma UnsettledParsed(f: string, g: string, x: string, line: string)
    requires UnsettledParts(f, g, x, line)
    ensures Run(START, Unsettled(f, g, x, line)).mods == UnsettledFirst(f, g, x, line)
    ensures AllCleaned(Run(START, Unsettled(f, g, x, line)).mods, UnsettledFirst(f, g, x, line))
  {
    UnsettledRun(f, g, x, line);
    TextsDiffer(g, x, line);
    OnlyRemovalsCleaned(f, [g + ADD_TEXT, x + REMOVE_TEXT, line]);
  }

  /** Read back, the hidden headers move the plain line, and the printer's blank one, to the other file. */
  lemma UnsettledReread(f: string, g: string, x: string, line: string)
    requires UnsettledParts(f, g, x, line)
    ensures Run(START, Written(UnsettledFirst(f, g, x, line))).mods == UnsettledSecond(f, g, line)
  {
    var front, headers, rest := [f + ADD_TEXT, "", f + REMOVE_TEXT], [g + ADD_TEXT, x + REMOVE_TEXT, line],
                                ["", FULL_TEXT + f + ":", "---"];
    UnsettledBlock(f, g, x, line);
    OpenBlock([], f, []);
    assert [] + [Mods(f, [""], [], [])] == [Mods(f, [""], [], [])];
    RunConcat(START, front, headers);
    RunConcat(START, front + headers, rest);
    UnsettledHeaders(f, g, x, line);
    UnsettledRest(f, g, x, line);
  }

  lemma UnsettledBlock(f: string, g: string, x: string, line: string)
    ensures Written(UnsettledFirst(f, g, x, line))
         == [f + ADD_TEXT, "", f + REMOVE_TEXT] + [g + ADD_TEXT, x + REMOVE_TEXT, line]
             + ["", FULL_TEXT + f + ":", "---"]
  {
    var m := UnsettledFirst(f, g, x, line)[0];
    assert Image([m], Block) == [Block(m)];
    assert Flatten([Block(m)]) == Block(m) + Flatten<string>([]) == Block(m);
    assert ["", FULL_TEXT + f + ":"] + [] + ["---"] == ["", FULL_TEXT + f + ":", "---"];
  }

  lemma UnsettledHeaders(f: string, g: string, x: string, line: string)
    requires UnsettledParts(f, g, x, line)
    ensures Run(State([Mods(f, [""], [], [])], Some(f), REMOVE, []), [g + ADD_TEXT, x + REMOVE_TEXT, line])
         == State([Mods(f, [""], [], []), Mods(g, [], [line], [])], Some(g), REMOVE, [])
  {
    AddHeaderText(g);
    RemoveHeaderText(x);
    StripTrims(line);
    var e, fresh_ := Mods(f, [""], [], []), Mods(g, [], [], []);
    var s0 := State([e], Some(f), REMOVE, []);
    assert Step(s0, g + ADD_TEXT) == State([e] + [fresh_], Some(g), ADD, []);
    assert Step(State([e] + [fresh_], Some(g), ADD, []), x + REMOVE_TEXT) == State([e] + [fresh_], Some(g), REMOVE, []);
    StoreIn([e], fresh_, REMOVE, line, line);
    assert [] + [line] == [line];
    RunThree(s0, g + ADD_TEXT, x + REMOVE_TEXT, line);
  }

  lemma UnsettledRest(f: string, g: string, x: string, line: string)
    requires UnsettledParts(f, g, x, line)
    ensures Run(State([Mods(f, [""], [], []), Mods(g, [], [line], [])], Some(g), REMOVE, []),
                ["", FULL_TEXT + f + ":", "---"])
         == State(UnsettledSecond(f, g, line), None, NORMAL, [])
  {
    BlankText();
    FullHeaderText(f);
    SeparatorText();
    var e, m := Mods(f, [""], [], []), Mods(g, [], [line], []);
    StoreIn([e], m, REMOVE, "", "");
    assert [e] + [m] == [e, m] && [line] + [""] == [line, ""];
    RunThree(State([e, m], Some(g), REMOVE, []), "", FULL_TEXT + f + ":", "---");
  }

  lemma UnsettledCleaned(f: string, g: string, line: string)
    requires line != ""
    ensures AllCleaned(UnsettledSecond(f, g, line), UnsettledSecond(f, g, line))
  {
    var p := UnsettledSecond(f, g, line);
    assert ExtractIncludeFile("") == None;
  }

  /** The second pass still writes lines that the third does not: two passes are not enough for every input. */
  lemma ThirdPassNeeded(f: string, g: string, x: string, line: string, p3: seq<Mods>)
    requires UnsettledParts(f, g, x, line) && Pass(UnsettledSecond(f, g, line), p3)
    ensures AllCleaned(Run(START, Unsettled(f, g, x, line)).mods, UnsettledFirst(f, g, x, line))
    ensures Pass(UnsettledFirst(f, g, x, line), UnsettledSecond(f, g, line))
    ensures !SameOutput(UnsettledSecond(f, g, line), p3)
  {
    var p1, p2 := UnsettledFirst(f, g, x, line), UnsettledSecond(f, g, line);
    UnsettledParsed(f, g, x, line);
    FirstPassWellFormed(Unsettled(f, g, x, line), p1);
    UnsettledReread(f, g, x, line);
    UnsettledCleaned(f, g, line);
    SecondPassPlain(p1, p2);
    SecondPass(p2, p3);
    UnsettledListed(f, g, line);
    assert KeepsIncludes(Mods(g, [], [line, ""], []), p3[0]);
    assert ExtractIncludeFile("") == None;
    EmptyOrMember(p3[0].remove);
    assert p3 == [p3[0]] && Collect(p3, Listed) == [] by { assert p3[1..] == []; }
  }

  lemma UnsettledListed(f: string, g: string, line: string)
    ensures Collect(UnsettledSecond(f, g, line), Listed) == [Mods(g, [], [line, ""], [])]
  {
    var p := UnsettledSecond(f, g, line);
    assert p[1..] == [p[1]] && p[1..][1..] == [];
    assert Collect(p[1..], Listed) == [p[1]] + [];
  }

  lemma ThirdPassExample()
    ensures UnsettledParts("/f", "/g", "/x", "foo")
  {
    assert "/f"[1] != "/g"[1];
    assert FULL_TEXT[0] == 'T';
    assert RunLength("foo") == 3;
    StripTrims("foo");
    assert "foo"[0] != '-';
    assert |INCLUDE_TEXT| == 8;
  }

  /** The whole filter: parse, clean up, print. */
  method FilterOutput(input: seq<string>) returns (out: seq<string>, printed: seq<string>, ghost mods: seq<Mods>)
    ensures AllCleaned(Run(START, input).mods, mods) && WellFormed(mods)
    ensures out == Written(mods) && printed == Run(START, input).printed
    ensures HoldsSections(Run(START, input).mods, input, Shapes(input), |input|)
    ensures printed == PassedOn(input, Shapes(input), |input|)
  {
    var parsed, passedOn := ParseOutput(input);
    var cleaned := PostProcessIncludes(parsed);
    ParsedWellFormed(START, input);
    CleanedWellFormed(parsed, cleaned);
    out := WriteOutput(cleaned);
    printed, mods := passedOn, cleaned;
  }
}
