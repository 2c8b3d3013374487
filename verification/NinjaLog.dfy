/**
  Reading a ninja log: a drop in end times starts a new build and forgets what was
  read; within a build the first line of each command counts.
 */
module NinjaLog {
  import opened Outcomes
  import opened NinjaThreads

  /** One well-formed line: the output, its times and size, and the command hash. */
  datatype Item = Item(hash: string, name: string, entry: Entry)

  /** A line split at blanks. */
  type Line = seq<string>

  /** What the log depends on besides its text: integer syntax and file sizes. */
  datatype Reader = Reader(int_: string -> Option<int>, exists_: string -> bool, getsize: string -> Option<int>) {
    /**
      The size of an output. Existence is looked up in one directory and the size
      in another, so the size of a file that exists may still be missing, and that throws.
     */
    function SizeOf(name: string): Option<int> { if exists_(name) then getsize(name) else Some(0) }
  }

  predicate HasFields(line: Line) { |line| > 4 }

  predicate Readable(line: Line, rd: Reader) {
    HasFields(line) ==> rd.SizeOf(line[3]).Some? && rd.int_(line[0]).Some? && rd.int_(line[1]).Some?
  }

  predicate AllReadable(lines: seq<Line>, rd: Reader) { forall i :: 0 <= i < |lines| ==> Readable(lines[i], rd) }

  function ItemOf(line: Line, rd: Reader): Item
    requires HasFields(line) && Readable(line, rd)
  {
    Item(line[4], line[3], Entry(rd.int_(line[0]).value, rd.int_(line[1]).value, rd.SizeOf(line[3]).value))
  }

  /** The well-formed lines. */
  function Items(lines: seq<Line>, rd: Reader): seq<Item>
    requires AllReadable(lines, rd)
  {
    if lines == [] then []
    else
      var n := |lines| - 1;
      Items(lines[..n], rd) + if HasFields(lines[n]) then [ItemOf(lines[n], rd)] else []
  }

  // -------------------------------------------------------- what should be read

  /** Line `i` ends before the line before it. */
  predicate Drops(items: seq<Item>, i: nat)
    requires i < |items|
  {
    i > 0 && items[i].entry.end < items[i - 1].entry.end
  }

  /** No drop after `i` up to `j`. */
  predicate SameBuild(items: seq<Item>, i: nat, j: nat)
    requires j < |items|
  {
    forall k :: i < k <= j ==> !Drops(items, k)
  }

  /** The item's hash is new in its build. */
  predicate FirstHash(items: seq<Item>, i: nat)
    requires i < |items|
  {
    forall j: nat :: j < i && SameBuild(items, j, i) ==> items[j].hash != items[i].hash
  }

  /** In the last build, and the first there with its hash. */
  predicate Kept(items: seq<Item>, i: nat)
    requires i < |items|
  {
    SameBuild(items, i, |items| - 1) && FirstHash(items, i)
  }

  /** The last kept line that wrote `name`. */
  predicate Decides(items: seq<Item>, i: nat, name: string) {
    && i < |items| && Kept(items, i) && items[i].name == name
    && forall j: nat :: i < j < |items| && Kept(items, j) ==> items[j].name != name
  }

  ghost predicate IsLogMap(items: seq<Item>, entries: Entries) {
    && (forall name :: name in entries <==> exists i: nat :: Decides(items, i, name))
    && forall name, i: nat :: Decides(items, i, name) ==> name in entries && entries[name] == items[i].entry
  }

  // ------------------------------------------------------------- what is read

  predicate HasHash(files: seq<Item>, hash: string) { exists k :: 0 <= k < |files| && files[k].hash == hash }

  /** `files` after one more line, when the last line ended at `last`. */
  function Step(files: seq<Item>, last: int, item: Item): seq<Item> {
    var current := if item.entry.end < last then [] else files;
    if HasHash(current, item.hash) then current else current + [item]
  }

  function LastEnd(items: seq<Item>): int { if items == [] then 0 else items[|items| - 1].entry.end }

  function Files(items: seq<Item>): seq<Item> {
    if items == [] then []
    else
      var n := |items| - 1;
      Step(Files(items[..n]), LastEnd(items[..n]), items[n])
  }

  /** Later entries replace earlier ones of the same name. */
  function ByName(files: seq<Item>): Entries {
    if files == [] then map[]
    else
      var n := |files| - 1;
      ByName(files[..n])[files[n].name := files[n].entry]
  }

  method BuildEntries(files: seq<Item>) returns (entries: Entries)
    ensures entries == ByName(files)
  {
    entries := map[];
    for k := 0 to |files|
      invariant entries == ByName(files[..k])
    {
      assert files[..k + 1][..k] == files[..k];
      entries := entries[files[k].name := files[k].entry];
    }
    assert files[..|files|] == files;
  }

  lemma ItemsSnoc(lines: seq<Line>, i: nat, rd: Reader)
    requires i < |lines| && AllReadable(lines[..i], rd) && Readable(lines[i], rd)
    ensures AllReadable(lines[..i + 1], rd)
    ensures Items(lines[..i + 1], rd)
         == if HasFields(lines[i]) then Items(lines[..i], rd) + [ItemOf(lines[i], rd)] else Items(lines[..i], rd)
  {
    assert lines[..i + 1][..i] == lines[..i] && lines[..i + 1][i] == lines[i];
    assert AllReadable(lines[..i + 1], rd);
  }

  method BuildLogMap(lines: seq<Line>, rd: Reader) returns (r: Result<Entries>)
    ensures r.Success? <==> forall i :: 0 <= i < |lines| && |lines[i]| > 4 ==>
        && rd.int_(lines[i][0]).Some? && rd.int_(lines[i][1]).Some?
        && (rd.exists_(lines[i][3]) ==> rd.getsize(lines[i][3]).Some?)
    ensures r.Success? ==> IsMapOfLines(lines, rd, r.value)
    ensures r.Success? ==> AllReadable(lines, rd) && r.value == ByName(Files(Items(lines, rd)))
  {
    assert forall i :: 0 <= i < |lines| ==> (Readable(lines[i], rd) <==> |lines[i]| > 4 ==>
        && rd.int_(lines[i][0]).Some? && rd.int_(lines[i][1]).Some?
        && (rd.exists_(lines[i][3]) ==> rd.getsize(lines[i][3]).Some?));
    var last := 0;
    var files: seq<Item> := [];
    for i := 0 to |lines|
      invariant AllReadable(lines[..i], rd)
      invariant files == Files(Items(lines[..i], rd)) && last == LastEnd(Items(lines[..i], rd))
    {
      if |lines[i]| > 4 {
        var size := rd.SizeOf(lines[i][3]);
        var start, end := rd.int_(lines[i][0]), rd.int_(lines[i][1]);
        if size.None? || start.None? || end.None? {
          assert !Readable(lines[i], rd);
          return Failure;
        }
        var item := Item(lines[i][4], lines[i][3], Entry(start.value, end.value, size.value));
        FilesSnoc(Items(lines[..i], rd), item);
        if end.value < last {
          files := [];
        }
        last := end.value;
        if !HasHash(files, item.hash) {
          files := files + [item];
        }
      }
      ItemsSnoc(lines, i, rd);
    }
    assert lines[..|lines|] == lines;
    MapOfLines(lines, rd);
    var entries := BuildEntries(files);
    r := Success(entries);
  }

  lemma FilesSnoc(items: seq<Item>, item: Item)
    ensures Files(items + [item]) == Step(Files(items), LastEnd(items), item)
    ensures LastEnd(items + [item]) == item.entry.end
  {
    assert (items + [item])[..|items|] == items;
  }

  // ----------------------------------------------------------- why they agree

  /** `idx` are the positions of the kept lines, in order. */
  ghost predicate Lists(items: seq<Item>, files: seq<Item>, idx: seq<nat>) {
    && |idx| == |files|
    && (forall k :: 0 <= k < |idx| ==> idx[k] < |items| && files[k] == items[idx[k]] && Kept(items, idx[k]))
    && (forall k, l :: 0 <= k < l < |idx| ==> idx[k] < idx[l])
    && (forall i: nat :: i < |items| && Kept(items, i) ==> i in idx)
  }

  /** Every line of the last build has its hash among the kept lines. */
  ghost predicate Covers(items: seq<Item>, files: seq<Item>) {
    forall j: nat :: j < |items| && SameBuild(items, j, |items| - 1) ==> HasHash(files, items[j].hash)
  }

  lemma DropsPrefix(items: seq<Item>, n: nat, k: nat)
    requires k < n <= |items|
    ensures Drops(items[..n], k) <==> Drops(items, k)
  {
  }

  lemma SameBuildPrefix(items: seq<Item>, n: nat, i: nat, j: nat)
    requires j < n <= |items|
    ensures SameBuild(items[..n], i, j) <==> SameBuild(items, i, j)
  {
    forall k | i < k <= j ensures Drops(items[..n], k) <==> Drops(items, k) {
      DropsPrefix(items, n, k);
    }
  }

  /** An earlier line stays kept exactly when the new line does not drop. */
  lemma KeptStep(items: seq<Item>, i: nat)
    requires i + 1 < |items|
    ensures Kept(items, i) <==> Kept(items[..|items| - 1], i) && !Drops(items, |items| - 1)
  {
    var n := |items| - 1;
    SameBuildPrefix(items, n, i, n - 1);
    assert SameBuild(items, i, n) <==> SameBuild(items, i, n - 1) && !Drops(items, n);
    forall j | 0 <= j < i ensures SameBuild(items[..n], j, i) <==> SameBuild(items, j, i) {
      SameBuildPrefix(items, n, j, i);
    }
  }

  lemma BuildStep(items: seq<Item>, j: nat)
    requires j + 1 < |items|
    ensures SameBuild(items, j, |items| - 1)
        <==> SameBuild(items[..|items| - 1], j, |items| - 2) && !Drops(items, |items| - 1)
  {
    var n := |items| - 1;
    SameBuildPrefix(items, n, j, n - 1);
    assert SameBuild(items, j, n) <==> SameBuild(items, j, n - 1) && !Drops(items, n);
  }

  /** A line that drops, or whose hash is new in its build, is kept. */
  lemma LastKept(items: seq<Item>, files: seq<Item>, idx: seq<nat>)
    requires items != []
    requires var n := |items| - 1; Lists(items[..n], files, idx) && Covers(items[..n], files)
    ensures var n := |items| - 1; Kept(items, n) <==> Drops(items, n) || !HasHash(files, items[n].hash)
  {
    var n := |items| - 1;
    if Drops(items, n) {
      forall j: nat | j < n ensures !SameBuild(items, j, n) {}
    } else {
      if !Kept(items, n) {
        var j: nat :| j < n && SameBuild(items, j, n) && items[j].hash == items[n].hash;
        BuildStep(items, j);
        assert HasHash(files, items[..n][j].hash);
      }
      if HasHash(files, items[n].hash) {
        var k :| 0 <= k < |files| && files[k].hash == items[n].hash;
        assert Kept(items[..n], idx[k]) && items[..n][idx[k]] == files[k];
        BuildStep(items, idx[k]);
      }
    }
  }

  lemma DropIffBelowLast(items: seq<Item>)
    requires items != []
    ensures var n := |items| - 1; n > 0 ==> (Drops(items, n) <==> items[n].entry.end < LastEnd(items[..n]))
  {
  }

  lemma ListsDropped(items: seq<Item>)
    requires items != [] && Drops(items, |items| - 1)
    ensures Lists(items, [items[|items| - 1]], [|items| - 1])
  {
    var n := |items| - 1;
    forall i: nat | i < n ensures !Kept(items, i) {
      KeptStep(items, i);
    }
    DroppedIsKept(items);
  }

  lemma DroppedIsKept(items: seq<Item>)
    requires items != [] && Drops(items, |items| - 1)
    ensures Kept(items, |items| - 1)
  {
    var n := |items| - 1;
    forall j: nat | j < n ensures !SameBuild(items, j, n) {
      BuildStep(items, j);
    }
  }

  lemma ListsStays(items: seq<Item>, files: seq<Item>, idx: seq<nat>)
    requires items != [] && !Drops(items, |items| - 1) && Lists(items[..|items| - 1], files, idx)
    ensures Kept(items, |items| - 1) ==> Lists(items, files + [items[|items| - 1]], idx + [|items| - 1])
    ensures !Kept(items, |items| - 1) ==> Lists(items, files, idx)
  {
    var n := |items| - 1;
    forall i: nat | i < n ensures Kept(items, i) <==> Kept(items[..n], i) {
      KeptStep(items, i);
    }
    forall k | 0 <= k < |idx| ensures idx[k] < n && files[k] == items[idx[k]] && Kept(items, idx[k]) {
      assert Kept(items[..n], idx[k]);
    }
  }

  /** One more line starts the list anew, joins it, or is left out. */
  function NextFiles(items: seq<Item>, files: seq<Item>): seq<Item>
    requires items != []
  {
    var n := |items| - 1;
    if Drops(items, n) then [items[n]] else if Kept(items, n) then files + [items[n]] else files
  }

  function NextIndices(items: seq<Item>, idx: seq<nat>): seq<nat>
    requires items != []
  {
    var n := |items| - 1;
    if Drops(items, n) then [n] else if Kept(items, n) then idx + [n] else idx
  }

  lemma StepIsNext(items: seq<Item>, files: seq<Item>, idx: seq<nat>)
    requires items != []
    requires var n := |items| - 1; Lists(items[..n], files, idx) && Covers(items[..n], files)
    ensures var n := |items| - 1; Step(files, LastEnd(items[..n]), items[n]) == NextFiles(items, files)
  {
    var n := |items| - 1;
    DropIffBelowLast(items);
    LastKept(items, files, idx);
    assert [] + [items[n]] == [items[n]];
    assert |idx| > 0 ==> idx[0] < |items[..n]|;
  }

  lemma ListsNext(items: seq<Item>, files: seq<Item>, idx: seq<nat>)
    requires items != [] && Lists(items[..|items| - 1], files, idx)
    ensures Lists(items, NextFiles(items, files), NextIndices(items, idx))
  {
    if Drops(items, |items| - 1) {
      ListsDropped(items);
    } else {
      ListsStays(items, files, idx);
    }
  }

  lemma StepCovers(items: seq<Item>, files: seq<Item>)
    requires items != []
    requires var n := |items| - 1; Covers(items[..n], files)
    ensures var n := |items| - 1; Covers(items, Step(files, LastEnd(items[..n]), items[n]))
  {
    var n := |items| - 1;
    DropIffBelowLast(items);
    var after := Step(files, LastEnd(items[..n]), items[n]);
    forall j: nat | j < |items| && SameBuild(items, j, n) ensures HasHash(after, items[j].hash) {
      if j < n {
        BuildStep(items, j);
        var k :| 0 <= k < |files| && files[k].hash == items[..n][j].hash;
        assert after[k].hash == items[j].hash;
      } else {
        var current := if items[n].entry.end < LastEnd(items[..n]) then [] else files;
        assert !HasHash(current, items[n].hash) ==> after[|current|] == items[n];
      }
    }
  }

  /** The lines the loop holds are exactly the kept ones, in order. */
  lemma {:induction false} FilesListKept(items: seq<Item>) returns (idx: seq<nat>)
    ensures Lists(items, Files(items), idx) && Covers(items, Files(items))
  {
    if items == [] {
      idx := [];
    } else {
      var n := |items| - 1;
      idx := FilesListKept(items[..n]);
      StepCovers(items, Files(items[..n]));
      StepIsNext(items, Files(items[..n]), idx);
      ListsNext(items, Files(items[..n]), idx);
      idx := NextIndices(items, idx);
    }
  }

  /** The last of the kept lines with each name decides. */
  lemma {:induction false} ByNameLast(files: seq<Item>, name: string)
    ensures name in ByName(files) <==> exists k :: 0 <= k < |files| && files[k].name == name
    ensures forall k ::
        0 <= k < |files| && files[k].name == name && (forall l :: k < l < |files| ==> files[l].name != name) ==>
        name in ByName(files) && ByName(files)[name] == files[k].entry
  {
    if files != [] {
      var n := |files| - 1;
      ByNameLast(files[..n], name);
      assert forall k :: 0 <= k < n ==> files[..n][k] == files[k];
    }
  }

  lemma DecidesInFiles(items: seq<Item>, files: seq<Item>, idx: seq<nat>, i: nat, name: string)
    requires Lists(items, files, idx) && Decides(items, i, name)
    ensures name in ByName(files) && ByName(files)[name] == items[i].entry
  {
    var k :| 0 <= k < |idx| && idx[k] == i;
    forall l | k < l < |files| ensures files[l].name != name {
      assert idx[k] < idx[l] && Kept(items, idx[l]);
    }
    ByNameLast(files, name);
  }

  lemma {:induction false} LastNamed(files: seq<Item>, name: string) returns (k: nat)
    requires exists l :: 0 <= l < |files| && files[l].name == name
    ensures k < |files| && files[k].name == name && forall l :: k < l < |files| ==> files[l].name != name
  {
    var n := |files| - 1;
    if files[n].name == name {
      k := n;
    } else {
      var l :| 0 <= l < |files| && files[l].name == name;
      assert files[..n][l].name == name;
      k := LastNamed(files[..n], name);
      assert forall l :: k < l < n ==> files[..n][l] == files[l];
    }
  }

  lemma NamedIsDecided(items: seq<Item>, files: seq<Item>, idx: seq<nat>, name: string)
    requires Lists(items, files, idx) && name in ByName(files)
    ensures exists i: nat :: Decides(items, i, name)
  {
    ByNameLast(files, name);
    var k := LastNamed(files, name);
    LastNamedDecides(items, files, idx, k, name);
  }

  lemma LastNamedDecides(items: seq<Item>, files: seq<Item>, idx: seq<nat>, k: nat, name: string)
    requires Lists(items, files, idx) && k < |files| && files[k].name == name
    requires forall l :: k < l < |files| ==> files[l].name != name
    ensures Decides(items, idx[k], name)
  {
    forall j: nat | idx[k] < j < |items| && Kept(items, j) ensures items[j].name != name {
      var l :| 0 <= l < |idx| && idx[l] == j;
      assert l > k;
    }
  }

  /** The map read is the simple definition: last build, first line per hash, last per name. */
  lemma ReadMapIsLogMap(items: seq<Item>)
    ensures IsLogMap(items, ByName(Files(items)))
  {
    var idx := FilesListKept(items);
    var entries := ByName(Files(items));
    forall name ensures name in entries <==> exists i: nat :: Decides(items, i, name) {
      if name in entries {
        NamedIsDecided(items, Files(items), idx, name);
      }
      if exists i: nat :: Decides(items, i, name) {
        var i: nat :| Decides(items, i, name);
        DecidesInFiles(items, Files(items), idx, i, name);
      }
    }
    forall name, i: nat | Decides(items, i, name) ensures name in entries && entries[name] == items[i].entry {
      DecidesInFiles(items, Files(items), idx, i, name);
    }
  }

  // ---------------------------------------------------- the map told by the lines

  ghost predicate Counts(lines: seq<Line>, i: int) { 0 <= i < |lines| && |lines[i]| > 4 }

  /** The value of a field that holds an integer. */
  function Number(rd: Reader, field: string): int {
    match rd.int_(field)
    case Some(n) => n
    case None => 0
  }

  /** `p` is the line with fields before line `i`, and has a larger second field. */
  ghost predicate DropsFrom(lines: seq<Line>, rd: Reader, p: int, i: int) {
    && 0 <= p < i && Counts(lines, p) && Counts(lines, i) && (forall k :: p < k < i ==> !Counts(lines, k))
    && Number(rd, lines[i][1]) < Number(rd, lines[p][1])
  }

  ghost predicate LineDrops(lines: seq<Line>, rd: Reader, i: int) { exists p :: DropsFrom(lines, rd, p, i) }

  ghost predicate LinesTogether(lines: seq<Line>, rd: Reader, i: int, j: int) {
    forall k :: i < k <= j ==> !LineDrops(lines, rd, k)
  }

  /** The line's fifth field is new in its build. */
  ghost predicate FirstField(lines: seq<Line>, rd: Reader, i: int)
    requires Counts(lines, i)
  {
    forall j :: 0 <= j < i && Counts(lines, j) && LinesTogether(lines, rd, j, i) ==> lines[j][4] != lines[i][4]
  }

  /** The line is of the last build, and no earlier line of it has the same fifth field. */
  ghost predicate LineKept(lines: seq<Line>, rd: Reader, i: int) {
    Counts(lines, i) && LinesTogether(lines, rd, i, |lines| - 1) && FirstField(lines, rd, i)
  }

  /** The last kept line whose fourth field is `name`. */
  ghost predicate LineDecides(lines: seq<Line>, rd: Reader, i: int, name: string) {
    && LineKept(lines, rd, i) && lines[i][3] == name
    && forall j :: i < j < |lines| && LineKept(lines, rd, j) ==> lines[j][3] != name
  }

  /** Start, end and size as the line has them: its first two fields, and the size of its fourth if that exists. */
  ghost predicate IsEntryOf(line: Line, rd: Reader, e: Entry)
    requires |line| > 4
  {
    && rd.int_(line[0]) == Some(e.start) && rd.int_(line[1]) == Some(e.end)
    && if rd.exists_(line[3]) then rd.getsize(line[3]) == Some(e.size) else e.size == 0
  }

  /** A name is in the map when a line decides about it, with that line's entry. */
  ghost predicate IsMapOfLines(lines: seq<Line>, rd: Reader, entries: Entries) {
    && (forall name :: name in entries <==> exists i :: LineDecides(lines, rd, i, name))
    && forall name, i :: LineDecides(lines, rd, i, name) && name in entries ==>
        IsEntryOf(lines[i], rd, entries[name])
  }

  /** `at` are the numbers of the lines with fields, in order. */
  ghost predicate Numbers(lines: seq<Line>, rd: Reader, items: seq<Item>, at: seq<nat>)
    requires AllReadable(lines, rd)
  {
    && |at| == |items|
    && (forall k :: 0 <= k < |at| ==> Counts(lines, at[k]) && items[k] == ItemOf(lines[at[k]], rd))
    && (forall k, l :: 0 <= k < l < |at| ==> at[k] < at[l])
    && (forall i :: Counts(lines, i) ==> i in at)
  }

  /** One more line. */
  lemma NumbersNext(lines: seq<Line>, rd: Reader, items: seq<Item>, at: seq<nat>)
    requires lines != [] && AllReadable(lines, rd)
    requires var n := |lines| - 1; AllReadable(lines[..n], rd) && Numbers(lines[..n], rd, items, at)
    ensures var n := |lines| - 1;
            if HasFields(lines[n]) then Numbers(lines, rd, items + [ItemOf(lines[n], rd)], at + [n])
            else Numbers(lines, rd, items, at)
  {
    var n := |lines| - 1;
    forall i | Counts(lines, i) && i < n ensures i in at {
      assert Counts(lines[..n], i);
    }
    assert forall k :: 0 <= k < |at| ==> Counts(lines[..n], at[k]);
  }

  lemma {:induction false} ItemsNumbered(lines: seq<Line>, rd: Reader) returns (at: seq<nat>)
    requires AllReadable(lines, rd)
    ensures Numbers(lines, rd, Items(lines, rd), at)
  {
    at := [];
    if lines != [] {
      var n := |lines| - 1;
      at := ItemsNumbered(lines[..n], rd);
      NumbersNext(lines, rd, Items(lines[..n], rd), at);
      at := if HasFields(lines[n]) then at + [n] else at;
    }
  }

  lemma NumberBetween(lines: seq<Line>, rd: Reader, items: seq<Item>, at: seq<nat>, k: nat, i: int)
    requires AllReadable(lines, rd) && Numbers(lines, rd, items, at) && 0 < k < |at|
    ensures at[k - 1] < i < at[k] ==> !Counts(lines, i)
  {
    assert forall l :: 0 <= l < |at| ==> at[l] <= at[k - 1] || at[k] <= at[l];
  }

  /** A drop between items is a drop between their lines. */
  lemma SameDrops(lines: seq<Line>, rd: Reader, items: seq<Item>, at: seq<nat>, k: nat)
    requires AllReadable(lines, rd) && Numbers(lines, rd, items, at) && k < |at|
    ensures Drops(items, k) <==> LineDrops(lines, rd, at[k])
  {
    assert Readable(lines[at[k]], rd);
    if k > 0 {
      assert Readable(lines[at[k - 1]], rd);
      forall i | at[k - 1] < i < at[k] ensures !Counts(lines, i) {
        NumberBetween(lines, rd, items, at, k, i);
      }
      assert Drops(items, k) ==> DropsFrom(lines, rd, at[k - 1], at[k]);
    }
    if p :| DropsFrom(lines, rd, p, at[k]) {
      var l :| 0 <= l < |at| && at[l] == p;
      assert l < k;
      assert at[k - 1] <= p;
      assert l == k - 1;
    }
  }

  lemma SameTogether(lines: seq<Line>, rd: Reader, items: seq<Item>, at: seq<nat>, i: nat, j: nat)
    requires AllReadable(lines, rd) && Numbers(lines, rd, items, at) && i <= j < |at|
    ensures SameBuild(items, i, j) <==> LinesTogether(lines, rd, at[i], at[j])
  {
    if SameBuild(items, i, j) {
      forall m | at[i] < m <= at[j] ensures !LineDrops(lines, rd, m) {
        if Counts(lines, m) {
          var k :| 0 <= k < |at| && at[k] == m;
          assert i < k <= j;
          SameDrops(lines, rd, items, at, k);
        }
      }
    }
    if LinesTogether(lines, rd, at[i], at[j]) {
      forall k | i < k <= j ensures !Drops(items, k) {
        SameDrops(lines, rd, items, at, k);
      }
    }
  }

  /** Behind the last line with fields nothing drops. */
  lemma TogetherToEnd(lines: seq<Line>, rd: Reader, items: seq<Item>, at: seq<nat>, i: nat)
    requires AllReadable(lines, rd) && Numbers(lines, rd, items, at) && i < |at|
    ensures LinesTogether(lines, rd, at[i], at[|at| - 1]) <==> LinesTogether(lines, rd, at[i], |lines| - 1)
  {
    assert forall k :: 0 <= k < |at| ==> at[k] <= at[|at| - 1];
    forall m | at[|at| - 1] < m ensures !LineDrops(lines, rd, m) {
      assert m !in at;
    }
  }

  lemma SameFirst(lines: seq<Line>, rd: Reader, items: seq<Item>, at: seq<nat>, i: nat)
    requires AllReadable(lines, rd) && Numbers(lines, rd, items, at) && i < |at|
    ensures FirstHash(items, i) <==> FirstField(lines, rd, at[i])
  {
    if FirstHash(items, i) {
      forall m | 0 <= m < at[i] && Counts(lines, m) && LinesTogether(lines, rd, m, at[i])
        ensures lines[m][4] != lines[at[i]][4]
      {
        var j :| 0 <= j < |at| && at[j] == m;
        assert j < i;
        SameTogether(lines, rd, items, at, j, i);
        assert items[j].hash == lines[m][4];
      }
    }
    if FirstField(lines, rd, at[i]) {
      forall j: nat | j < i && SameBuild(items, j, i) ensures items[j].hash != items[i].hash {
        SameTogether(lines, rd, items, at, j, i);
        assert items[j].hash == lines[at[j]][4];
      }
    }
  }

  lemma SameKept(lines: seq<Line>, rd: Reader, items: seq<Item>, at: seq<nat>, i: nat)
    requires AllReadable(lines, rd) && Numbers(lines, rd, items, at) && i < |at|
    ensures Kept(items, i) <==> LineKept(lines, rd, at[i])
  {
    SameTogether(lines, rd, items, at, i, |at| - 1);
    TogetherToEnd(lines, rd, items, at, i);
    SameFirst(lines, rd, items, at, i);
  }

  lemma SameDecides(lines: seq<Line>, rd: Reader, items: seq<Item>, at: seq<nat>, i: nat, name: string)
    requires AllReadable(lines, rd) && Numbers(lines, rd, items, at) && i < |at|
    ensures Decides(items, i, name) <==> LineDecides(lines, rd, at[i], name)
  {
    SameKept(lines, rd, items, at, i);
    assert items[i].name == lines[at[i]][3];
    if Decides(items, i, name) {
      forall m | at[i] < m < |lines| && LineKept(lines, rd, m) ensures lines[m][3] != name {
        var j :| 0 <= j < |at| && at[j] == m;
        assert i < j;
        SameKept(lines, rd, items, at, j);
        assert items[j].name == lines[m][3];
      }
    }
    if LineDecides(lines, rd, at[i], name) {
      forall j: nat | i < j < |items| && Kept(items, j) ensures items[j].name != name {
        SameKept(lines, rd, items, at, j);
        assert items[j].name == lines[at[j]][3];
      }
    }
  }

  lemma EntryOfLine(line: Line, rd: Reader)
    requires HasFields(line) && Readable(line, rd)
    ensures IsEntryOf(line, rd, ItemOf(line, rd).entry)
  {
  }

  /** What is read, told by the lines alone. */
  lemma MapOfLines(lines: seq<Line>, rd: Reader)
    requires AllReadable(lines, rd)
    ensures IsMapOfLines(lines, rd, ByName(Files(Items(lines, rd))))
  {
    var items := Items(lines, rd);
    var entries := ByName(Files(items));
    var at := ItemsNumbered(lines, rd);
    ReadMapIsLogMap(items);
    forall name, m | LineDecides(lines, rd, m, name)
      ensures name in entries && IsEntryOf(lines[m], rd, entries[name])
    {
      var k :| 0 <= k < |at| && at[k] == m;
      SameDecides(lines, rd, items, at, k, name);
      EntryOfLine(lines[m], rd);
    }
    forall name | name in entries ensures exists m :: LineDecides(lines, rd, m, name) {
      var i: nat :| Decides(items, i, name);
      SameDecides(lines, rd, items, at, i, name);
    }
  }
}
