/**
  How many tracks the build chart needs: the greedy assignment's exact number, the
  least number any assignment needs, and when the two are the same.
 */
module NinjaOptimality {
  import opened Sequences
  import opened Sorting
  import opened NinjaThreads

  // -------------------------------------------------------- the order of placing

  /** `x` is placed before `n`: it ends later, or together with `n` and is listed first. */
  ghost predicate PlacedFirst(names: seq<string>, entries: Entries, x: string, n: string)
    requires x in entries && n in entries
  {
    entries[x].end > entries[n].end || (entries[x].end == entries[n].end && Listed(names, x, n))
  }

  ghost predicate InOrder(sorted: seq<string>, names: seq<string>, entries: Entries) {
    && (forall i :: 0 <= i < |sorted| ==> sorted[i] in entries)
    && forall i, j :: 0 <= i < j < |sorted| ==> PlacedFirst(names, entries, sorted[i], sorted[j])
  }

  /** The sort is stable. */
  lemma SortInOrder(names: seq<string>, entries: Entries)
    requires forall i :: 0 <= i < |names| ==> names[i] in entries
    ensures InOrder(SortByEnd(names, entries), names, entries)
  {
    SortStable(names, EndsLater(entries));
    var r := SortByEnd(names, entries);
    forall i, j | 0 <= i < j < |r| ensures PlacedFirst(names, entries, r[i], r[j]) {
      assert Ahead(names, EndsLater(entries), r[i], r[j]);
    }
  }

  /** What stands before the i-th sorted name is what is ahead of it. */
  lemma PrefixIsAhead(names: seq<string>, sorted: seq<string>, entries: Entries, i: nat, x: string)
    requires Keys(names, entries) && InOrder(sorted, names, entries) && multiset(sorted) == multiset(names)
    requires i < |sorted| && x in entries
    ensures x in sorted[..i] <==> PlacedFirst(names, entries, x, sorted[i])
  {
    DistinctPermuted(names, sorted);
    var k :| 0 <= k < |sorted| && sorted[k] == x;
    if PlacedFirst(names, entries, x, sorted[i]) {
      if k > i {
        assert PlacedFirst(names, entries, sorted[i], x);
        NotListedBack(names, x, sorted[i]);
      }
      assert k < i ==> sorted[..i][k] == x;
      assert k == i ==> !Listed(names, x, x);
    }
  }

  lemma NotListedBack(names: seq<string>, x: string, n: string)
    requires Distinct(names) && Listed(names, x, n)
    ensures !Listed(names, n, x)
  {
  }

  // -------------------------------------------------- exactly how many are opened

  /** Of those placed, the ones that `name` cannot follow. */
  ghost function BusyAt(done: seq<string>, entries: Entries, name: string): (r: set<string>)
    requires name in entries
    ensures forall x :: x in r <==> x in done && x in entries && entries[x].start < entries[name].end
  {
    set x | x in done && x in entries && entries[x].start < entries[name].end
  }

  /** The entries that hold a track when `n` is placed. */
  ghost function Busy(names: seq<string>, entries: Entries, n: string): (r: set<string>)
    requires n in entries
    ensures forall x ::
        x in r <==> x in entries && PlacedFirst(names, entries, x, n) && entries[x].start < entries[n].end
  {
    set x | x in entries && PlacedFirst(names, entries, x, n) && entries[x].start < entries[n].end
  }

  /** `done` is placed on `tracks`, and everything placed ends no earlier than `name`. */
  ghost predicate Placed(tracks: seq<seq<string>>, at: map<string, nat>, done: seq<string>, entries: Entries,
                         name: string) {
    && Charted(tracks, at, done, entries) && name in entries && name !in done
    && forall i :: 0 <= i < |done| ==> done[i] in entries && entries[done[i]].end >= entries[name].end
  }

  /** What follows an entry on its track was placed, and ends before the entry starts. */
  lemma FollowerEnds(tracks: seq<seq<string>>, at: map<string, nat>, done: seq<string>, entries: Entries, t: nat,
                     i: nat, j: nat)
    requires Charted(tracks, at, done, entries) && t < |tracks| && j == i + 1 < |tracks[t]|
    ensures tracks[t][i] in entries && tracks[t][j] in entries && tracks[t][j] in done
    ensures entries[tracks[t][j]].end <= entries[tracks[t][i]].start
  {
    assert tracks[t][j] in at;
  }

  /** A busy entry is the last on its track. */
  lemma BusyIsLast(tracks: seq<seq<string>>, at: map<string, nat>, done: seq<string>, entries: Entries, name: string,
                   x: string)
    requires Placed(tracks, at, done, entries, name) && x in BusyAt(done, entries, name)
    ensures x in at && at[x] < |tracks| && Last(tracks[at[x]]) == x
  {
    assert x in multiset(done);
    FlattenMember(tracks, x);
    var t :| 0 <= t < |tracks| && x in tracks[t];
    var i :| 0 <= i < |tracks[t]| && tracks[t][i] == x;
    if i + 1 < |tracks[t]| {
      FollowerEnds(tracks, at, done, entries, t, i, i + 1);
      assert false;
    }
  }

  /** The new entry and the busy ones end up on different tracks. */
  lemma BusyTakeTracks(tracks: seq<seq<string>>, at: map<string, nat>, done: seq<string>, entries: Entries,
                       name: string)
    requires Placed(tracks, at, done, entries, name)
    ensures |BusyAt(done, entries, name)| + 1 <= |FitFirst(tracks, entries, name)|
  {
    var busy, r := BusyAt(done, entries, name), FirstFree(tracks, entries, entries[name].end, 0);
    FirstFreeIsFirst(tracks, entries, entries[name].end, 0);
    var f := at[name := r];
    forall x | x in busy ensures x in at && at[x] < |tracks| && at[x] != r && Last(tracks[at[x]]) == x {
      BusyIsLast(tracks, at, done, entries, name, x);
    }
    assert name !in busy;
    InjectiveImage(busy + {name}, f);
    var used := set a | a in busy + {name} :: f[a];
    SubsetCardinality(used, Below(|FitFirst(tracks, entries, name)|));
  }

  /** A track is opened only if every track ends in a busy entry. */
  lemma OpenedWhenBusy(tracks: seq<seq<string>>, at: map<string, nat>, done: seq<string>, entries: Entries,
                       name: string)
    requires Placed(tracks, at, done, entries, name) && FirstFree(tracks, entries, entries[name].end, 0) == |tracks|
    ensures |tracks| <= |BusyAt(done, entries, name)|
  {
    FirstFreeIsFirst(tracks, entries, entries[name].end, 0);
    LastsDiffer(tracks, at, done);
    var lasts := set x | x in Lasts(tracks);
    DistinctCardinality(Lasts(tracks), lasts);
    forall x | x in lasts ensures x in BusyAt(done, entries, name) {
      var t :| 0 <= t < |tracks| && Lasts(tracks)[t] == x;
    }
    SubsetCardinality(lasts, BusyAt(done, entries, name));
  }

  ghost predicate Descending(sorted: seq<string>, entries: Entries) {
    Distinct(sorted) && (forall i :: 0 <= i < |sorted| ==> sorted[i] in entries) && EndsDescend(sorted, entries)
  }

  lemma DescendingPrefix(sorted: seq<string>, entries: Entries, i: nat)
    requires Descending(sorted, entries) && i <= |sorted|
    ensures Descending(sorted[..i], entries)
  {
  }

  /** All busy entries hold tracks, one each, when the i-th entry takes another. */
  lemma {:induction false} TracksAtLeast(sorted: seq<string>, entries: Entries, i: nat)
    requires Descending(sorted, entries) && i < |sorted|
    ensures |BusyAt(sorted[..i], entries, sorted[i])| + 1 <= |FitAll(sorted, entries)|
    decreases |sorted|
  {
    var n := |sorted| - 1;
    var done, name := sorted[..n], sorted[n];
    DescendingPrefix(sorted, entries, n);
    var tracks := FitAll(done, entries);
    if i < n {
      TracksAtLeast(done, entries, i);
      assert sorted[i] == done[i] && sorted[..i] == done[..i];
    } else {
      var at := FitAllCharted(done, entries);
      BusyTakeTracks(tracks, at, done, entries, name);
    }
  }

  /** Some entry found all earlier tracks busy, and opened the last one. */
  lemma {:induction false} LastOpened(sorted: seq<string>, entries: Entries) returns (i: nat)
    requires Descending(sorted, entries) && sorted != []
    ensures i < |sorted| && |FitAll(sorted, entries)| <= |BusyAt(sorted[..i], entries, sorted[i])| + 1
    decreases |sorted|
  {
    var n := |sorted| - 1;
    var done, name := sorted[..n], sorted[n];
    DescendingPrefix(sorted, entries, n);
    var tracks := FitAll(done, entries);
    if FirstFree(tracks, entries, entries[name].end, 0) == |tracks| {
      var at := FitAllCharted(done, entries);
      OpenedWhenBusy(tracks, at, done, entries, name);
      i := n;
    } else {
      i := LastOpened(done, entries);
      assert |FitFirst(tracks, entries, name)| == |tracks|;
      assert sorted[i] == done[i] && sorted[..i] == done[..i];
    }
  }

  /** The sorted names, and where a name stands among them. */
  lemma Sorted(names: seq<string>, entries: Entries) returns (sorted: seq<string>)
    requires Keys(names, entries)
    ensures sorted == SortByEnd(names, entries) && Descending(sorted, entries) && |sorted| == |names|
    ensures InOrder(sorted, names, entries) && multiset(sorted) == multiset(names)
    ensures forall n :: n in entries <==> n in sorted
  {
    sorted := SortByEnd(names, entries);
    SortByEndSorts(names, entries);
    SortInOrder(names, entries);
    DistinctPermuted(names, sorted);
    SameLength(names, sorted);
  }

  lemma BusyBelow(names: seq<string>, entries: Entries, n: string)
    requires Keys(names, entries) && n in entries
    ensures |Busy(names, entries, n)| + 1 <= |GreedyTracks(names, entries)|
  {
    var sorted := Sorted(names, entries);
    var i :| 0 <= i < |sorted| && sorted[i] == n;
    TracksAtLeast(sorted, entries, i);
    BusyIsPrefix(names, sorted, entries, i);
  }

  lemma Fullest(names: seq<string>, entries: Entries) returns (n: string)
    requires Keys(names, entries) && names != []
    ensures n in entries && |Busy(names, entries, n)| + 1 == |GreedyTracks(names, entries)|
  {
    var sorted := Sorted(names, entries);
    var i := LastOpened(sorted, entries);
    n := sorted[i];
    BusyIsPrefix(names, sorted, entries, i);
    BusyBelow(names, entries, n);
  }

  /**
    The exact number of greedy tracks, for every input: the largest number of entries
    that hold a track when another is placed, and one for that entry.
   */
  lemma GreedyCount(names: seq<string>, entries: Entries)
    requires Keys(names, entries)
    ensures forall n :: n in entries ==> |Busy(names, entries, n)| + 1 <= |GreedyTracks(names, entries)|
    ensures names != [] ==> exists n :: n in entries && |Busy(names, entries, n)| + 1 == |GreedyTracks(names, entries)|
    ensures names == [] ==> |GreedyTracks(names, entries)| == 0
  {
    forall n | n in entries ensures |Busy(names, entries, n)| + 1 <= |GreedyTracks(names, entries)| {
      BusyBelow(names, entries, n);
    }
    if names != [] {
      var n := Fullest(names, entries);
    }
  }

  lemma BusyIsPrefix(names: seq<string>, sorted: seq<string>, entries: Entries, i: nat)
    requires Keys(names, entries) && InOrder(sorted, names, entries) && multiset(sorted) == multiset(names)
        && i < |sorted|
    ensures BusyAt(sorted[..i], entries, sorted[i]) == Busy(names, entries, sorted[i])
  {
    forall x ensures x in BusyAt(sorted[..i], entries, sorted[i]) <==> x in Busy(names, entries, sorted[i]) {
      if x in entries {
        PrefixIsAhead(names, sorted, entries, i, x);
      }
    }
  }

  // ------------------------------------------------------- how many are needed

  predicate TakesTime(e: Entry) { e.start < e.end }

  /** `m` and the entries that overlap it and each other at its end. */
  ghost function Clique(entries: Entries, m: string): (r: set<string>)
    requires m in entries
    ensures m in r
    ensures forall x :: x in r && x != m ==> x in entries && InClique(entries[x], entries[m])
    ensures forall x :: x in entries && InClique(entries[x], entries[m]) ==> x in r
  {
    {m} + set x | x in entries && InClique(entries[x], entries[m])
  }

  predicate InClique(x: Entry, m: Entry) {
    x.start < m.end && (m.end < x.end || (m.end == x.end && TakesTime(m)))
  }

  /** All of a clique need tracks of their own. */
  lemma CliqueNeedsTracks(entries: Entries, m: string, track: map<string, nat>)
    requires Ordered(entries) && m in entries && ConflictFree(entries, track)
    ensures |Clique(entries, m)| <= |track.Values|
  {
    var clique := Clique(entries, m);
    forall a, b | a in clique && b in clique && a != b ensures track[a] != track[b] {
      assert Overlap(entries[a], entries[b]);
    }
    InjectiveImage(clique, track);
    SubsetCardinality(set a | a in clique :: track[a], track.Values);
  }

  /** The busy entries overlap each other. */
  lemma BusyNeedTracks(names: seq<string>, entries: Entries, n: string, track: map<string, nat>)
    requires n in entries && ConflictFree(entries, track)
    ensures |Busy(names, entries, n)| <= |track.Values|
  {
    var busy := Busy(names, entries, n);
    forall a, b | a in busy && b in busy && a != b ensures track[a] != track[b] {
      assert Overlap(entries[a], entries[b]);
    }
    InjectiveImage(busy, track);
    SubsetCardinality(set a | a in busy :: track[a], track.Values);
  }

  /** Nothing that takes time ends at `n` and is listed before it, or `n` takes time itself. */
  ghost predicate Clear(names: seq<string>, entries: Entries, n: string)
    requires n in entries
  {
    TakesTime(entries[n])
    || forall x :: x in entries && TakesTime(entries[x]) && entries[x].end == entries[n].end ==> !Listed(names, x, n)
  }

  lemma BusyInClique(names: seq<string>, entries: Entries, n: string)
    requires Distinct(names) && n in entries && Clear(names, entries, n)
    ensures |Busy(names, entries, n)| + 1 <= |Clique(entries, n)|
  {
    var busy := Busy(names, entries, n);
    assert n !in busy;
    SubsetCardinality(busy + {n}, Clique(entries, n));
  }

  /** Entries without length come first in the listing. */
  ghost predicate ZerosFirst(names: seq<string>, entries: Entries) {
    forall n, x :: n in entries && x in entries && TakesTime(entries[x]) && Listed(names, x, n) ==>
        TakesTime(entries[n])
  }

  lemma PositiveLast(rest: seq<string>, entries: Entries, name: string)
    requires ZerosFirst(rest, entries) && name !in rest && name in entries && TakesTime(entries[name])
    ensures ZerosFirst(rest + [name], entries)
  {
    forall n, x | n in entries && x in entries && TakesTime(entries[x]) && Listed(rest + [name], x, n)
      ensures TakesTime(entries[n])
    {
      var p, q :| 0 <= p < q < |rest + [name]| && (rest + [name])[p] == x && (rest + [name])[q] == n;
      if q < |rest| {
        assert rest[p] == x && rest[q] == n;
        assert Listed(rest, x, n);
      }
    }
  }

  lemma ZeroFirst(rest: seq<string>, entries: Entries, name: string)
    requires ZerosFirst(rest, entries) && name !in rest && name in entries && !TakesTime(entries[name])
    ensures ZerosFirst([name] + rest, entries)
  {
    forall n, x | n in entries && x in entries && TakesTime(entries[x]) && Listed([name] + rest, x, n)
      ensures TakesTime(entries[n])
    {
      var p, q :| 0 <= p < q < |[name] + rest| && ([name] + rest)[p] == x && ([name] + rest)[q] == n;
      assert rest[p - 1] == x && rest[q - 1] == n;
      assert Listed(rest, x, n);
    }
  }

  /** Any listing can be rearranged so. */
  lemma {:induction false} Relist(names: seq<string>, entries: Entries) returns (relisted: seq<string>)
    requires Distinct(names) && forall i :: 0 <= i < |names| ==> names[i] in entries
    ensures Distinct(relisted) && (forall n :: n in relisted <==> n in names) && ZerosFirst(relisted, entries)
  {
    if names == [] {
      relisted := [];
    } else {
      var first := names[0];
      var rest := Relist(names[1..], entries);
      relisted := if TakesTime(entries[first]) then rest + [first] else [first] + rest;
      assert forall n :: n in names <==> n == first || n in names[1..];
      if TakesTime(entries[first]) {
        PositiveLast(rest, entries, first);
      } else {
        ZeroFirst(rest, entries, first);
      }
    }
  }

  lemma ZerosFirstClear(names: seq<string>, entries: Entries, n: string)
    requires ZerosFirst(names, entries) && n in entries
    ensures Clear(names, entries, n)
  {
  }

  /** Some assignment gets along with as many tracks as its largest clique has entries: zeros first, then greedily. */
  lemma CliquesSuffice(names: seq<string>, entries: Entries) returns (track: map<string, nat>, m: string)
    requires Keys(names, entries) && Ordered(entries) && names != []
    ensures ConflictFree(entries, track)
    ensures m in entries && |track.Values| <= |Clique(entries, m)|
  {
    var relisted := Relist(names, entries);
    assert names[0] in relisted;
    track := GreedyTrackMap(relisted, entries);
    m := Fullest(relisted, entries);
    ZerosFirstClear(relisted, entries, m);
    BusyInClique(relisted, entries, m);
  }

  /** The greedy tracks as a conflict-free assignment. */
  lemma GreedyTrackMap(names: seq<string>, entries: Entries) returns (track: map<string, nat>)
    requires Keys(names, entries) && Ordered(entries)
    ensures ConflictFree(entries, track) && |track.Values| <= |GreedyTracks(names, entries)|
  {
    GreedyIsSchedule(names, entries);
    track := ScheduleConflictFree(GreedyTracks(names, entries), names, entries);
  }

  // ------------------------------------------------------------- when they agree

  /** No conflict-free assignment has fewer tracks. */
  ghost predicate Minimal(names: seq<string>, entries: Entries)
    requires Keys(names, entries)
  {
    forall track :: ConflictFree(entries, track) ==> |GreedyTracks(names, entries)| <= |track.Values|
  }

  /** Placing an entry without length never meets as many busy entries as the largest clique has. */
  ghost predicate ZerosFit(names: seq<string>, entries: Entries) {
    forall z :: z in entries && !TakesTime(entries[z]) ==>
      exists m :: m in entries && |Busy(names, entries, z)| < |Clique(entries, m)|
  }

  /** The greedy tracks are the least possible exactly when entries without length fit. */
  lemma GreedyIsMinimalIff(names: seq<string>, entries: Entries)
    requires Keys(names, entries) && Ordered(entries)
    ensures Minimal(names, entries) <==> ZerosFit(names, entries)
  {
    if ZerosFit(names, entries) {
      forall track | ConflictFree(entries, track) ensures |GreedyTracks(names, entries)| <= |track.Values| {
        FittingIsMinimal(names, entries, track);
      }
    }
    if Minimal(names, entries) {
      forall z | z in entries && !TakesTime(entries[z])
        ensures exists m :: m in entries && |Busy(names, entries, z)| < |Clique(entries, m)|
      {
        var track, m := CliquesSuffice(names, entries);
        BusyBelow(names, entries, z);
      }
    }
  }

  lemma EmptyGreedy(names: seq<string>, entries: Entries)
    requires Keys(names, entries) && names == []
    ensures |GreedyTracks(names, entries)| == 0
  {
  }

  lemma FittingIsMinimal(names: seq<string>, entries: Entries, track: map<string, nat>)
    requires Keys(names, entries) && Ordered(entries) && ZerosFit(names, entries) && ConflictFree(entries, track)
    ensures |GreedyTracks(names, entries)| <= |track.Values|
  {
    if names != [] {
      var n := Fullest(names, entries);
      if TakesTime(entries[n]) {
        BusyInClique(names, entries, n);
        CliqueNeedsTracks(entries, n, track);
      } else {
        var m :| m in entries && |Busy(names, entries, n)| < |Clique(entries, m)|;
        CliqueNeedsTracks(entries, m, track);
      }
    } else {
      EmptyGreedy(names, entries);
    }
  }

  /** Never more than one track too many. */
  lemma GreedyNearlyMinimal(names: seq<string>, entries: Entries, track: map<string, nat>)
    requires Keys(names, entries) && ConflictFree(entries, track)
    ensures |GreedyTracks(names, entries)| <= |track.Values| + 1
  {
    if names != [] {
      var n := Fullest(names, entries);
      BusyNeedTracks(names, entries, n, track);
    }
  }

  /** Simple conditions: no entry without length is listed behind one that ends at the same time and takes time. */
  lemma ClearIsMinimal(names: seq<string>, entries: Entries)
    requires Keys(names, entries) && Ordered(entries) && forall n :: n in entries ==> Clear(names, entries, n)
    ensures Minimal(names, entries)
    ensures exists track :: ConflictFree(entries, track) && |track.Values| == |GreedyTracks(names, entries)|
  {
    forall z | z in entries && !TakesTime(entries[z])
      ensures exists m :: m in entries && |Busy(names, entries, z)| < |Clique(entries, m)|
    {
      BusyInClique(names, entries, z);
    }
    GreedyIsMinimalIff(names, entries);
    var track := GreedyTrackMap(names, entries);
  }

  // ------------------------------------------------------- running at one instant

  /** Busy entries all run just before `n` ends; if `n` takes time, so does it. */
  lemma BusyRun(names: seq<string>, entries: Entries, n: string)
    requires Distinct(names) && n in entries && TakesTime(entries[n])
    ensures |Busy(names, entries, n)| + 1 <= |RunningAt(entries, entries[n].end - 1)|
  {
    var busy := Busy(names, entries, n);
    assert n !in busy;
    SubsetCardinality(busy + {n}, RunningAt(entries, entries[n].end - 1));
  }

  ghost predicate ZerosRunBeside(names: seq<string>, entries: Entries) {
    forall z :: z in entries && !TakesTime(entries[z]) ==>
        exists t :: |Busy(names, entries, z)| < |RunningAt(entries, t)|
  }

  /**
    At no instant do more entries run than there are tracks; as many do at some
    instant exactly when no entry without length is placed while that many are busy.
   */
  lemma TracksAreMostRunningIff(names: seq<string>, entries: Entries)
    requires Keys(names, entries) && Ordered(entries)
    ensures forall t :: |RunningAt(entries, t)| <= |GreedyTracks(names, entries)|
    ensures (exists t :: |RunningAt(entries, t)| == |GreedyTracks(names, entries)|) <==> ZerosRunBeside(names, entries)
  {
    var k := |GreedyTracks(names, entries)|;
    GreedyIsSchedule(names, entries);
    forall t ensures |RunningAt(entries, t)| <= k {
      RunningFit(GreedyTracks(names, entries), names, entries, t);
    }
    forall n | n in entries ensures |Busy(names, entries, n)| + 1 <= k {
      BusyBelow(names, entries, n);
    }
    if ZerosRunBeside(names, entries) {
      if names == [] {
        EmptyGreedy(names, entries);
        assert |RunningAt(entries, 0)| == k;
      } else {
        var n := Fullest(names, entries);
        if TakesTime(entries[n]) {
          BusyRun(names, entries, n);
        }
        var t :| |Busy(names, entries, n)| < |RunningAt(entries, t)|;
        assert |RunningAt(entries, t)| == k;
      }
    }
  }

  /** If every entry takes time: as few tracks as possible, and as many as entries run at once. */
  lemma GreedyIsOptimal(names: seq<string>, entries: Entries)
    requires Keys(names, entries) && Positive(entries)
    ensures var k := |GreedyTracks(names, entries)|;
        && (forall track :: ConflictFree(entries, track) ==> k <= |track.Values|)
        && (exists track :: ConflictFree(entries, track) && |track.Values| == k)
        && (forall t :: |RunningAt(entries, t)| <= k)
        && (exists t :: |RunningAt(entries, t)| == k)
  {
    ClearIsMinimal(names, entries);
    TracksAreMostRunningIff(names, entries);
  }

  // ------------------------------------------------------------------- examples

  const CROWDED: Entries := map["a" := Entry(0, 10, 0), "b" := Entry(5, 5, 0), "c" := Entry(3, 5, 0)]

  lemma CrowdedKeys()
    ensures Keys(["a", "c", "b"], CROWDED)
  {
    assert "a"[0] != "b"[0] && "a"[0] != "c"[0] && "b"[0] != "c"[0];
  }

  lemma CrowdedBusy()
    ensures "b" in CROWDED && |Busy(["a", "c", "b"], CROWDED, "b")| >= 2
  {
    var names := ["a", "c", "b"];
    assert Listed(names, "c", "b") by { assert names[1] == "c" && names[2] == "b"; }
    assert "a"[0] != "c"[0];
    SubsetCardinality({"a", "c"}, Busy(names, CROWDED, "b"));
  }

  const TWO_TRACKS: map<string, nat> := map["a" := 0, "b" := 1, "c" := 1]

  lemma CrowdedFitsTwo()
    ensures Ordered(CROWDED) && ConflictFree(CROWDED, TWO_TRACKS)
  {
    CrowdedKeys();
    forall x, y | x in CROWDED && y in CROWDED && x != y && Overlap(CROWDED[x], CROWDED[y])
      ensures TWO_TRACKS[x] != TWO_TRACKS[y]
    {
      assert x == "a" || y == "a";
    }
  }

  lemma TwoTracks()
    ensures |TWO_TRACKS.Values| == 2
  {
    assert TWO_TRACKS["a"] == 0 && TWO_TRACKS["b"] == 1;
    assert TWO_TRACKS.Values == {0, 1};
  }

  /** The entry without length is listed behind one that ends with it: three tracks where two would do. */
  lemma OneTrackTooMany()
    ensures Keys(["a", "c", "b"], CROWDED) && Ordered(CROWDED)
    ensures |GreedyTracks(["a", "c", "b"], CROWDED)| == 3
    ensures ConflictFree(CROWDED, TWO_TRACKS) && |TWO_TRACKS.Values| == 2
    ensures !Minimal(["a", "c", "b"], CROWDED)
  {
    CrowdedKeys();
    CrowdedFitsTwo();
    TwoTracks();
    CrowdedBusy();
    BusyBelow(["a", "c", "b"], CROWDED, "b");
    GreedyNearlyMinimal(["a", "c", "b"], CROWDED, TWO_TRACKS);
  }

  const CROSSED: Entries := map["a" := Entry(0, 10, 0), "b" := Entry(5, 5, 0)]

  lemma CrossedBusy()
    ensures Keys(["a", "b"], CROSSED) && |Busy(["a", "b"], CROSSED, "b")| >= 1
  {
    assert "a"[0] != "b"[0];
    SubsetCardinality({"a"}, Busy(["a", "b"], CROSSED, "b"));
  }

  /** An entry that takes no time may need a track of its own although nothing ever runs beside another entry. */
  lemma ZeroLengthExample()
    ensures Keys(["a", "b"], CROSSED) && Minimal(["a", "b"], CROSSED)
    ensures |GreedyTracks(["a", "b"], CROSSED)| >= 2
    ensures forall t :: |RunningAt(CROSSED, t)| <= 1
  {
    CrossedBusy();
    BusyBelow(["a", "b"], CROSSED, "b");
    ClearIsMinimal(["a", "b"], CROSSED);
    forall t ensures |RunningAt(CROSSED, t)| <= 1 {
      SubsetCardinality(RunningAt(CROSSED, t), {"a"});
    }
  }
}
