/**
  The build chart of `sort_ninja_log.py`: entries are placed greedily, latest end
  first, on the first thread that is still free; no assignment needs fewer threads.
 */
module NinjaThreads {
  import opened Outcomes
  import opened Sequences
  import opened Sorting

  datatype Entry = Entry(start: int, end: int, size: int)

  type Entries = map<string, Entry>

  // ------------------------------------------------------------------ overlap

  predicate RunsAt(e: Entry, t: int) { e.start <= t < e.end }

  predicate Overlap(a: Entry, b: Entry) { a.start < b.end && b.start < a.end }

  /** No entry ends before it starts. */
  predicate Ordered(entries: Entries) { forall n :: n in entries ==> entries[n].start <= entries[n].end }

  predicate Positive(entries: Entries) { forall n :: n in entries ==> entries[n].start < entries[n].end }

  function RunningAt(entries: Entries, t: int): (r: set<string>)
    ensures forall n :: n in r <==> n in entries && RunsAt(entries[n], t)
  {
    set n | n in entries && RunsAt(entries[n], t)
  }

  /** Different tracks for entries that overlap. */
  ghost predicate ConflictFree(entries: Entries, track: map<string, nat>) {
    && track.Keys == entries.Keys
    && forall a, b :: a in entries && b in entries && a != b && Overlap(entries[a], entries[b]) ==> track[a] != track[b]
  }

  // -------------------------------------------------------------- cardinality

  lemma {:induction false} InjectiveImage(names: set<string>, f: map<string, nat>)
    requires names <= f.Keys
    requires forall a, b :: a in names && b in names && a != b ==> f[a] != f[b]
    ensures |set a | a in names :: f[a]| == |names|
  {
    if names != {} {
      var x :| x in names;
      var rest := names - {x};
      InjectiveImage(rest, f);
      assert (set a | a in names :: f[a]) == (set a | a in rest :: f[a]) + {f[x]};
    }
  }

  lemma {:induction false} SubsetCardinality<T>(small: set<T>, big: set<T>)
    requires small <= big
    ensures |small| <= |big|
  {
    assert big == small + (big - small);
  }

  function Below(k: nat): (r: set<nat>)
    ensures forall i: nat :: i in r <==> i < k
    ensures |r| == k
  {
    if k == 0 then {}
    else
      var r := Below(k - 1);
      assert k - 1 !in r;
      r + {k - 1}
  }

  // ------------------------------------------------------------------ sorting

  predicate EndsDescend(names: seq<string>, entries: Entries)
    requires forall i :: 0 <= i < |names| ==> names[i] in entries
  {
    forall i, j :: 0 <= i < j < |names| ==> entries[names[i]].end >= entries[names[j]].end
  }

  function EndOf(entries: Entries, name: string): int { if name in entries then entries[name].end else 0 }

  function EndsLater(entries: Entries): (string, string) -> bool {
    (a: string, b: string) => EndOf(entries, a) > EndOf(entries, b)
  }

  /** `sorted(keys, key=end, reverse=True)`: stable, latest end first. */
  function SortByEnd(names: seq<string>, entries: Entries): (r: seq<string>)
    requires forall i :: 0 <= i < |names| ==> names[i] in entries
    ensures forall i :: 0 <= i < |r| ==> r[i] in entries
  {
    var r := Sort(names, EndsLater(entries));
    SortSorts(names, EndsLater(entries));
    SameMembers(names, r);
    assert forall i :: 0 <= i < |r| ==> r[i] in names;
    r
  }

  /** Sorting keeps the names and orders them by end. */
  lemma SortByEndSorts(names: seq<string>, entries: Entries)
    requires forall i :: 0 <= i < |names| ==> names[i] in entries
    ensures multiset(SortByEnd(names, entries)) == multiset(names)
    ensures EndsDescend(SortByEnd(names, entries), entries)
  {
    SortSorts(names, EndsLater(entries));
    var r := SortByEnd(names, entries);
    forall i, j | 0 <= i < j < |r| ensures entries[r[i]].end >= entries[r[j]].end {
      assert !EndsLater(entries)(r[j], r[i]);
    }
  }

  // --------------------------------------------------------------- the tracks

  function Last(track: seq<string>): string
    requires track != []
  {
    track[|track| - 1]
  }

  /** Each track's entries come one after the other, the latest first. */
  ghost predicate Chained(tracks: seq<seq<string>>, entries: Entries) {
    && (forall t, i :: 0 <= t < |tracks| && 0 <= i < |tracks[t]| ==> tracks[t][i] in entries)
    && (forall t, i, j :: 0 <= t < |tracks| && 0 <= i < j < |tracks[t]| && j == i + 1 ==>
          entries[tracks[t][j]].end <= entries[tracks[t][i]].start)
  }

  ghost predicate NonEmpty(tracks: seq<seq<string>>, entries: Entries) {
    forall t :: 0 <= t < |tracks| ==> tracks[t] != [] && Last(tracks[t]) in entries
  }

  /** `at` numbers the tracks that `names` are on. */
  ghost predicate Located(tracks: seq<seq<string>>, names: seq<string>, at: map<string, nat>) {
    && (forall n :: n in at <==> n in names)
    && (forall t, i :: 0 <= t < |tracks| && 0 <= i < |tracks[t]| ==> tracks[t][i] in at && at[tracks[t][i]] == t)
  }

  /** `names` are placed: chained tracks, each name once. */
  ghost predicate Charted(tracks: seq<seq<string>>, at: map<string, nat>, names: seq<string>, entries: Entries) {
    && Chained(tracks, entries) && NonEmpty(tracks, entries)
    && Located(tracks, names, at)
    && multiset(Flatten(tracks)) == multiset(names)
  }

  lemma ReuseChained(tracks: seq<seq<string>>, entries: Entries, name: string, t: nat)
    requires Chained(tracks, entries) && name in entries && t < |tracks| && tracks[t] != []
    requires Last(tracks[t]) in entries && entries[Last(tracks[t])].start >= entries[name].end
    ensures Chained(tracks[t := tracks[t] + [name]], entries)
  {
    var tracks' := tracks[t := tracks[t] + [name]];
    forall s, i | 0 <= s < |tracks'| && 0 <= i < |tracks'[s]| ensures tracks'[s][i] in entries {
      assert (s == t && i == |tracks[t]|) || tracks'[s][i] == tracks[s][i];
    }
    forall s, i, j | 0 <= s < |tracks'| && 0 <= i < j < |tracks'[s]| && j == i + 1
      ensures entries[tracks'[s][j]].end <= entries[tracks'[s][i]].start
    {
      assert tracks'[s][i] == tracks[s][i];
      if s == t && j == |tracks[t]| {
        assert tracks'[s][i] == Last(tracks[t]);
      } else {
        assert tracks'[s][j] == tracks[s][j];
      }
    }
  }

  lemma ReuseLocates(tracks: seq<seq<string>>, at: map<string, nat>, names: seq<string>, name: string, t: nat)
    requires Located(tracks, names, at) && name !in names && t < |tracks|
    ensures Located(tracks[t := tracks[t] + [name]], names + [name], at[name := t])
  {
    var tracks', at' := tracks[t := tracks[t] + [name]], at[name := t];
    assert forall n :: n in names + [name] <==> n in names || n == name;
    forall s, i | 0 <= s < |tracks'| && 0 <= i < |tracks'[s]| ensures tracks'[s][i] in at' && at'[tracks'[s][i]] == s {
      if !(s == t && i == |tracks[t]|) {
        assert tracks'[s][i] == tracks[s][i];
      }
    }
  }

  /** Putting `name` on a track whose last entry starts no earlier than `name` ends. */
  lemma ReuseKeeps(tracks: seq<seq<string>>, at: map<string, nat>, names: seq<string>, entries: Entries, name: string,
                   t: nat)
    requires Charted(tracks, at, names, entries) && name in entries && name !in names
    requires t < |tracks| && entries[Last(tracks[t])].start >= entries[name].end
    ensures Charted(tracks[t := tracks[t] + [name]], at[name := t], names + [name], entries)
  {
    ReuseChained(tracks, entries, name, t);
    ReuseLocates(tracks, at, names, name, t);
    FlattenUpdate(tracks, t, [name]);
  }

  /** Opening a track for `name`. */
  lemma OpenKeeps(tracks: seq<seq<string>>, at: map<string, nat>, names: seq<string>, entries: Entries, name: string)
    requires Charted(tracks, at, names, entries) && name in entries && name !in names
    ensures Charted(tracks + [[name]], at[name := |tracks|], names + [name], entries)
  {
    FlattenSnoc(tracks, [name]);
  }

  function Lasts(tracks: seq<seq<string>>): (r: seq<string>)
    requires forall t :: 0 <= t < |tracks| ==> tracks[t] != []
    ensures |r| == |tracks| && forall t :: 0 <= t < |tracks| ==> r[t] == Last(tracks[t])
  {
    seq(|tracks|, t requires 0 <= t < |tracks| => Last(tracks[t]))
  }

  lemma LastsDiffer(tracks: seq<seq<string>>, at: map<string, nat>, names: seq<string>)
    requires Located(tracks, names, at) && forall t :: 0 <= t < |tracks| ==> tracks[t] != []
    ensures forall t :: 0 <= t < |tracks| ==> Lasts(tracks)[t] in names
    ensures forall s, t :: 0 <= s < t < |tracks| ==> Lasts(tracks)[s] != Lasts(tracks)[t]
  {
    forall t | 0 <= t < |tracks| ensures Lasts(tracks)[t] in at && at[Lasts(tracks)[t]] == t {
      assert Lasts(tracks)[t] == tracks[t][|tracks[t]| - 1];
    }
  }

  // ---------------------------------------------------------------- first fit

  /** The first track from `t` on whose last entry starts no earlier than `end`; |tracks| if none does. */
  function FirstFree(tracks: seq<seq<string>>, entries: Entries, end: int, t: nat): (r: nat)
    requires t <= |tracks|
    ensures t <= r <= |tracks|
    decreases |tracks| - t
  {
    if t == |tracks| then t
    else if tracks[t] != [] && Last(tracks[t]) in entries && entries[Last(tracks[t])].start >= end then t
    else FirstFree(tracks, entries, end, t + 1)
  }

  lemma {:induction false} FirstFreeIsFirst(tracks: seq<seq<string>>, entries: Entries, end: int, t: nat)
    requires NonEmpty(tracks, entries) && t <= |tracks|
    ensures var r := FirstFree(tracks, entries, end, t);
        && (r < |tracks| ==> entries[Last(tracks[r])].start >= end)
        && forall k :: t <= k < r ==> entries[Last(tracks[k])].start < end
    decreases |tracks| - t
  {
    if t < |tracks| {
      FirstFreeIsFirst(tracks, entries, end, t + 1);
    }
  }

  function FitFirst(tracks: seq<seq<string>>, entries: Entries, name: string): seq<seq<string>>
    requires name in entries
  {
    var t := FirstFree(tracks, entries, entries[name].end, 0);
    if t == |tracks| then tracks + [[name]] else tracks[t := tracks[t] + [name]]
  }

  /** First fit for all entries in turn. */
  function FitAll(sorted: seq<string>, entries: Entries): seq<seq<string>>
    requires forall i :: 0 <= i < |sorted| ==> sorted[i] in entries
  {
    if sorted == [] then []
    else FitFirst(FitAll(sorted[..|sorted| - 1], entries), entries, sorted[|sorted| - 1])
  }

  lemma FitOneMore(done: seq<string>, name: string, entries: Entries)
    requires name in entries && forall i :: 0 <= i < |done| ==> done[i] in entries
    ensures FitAll(done + [name], entries) == FitFirst(FitAll(done, entries), entries, name)
  {
    assert (done + [name])[..|done|] == done;
  }

  lemma FitFirstKeeps(tracks: seq<seq<string>>, at: map<string, nat>, names: seq<string>, entries: Entries,
                      name: string)
      returns (at': map<string, nat>)
    requires Charted(tracks, at, names, entries) && name in entries && name !in names
    ensures Charted(FitFirst(tracks, entries, name), at', names + [name], entries)
    ensures at' == at[name := FirstFree(tracks, entries, entries[name].end, 0)]
  {
    FirstFreeIsFirst(tracks, entries, entries[name].end, 0);
    var t := FirstFree(tracks, entries, entries[name].end, 0);
    if t == |tracks| {
      OpenKeeps(tracks, at, names, entries, name);
    } else {
      ReuseKeeps(tracks, at, names, entries, name, t);
    }
    at' := at[name := t];
  }

  /** First fit gives valid tracks, in whatever order the entries come. */
  lemma {:induction false} FitAllCharted(sorted: seq<string>, entries: Entries) returns (at: map<string, nat>)
    requires Distinct(sorted) && (forall i :: 0 <= i < |sorted| ==> sorted[i] in entries)
    ensures Charted(FitAll(sorted, entries), at, sorted, entries)
  {
    if sorted == [] {
      at := map[];
    } else {
      var n := |sorted| - 1;
      var done, name := sorted[..n], sorted[n];
      assert sorted == done + [name];
      at := FitAllCharted(done, entries);
      at := FitFirstKeeps(FitAll(done, entries), at, done, entries, name);
    }
  }

  // ------------------------------------------------------------- the algorithm

  /** `threads[t]` is the start of the entry last put on track `t`. */
  ghost predicate ThreadsMatch(threads: seq<int>, tracks: seq<seq<string>>, entries: Entries) {
    && |threads| == |tracks| && NonEmpty(tracks, entries)
    && forall t :: 0 <= t < |tracks| ==> threads[t] == entries[Last(tracks[t])].start
  }

  /** `results` lists the tracks, numbered from 0. */
  ghost predicate Numbered(results: map<nat, seq<string>>, tracks: seq<seq<string>>) {
    && (forall t: nat :: t in results <==> t < |tracks|)
    && forall t: nat :: t < |tracks| ==> results[t] == tracks[t]
  }

  /** The first thread that is free again when an entry ending at `end` is placed, or -1. */
  method FindThread(threads: seq<int>, end: int) returns (tid: int)
    ensures -1 <= tid < |threads|
    ensures tid >= 0 ==> threads[tid] >= end && forall t :: 0 <= t < tid ==> threads[t] < end
    ensures tid < 0 ==> forall t :: 0 <= t < |threads| ==> threads[t] < end
  {
    for t := 0 to |threads|
      invariant forall s :: 0 <= s < t ==> threads[s] < end
    {
      if threads[t] >= end {
        return t;
      }
    }
    tid := -1;
  }

  lemma {:induction false} FirstFreeIs(tracks: seq<seq<string>>, threads: seq<int>, entries: Entries, end: int, s: nat,
                                       t: nat)
    requires ThreadsMatch(threads, tracks, entries) && s <= t <= |threads|
    requires forall k :: 0 <= k < t ==> threads[k] < end
    requires t < |threads| ==> threads[t] >= end
    ensures FirstFree(tracks, entries, end, s) == t
    decreases t - s
  {
    if s < t {
      FirstFreeIs(tracks, threads, entries, end, s + 1, t);
    }
  }

  function AddToTrack(results: map<nat, seq<string>>, tid: nat, name: string): map<nat, seq<string>> {
    results[tid := (if tid in results then results[tid] else []) + [name]]
  }

  lemma NumberedFit(results: map<nat, seq<string>>, tracks: seq<seq<string>>, entries: Entries, name: string)
    requires Numbered(results, tracks) && name in entries
    ensures Numbered(AddToTrack(results, FirstFree(tracks, entries, entries[name].end, 0), name),
                     FitFirst(tracks, entries, name))
  {
    assert [] + [name] == [name];
  }

  /** The new start times: of the track chosen, or of a new one. */
  lemma ThreadsFit(threads: seq<int>, tracks: seq<seq<string>>, entries: Entries, name: string)
    requires ThreadsMatch(threads, tracks, entries) && name in entries
    ensures var t := FirstFree(tracks, entries, entries[name].end, 0);
        ThreadsMatch(if t < |threads| then threads[t := entries[name].start] else threads + [entries[name].start],
                     FitFirst(tracks, entries, name), entries)
  {
  }

  /** One round of the loop: the first free thread, or a new one. */
  method PlaceEntry(results: map<nat, seq<string>>, threads: seq<int>, entries: Entries, name: string,
                    ghost tracks: seq<seq<string>>)
      returns (results': map<nat, seq<string>>, threads': seq<int>)
    requires ThreadsMatch(threads, tracks, entries) && Numbered(results, tracks) && name in entries
    ensures ThreadsMatch(threads', FitFirst(tracks, entries, name), entries)
    ensures Numbered(results', FitFirst(tracks, entries, name))
  {
    var tid := FindThread(threads, entries[name].end);
    FirstFreeIs(tracks, threads, entries, entries[name].end, 0, if tid >= 0 then tid else |threads|);
    ThreadsFit(threads, tracks, entries, name);
    NumberedFit(results, tracks, entries, name);
    if tid >= 0 {
      threads' := threads[tid := entries[name].start];
    } else {
      threads' := threads + [entries[name].start];
      tid := |threads'| - 1;
    }
    results' := AddToTrack(results, tid, name);
  }

  /** The loop over the sorted names. */
  method BuildChart(sortedKeys: seq<string>, entries: Entries) returns (results: map<nat, seq<string>>)
    requires forall i :: 0 <= i < |sortedKeys| ==> sortedKeys[i] in entries
    ensures Numbered(results, FitAll(sortedKeys, entries))
  {
    results := map[];
    var threads: seq<int> := [];
    ghost var done: seq<string> := [];
    for i := 0 to |sortedKeys|
      invariant done == sortedKeys[..i] && forall k :: 0 <= k < |done| ==> done[k] in entries
      invariant ThreadsMatch(threads, FitAll(done, entries), entries) && Numbered(results, FitAll(done, entries))
    {
      results, threads := PlaceEntry(results, threads, entries, sortedKeys[i], FitAll(done, entries));
      FitOneMore(done, sortedKeys[i], entries);
      done := done + [sortedKeys[i]];
    }
    assert sortedKeys[..|sortedKeys|] == sortedKeys;
  }

  /** Every name is on one track, once, and each track's entries follow one another. */
  ghost predicate IsSchedule(tracks: seq<seq<string>>, names: seq<string>, entries: Entries) {
    multiset(Flatten(tracks)) == multiset(names) && Chained(tracks, entries)
  }

  /** The names are the keys of the dictionary, in its order. */
  ghost predicate Keys(names: seq<string>, entries: Entries) {
    Distinct(names) && forall n :: n in names <==> n in entries
  }

  ghost predicate IsLastEnd(entries: Entries, end: int) {
    && (forall n :: n in entries ==> entries[n].end <= end)
    && (exists n :: n in entries && entries[n].end == end)
  }

  lemma FirstEndsLast(names: seq<string>, sorted: seq<string>, entries: Entries)
    requires Keys(names, entries) && (forall n :: n in names <==> n in sorted) && sorted != []
    requires (forall k :: 0 <= k < |sorted| ==> sorted[k] in entries) && EndsDescend(sorted, entries)
    ensures IsLastEnd(entries, entries[sorted[0]].end)
  {
    forall n | n in entries ensures entries[n].end <= entries[sorted[0]].end {
      assert n in sorted;
    }
    assert sorted[0] in entries;
  }

  /** The tracks of the greedy assignment. */
  function GreedyTracks(names: seq<string>, entries: Entries): seq<seq<string>>
    requires forall i :: 0 <= i < |names| ==> names[i] in entries
  {
    FitAll(SortByEnd(names, entries), entries)
  }

  /** The tracks form a schedule, and none is empty. */
  lemma GreedyIsSchedule(names: seq<string>, entries: Entries)
    requires Keys(names, entries)
    ensures IsSchedule(GreedyTracks(names, entries), names, entries) && NonEmpty(GreedyTracks(names, entries), entries)
  {
    var sorted := SortByEnd(names, entries);
    SortByEndSorts(names, entries);
    DistinctPermuted(names, sorted);
    var at := FitAllCharted(sorted, entries);
  }

  /**
    Greedy assignment: the numbered tracks and the last end time. An empty
    dictionary has no last entry, so its end time throws.
   */
  method AssignEntriesToThreads(names: seq<string>, entries: Entries) returns (r: Result<(map<nat, seq<string>>, int)>)
    requires Keys(names, entries)
    ensures r.Failure? <==> names == []
    ensures r.Success? ==> Numbered(r.value.0, GreedyTracks(names, entries)) && IsLastEnd(entries, r.value.1)
  {
    var sortedKeys := SortByEnd(names, entries);
    SortByEndSorts(names, entries);
    DistinctPermuted(names, sortedKeys);
    var results := BuildChart(sortedKeys, entries);
    SameLength(names, sortedKeys);
    if |sortedKeys| == 0 {
      return Failure;
    }
    FirstEndsLast(names, sortedKeys, entries);
    r := Success((results, entries[sortedKeys[0]].end));
  }

  // -------------------------------------------------------------- consequences

  /** On a track, a later-placed entry ends before every earlier-placed one starts. */
  lemma {:induction false} TrackOrder(tracks: seq<seq<string>>, entries: Entries, t: nat, i: nat, j: nat)
    requires Chained(tracks, entries) && Ordered(entries) && t < |tracks| && i < j < |tracks[t]|
    ensures tracks[t][i] in entries && tracks[t][j] in entries
    ensures entries[tracks[t][j]].end <= entries[tracks[t][i]].start
  {
    assert entries[tracks[t][j]].end <= entries[tracks[t][j - 1]].start;
    if i < j - 1 {
      TrackOrder(tracks, entries, t, i, j - 1);
    }
  }

  /** No two entries on one track overlap. */
  lemma NoOverlapOnTrack(tracks: seq<seq<string>>, entries: Entries, t: nat, i: nat, j: nat)
    requires Chained(tracks, entries) && Ordered(entries) && t < |tracks| && i < |tracks[t]| && j < |tracks[t]|
        && i != j
    ensures tracks[t][i] in entries && tracks[t][j] in entries && !Overlap(entries[tracks[t][i]], entries[tracks[t][j]])
  {
    TrackOrder(tracks, entries, t, if i < j then i else j, if i < j then j else i);
  }

  lemma {:induction false} FlattenMember(tracks: seq<seq<string>>, n: string)
    ensures n in Flatten(tracks) <==> exists t :: 0 <= t < |tracks| && n in tracks[t]
  {
    if tracks != [] {
      FlattenMember(tracks[1..], n);
      if exists t :: 0 < t < |tracks| && n in tracks[t] {
        var t :| 0 < t < |tracks| && n in tracks[t];
        assert n in tracks[1..][t - 1];
      }
      if n in Flatten(tracks[1..]) {
        var t :| 0 <= t < |tracks[1..]| && n in tracks[1..][t];
        assert n in tracks[t + 1];
      }
    }
  }

  /** The track an entry is on. */
  ghost function TrackOf(tracks: seq<seq<string>>, n: string): (t: nat)
    requires n in Flatten(tracks)
    ensures t < |tracks| && n in tracks[t]
  {
    FlattenMember(tracks, n);
    var t :| 0 <= t < |tracks| && n in tracks[t];
    t
  }

  ghost function TrackMap(tracks: seq<seq<string>>, entries: Entries): (m: map<string, nat>)
    requires forall n :: n in entries ==> n in Flatten(tracks)
    ensures m.Keys == entries.Keys && forall n :: n in m ==> m[n] == TrackOf(tracks, n)
  {
    map n | n in entries :: TrackOf(tracks, n)
  }

  lemma ScheduleHasAll(tracks: seq<seq<string>>, names: seq<string>, entries: Entries)
    requires IsSchedule(tracks, names, entries) && Keys(names, entries)
    ensures forall n :: n in entries ==> n in Flatten(tracks)
  {
    forall n | n in entries ensures n in Flatten(tracks) {
      assert n in multiset(names);
    }
  }

  /** Entries that overlap are on different tracks. */
  lemma OverlapsAreApart(tracks: seq<seq<string>>, entries: Entries, a: string, b: string)
    requires Chained(tracks, entries) && Ordered(entries) && a in Flatten(tracks) && b in Flatten(tracks)
    requires a in entries && b in entries && a != b && Overlap(entries[a], entries[b])
    ensures TrackOf(tracks, a) != TrackOf(tracks, b)
  {
    var s := TrackOf(tracks, a);
    if s == TrackOf(tracks, b) {
      var i :| 0 <= i < |tracks[s]| && tracks[s][i] == a;
      var j :| 0 <= j < |tracks[s]| && tracks[s][j] == b;
      NoOverlapOnTrack(tracks, entries, s, i, j);
    }
  }

  lemma TrackMapConflictFree(tracks: seq<seq<string>>, entries: Entries)
    requires Chained(tracks, entries) && Ordered(entries) && forall n :: n in entries ==> n in Flatten(tracks)
    ensures ConflictFree(entries, TrackMap(tracks, entries))
  {
    var m := TrackMap(tracks, entries);
    forall a, b | a in entries && b in entries && a != b && Overlap(entries[a], entries[b]) ensures m[a] != m[b] {
      OverlapsAreApart(tracks, entries, a, b);
    }
  }

  lemma TrackMapValues(tracks: seq<seq<string>>, entries: Entries)
    requires forall n :: n in entries ==> n in Flatten(tracks)
    ensures |TrackMap(tracks, entries).Values| <= |tracks|
  {
    SubsetCardinality(TrackMap(tracks, entries).Values, Below(|tracks|));
  }

  /** The schedule as a conflict-free assignment with no more values than tracks. */
  lemma ScheduleConflictFree(tracks: seq<seq<string>>, names: seq<string>, entries: Entries)
      returns (track: map<string, nat>)
    requires IsSchedule(tracks, names, entries) && Keys(names, entries) && Ordered(entries)
    ensures ConflictFree(entries, track) && |track.Values| <= |tracks|
  {
    ScheduleHasAll(tracks, names, entries);
    TrackMapConflictFree(tracks, entries);
    TrackMapValues(tracks, entries);
    track := TrackMap(tracks, entries);
  }

  /** What runs together has different values in any conflict-free assignment. */
  lemma RunningNeedTracks(entries: Entries, track: map<string, nat>, t: int)
    requires ConflictFree(entries, track)
    ensures |RunningAt(entries, t)| <= |track.Values|
  {
    var running := RunningAt(entries, t);
    forall a, b | a in running && b in running && a != b ensures track[a] != track[b] {
      assert Overlap(entries[a], entries[b]);
    }
    InjectiveImage(running, track);
    SubsetCardinality(set a | a in running :: track[a], track.Values);
  }

  /** At no instant do more entries run than there are tracks. */
  lemma RunningFit(tracks: seq<seq<string>>, names: seq<string>, entries: Entries, t: int)
    requires IsSchedule(tracks, names, entries) && Keys(names, entries) && Ordered(entries)
    ensures |RunningAt(entries, t)| <= |tracks|
  {
    var track := ScheduleConflictFree(tracks, names, entries);
    RunningNeedTracks(entries, track, t);
  }
}
