/**
  The string kernels of all rows side by side: each pushes into its own slice of one
  scratch buffer, one bounds check or one copied byte at a time, in any interleaving.
 */
module ScratchSchedules {
  import opened Arithmetic
  import opened Sequences
  import opened ScratchBuffers

  // --------------------------------------------------------------- the slices

  /** Byte `k` of row `r`'s slice. */
  function Address(r: nat, k: nat, size: nat): nat { r * size + k }

  lemma SliceWithin(r: nat, rows: nat, size: nat, k: nat)
    requires r < rows && k <= size
    ensures Address(r, k, size) <= rows * size
    ensures k < size ==> Address(r, k, size) < rows * size
  {
    assert rows * size == r * size + (rows - r) * size;
    AtLeast(rows - r, size);
  }

  lemma AtLeast(n: nat, size: nat)
    requires n >= 1
    ensures n * size >= size
  {
  }

  /** An address determines its row and its place there. */
  lemma AddressDivided(r: nat, k: nat, size: nat)
    requires k < size
    ensures Address(r, k, size) / size == r && Address(r, k, size) % size == k
  {
    RemainderUnique(Address(r, k, size), size, r, k);
  }

  /** The rows' slices lie in the buffer and share no byte. */
  lemma SlicesSeparate(rows: nat, size: nat)
    ensures forall r: nat, k: nat :: r < rows && k < size ==> Address(r, k, size) < rows * size
    ensures forall r: nat, k: nat, s: nat, l: nat ::
        r < rows && k < size && s < rows && l < size && Address(r, k, size) == Address(s, l, size) ==> r == s && k == l
  {
    forall r: nat, k: nat | r < rows && k < size ensures Address(r, k, size) < rows * size {
      SliceWithin(r, rows, size, k);
    }
    forall r: nat, k: nat, s: nat, l: nat
      | r < rows && k < size && s < rows && l < size && Address(r, k, size) == Address(s, l, size)
      ensures r == s && k == l
    {
      AddressDivided(r, k, size);
      AddressDivided(s, l, size);
    }
  }

  // ------------------------------------------------------------ pushes in turn

  /** What a slice holds after several pushes. */
  function PushedAll(buf: string, pushes: seq<string>, capacity: nat): string
    decreases |pushes|
  {
    if pushes == [] then buf else PushedAll(Pushed(buf, pushes[0], capacity), pushes[1..], capacity)
  }

  function Singles(bytes: string): (r: seq<string>)
    ensures |r| == |bytes| && forall i :: 0 <= i < |bytes| ==> r[i] == [bytes[i]]
  {
    seq(|bytes|, i requires 0 <= i < |bytes| => [bytes[i]])
  }

  lemma {:induction false} PushedSingles(buf: string, bytes: string, capacity: nat)
    ensures PushedAll(buf, Singles(bytes), capacity) == PushedEach(buf, bytes, capacity)
    decreases |bytes|
  {
    if bytes != [] {
      assert Singles(bytes)[1..] == Singles(bytes[1..]);
      PushedSingles(Pushed(buf, [bytes[0]], capacity), bytes[1..], capacity);
    }
  }

  lemma {:induction false} PushedAllConcat(buf: string, a: seq<string>, b: seq<string>, capacity: nat)
    ensures PushedAll(buf, a + b, capacity) == PushedAll(PushedAll(buf, a, capacity), b, capacity)
    decreases |a|
  {
    if a == [] {
      assert a + b == b;
    } else {
      assert (a + b)[1..] == a[1..] + b && (a + b)[0] == a[0];
      PushedAllConcat(Pushed(buf, a[0], capacity), a[1..], b, capacity);
    }
  }

  lemma PushedOne(buf: string, str: string, capacity: nat)
    ensures PushedAll(buf, [str], capacity) == Pushed(buf, str, capacity)
  {
    assert [str][1..] == [];
  }

  /** Pushes only append, within the capacity. */
  lemma {:induction false} PushedAllExtends(buf: string, pushes: seq<string>, capacity: nat)
    ensures |buf| <= |PushedAll(buf, pushes, capacity)| && PushedAll(buf, pushes, capacity)[..|buf|] == buf
    ensures |buf| <= capacity ==> |PushedAll(buf, pushes, capacity)| <= capacity
    decreases |pushes|
  {
    if pushes != [] {
      var next := Pushed(buf, pushes[0], capacity);
      PushedAllExtends(next, pushes[1..], capacity);
      var all := PushedAll(next, pushes[1..], capacity);
      assert next[..|buf|] == buf;
      assert all[..|next|][..|buf|] == all[..|buf|];
    }
  }

  /** What each row's pushes leave in its slice. */
  function Texts(pushes: seq<seq<string>>, size: nat): (texts: seq<string>)
    ensures |texts| == |pushes| && forall r :: 0 <= r < |pushes| ==> texts[r] == PushedAll("", pushes[r], size)
  {
    seq(|pushes|, r requires 0 <= r < |pushes| => PushedAll("", pushes[r], size))
  }

  // ---------------------------------------------------------------- the kernels

  /**
    A running kernel: bytes written, bytes that an accepted push has still to copy,
    and pushes to come. The cursor is checked only between pushes, so it may move
    with the bytes.
   */
  datatype Kernel = Kernel(it: nat, copying: string, pending: seq<string>)

  datatype Machine = Machine(memory: string, kernels: seq<Kernel>)

  predicate Idle(k: Kernel) { k.copying == [] && k.pending == [] }

  predicate AllIdle(m: Machine) { forall r :: 0 <= r < |m.kernels| ==> Idle(m.kernels[r]) }

  /** Copy one byte, or check the next push: dropped if it does not fit, accepted if it does. */
  function Next(k: Kernel, size: nat): Kernel
    requires !Idle(k)
  {
    if k.copying != [] then Kernel(k.it + 1, k.copying[1..], k.pending)
    else if k.it + |k.pending[0]| > size then k.(pending := k.pending[1..])
    else Kernel(k.it, k.pending[0], k.pending[1..])
  }

  /** No cursor can leave its slice, and the slices fill the buffer. */
  predicate Safe(m: Machine, size: nat) {
    && |m.memory| == |m.kernels| * size
    && forall r :: 0 <= r < |m.kernels| ==> m.kernels[r].it + |m.kernels[r].copying| <= size
  }

  /** One step of row `r`; every write is inside the row's slice. */
  function Step(m: Machine, size: nat, r: nat): (m': Machine)
    requires Safe(m, size) && r < |m.kernels| && !Idle(m.kernels[r])
    ensures Safe(m', size) && |m'.kernels| == |m.kernels|
  {
    var k := m.kernels[r];
    SliceWithin(r, |m.kernels|, size, k.it);
    Machine(if k.copying == [] then m.memory else m.memory[Address(r, k.it, size) := k.copying[0]],
            m.kernels[r := Next(k, size)])
  }

  /** `schedule` names the row that moves at each step. */
  ghost predicate Runs(m: Machine, size: nat, schedule: seq<nat>, m': Machine)
    requires Safe(m, size)
    decreases |schedule|
  {
    if schedule == [] then m' == m
    else
      && schedule[0] < |m.kernels| && !Idle(m.kernels[schedule[0]])
      && Runs(Step(m, size, schedule[0]), size, schedule[1..], m')
  }

  function Start(memory: string, pushes: seq<seq<string>>): (m: Machine)
    ensures m.memory == memory && |m.kernels| == |pushes|
    ensures forall r :: 0 <= r < |pushes| ==> m.kernels[r] == Kernel(0, "", pushes[r])
  {
    Machine(memory, seq(|pushes|, r requires 0 <= r < |pushes| => Kernel(0, "", pushes[r])))
  }

  // --------------------------------------------------- what every schedule keeps

  /** Row `r` has written `done[r]` bytes of its text, and no other byte changed. */
  ghost predicate Consistent(memory: string, done: seq<nat>, texts: seq<string>, size: nat, before: string) {
    && size > 0 && |done| == |texts| && |memory| == |before| == |texts| * size
    && (forall r :: 0 <= r < |texts| ==> done[r] <= |texts[r]|)
    && forall a :: 0 <= a < |before| ==> memory[a] == Expected(done, texts, size, before, a)
  }

  function Expected(done: seq<nat>, texts: seq<string>, size: nat, before: string, a: nat): char
    requires size > 0 && |done| == |texts| && a < |before|
    requires forall r :: 0 <= r < |texts| ==> done[r] <= |texts[r]|
  {
    if a / size < |texts| && a % size < done[a / size] then texts[a / size][a % size] else before[a]
  }

  /** The kernel will leave exactly `text`, and has written its first `it` bytes. */
  ghost predicate OnText(k: Kernel, text: string, size: nat) {
    k.it <= |text| && PushedAll(text[..k.it] + k.copying, k.pending, size) == text
  }

  lemma NextOnText(k: Kernel, text: string, size: nat)
    requires OnText(k, text, size) && !Idle(k) && k.it + |k.copying| <= size
    ensures OnText(Next(k, size), text, size)
    ensures k.copying != [] ==> k.it < |text| && text[k.it] == k.copying[0]
  {
    var buf := text[..k.it] + k.copying;
    PushedAllExtends(buf, k.pending, size);
    if k.copying != [] {
      assert text[..|buf|][k.it] == buf[k.it] == k.copying[0];
      assert text[..k.it + 1] + k.copying[1..] == buf;
    } else {
      assert buf == text[..k.it];
      assert k.pending != [];
      assert text[..k.it] + [] == text[..k.it];
    }
  }

  /** Extending row `r`'s text in the buffer: its slice up to `n` bytes, nothing else. */
  lemma RowExtended(memory: string, memory': string, done: seq<nat>, texts: seq<string>, size: nat, before: string,
                    r: nat, n: nat)
    requires Consistent(memory, done, texts, size, before) && r < |texts| && done[r] <= n <= |texts[r]| && n <= size
    requires |memory'| == |memory|
    requires forall a :: 0 <= a < |memory| && !(Address(r, done[r], size) <= a < Address(r, n, size)) ==>
        memory'[a] == memory[a]
    requires forall k: nat :: done[r] <= k < n && Address(r, k, size) < |memory'| ==>
        memory'[Address(r, k, size)] == texts[r][k]
    ensures Consistent(memory', done[r := n], texts, size, before)
  {
    var done' := done[r := n];
    forall a | 0 <= a < |before| ensures memory'[a] == Expected(done', texts, size, before, a) {
      var s, k := a / size, a % size;
      assert a == Address(s, k, size) by { assert a == size * (a / size) + a % size; }
      if Address(r, done[r], size) <= a < Address(r, n, size) {
        InSlice(a, r, done[r], n, size);
        assert memory'[Address(r, k, size)] == texts[r][k];
      } else {
        assert s == r ==> k < done[r] || k >= n;
      }
    }
  }

  lemma InSlice(a: nat, r: nat, lo: nat, hi: nat, size: nat)
    requires size > 0 && hi <= size && Address(r, lo, size) <= a < Address(r, hi, size)
    ensures a / size == r && lo <= a % size < hi && a == Address(r, a % size, size)
  {
    AddressDivided(r, a - r * size, size);
  }

  function Cursors(m: Machine): (r: seq<nat>)
    ensures |r| == |m.kernels| && forall i :: 0 <= i < |r| ==> r[i] == m.kernels[i].it
  {
    seq(|m.kernels|, i requires 0 <= i < |m.kernels| => m.kernels[i].it)
  }

  ghost predicate OnCourse(m: Machine, texts: seq<string>, size: nat, before: string) {
    && Safe(m, size) && |m.kernels| == |texts|
    && (forall r :: 0 <= r < |texts| ==> OnText(m.kernels[r], texts[r], size))
    && Consistent(m.memory, Cursors(m), texts, size, before)
  }

  lemma StepKeeps(m: Machine, texts: seq<string>, size: nat, before: string, r: nat)
    requires OnCourse(m, texts, size, before) && r < |texts| && !Idle(m.kernels[r])
    ensures OnCourse(Step(m, size, r), texts, size, before)
  {
    var m', k := Step(m, size, r), m.kernels[r];
    NextOnText(k, texts[r], size);
    SliceWithin(r, |texts|, size, k.it);
    assert Cursors(m') == Cursors(m)[r := m'.kernels[r].it];
    RowExtended(m.memory, m'.memory, Cursors(m), texts, size, before, r, m'.kernels[r].it);
  }

  lemma {:induction false} ScheduleKeeps(m: Machine, texts: seq<string>, size: nat, before: string, schedule: seq<nat>,
                                         m': Machine)
    requires OnCourse(m, texts, size, before) && Runs(m, size, schedule, m')
    ensures OnCourse(m', texts, size, before)
    decreases |schedule|
  {
    if schedule != [] {
      StepKeeps(m, texts, size, before, schedule[0]);
      ScheduleKeeps(Step(m, size, schedule[0]), texts, size, before, schedule[1..], m');
    }
  }

  function Lengths(texts: seq<string>): (r: seq<nat>)
    ensures |r| == |texts| && forall i :: 0 <= i < |r| ==> r[i] == |texts[i]|
  {
    seq(|texts|, i requires 0 <= i < |texts| => |texts[i]|)
  }

  /** The buffer with each row's text at the start of its slice and all other bytes as before. */
  function FinalBuffer(before: string, texts: seq<string>, size: nat): (r: string)
    requires size > 0
    ensures |r| == |before|
  {
    seq(|before|, a requires 0 <= a < |before| => Expected(Lengths(texts), texts, size, before, a))
  }

  lemma FinalBufferText(before: string, texts: seq<string>, size: nat, r: nat)
    requires size > 0 && |before| == |texts| * size && r < |texts| && |texts[r]| <= size
    ensures Address(r, |texts[r]|, size) <= |before|
    ensures FinalBuffer(before, texts, size)[Address(r, 0, size)..Address(r, |texts[r]|, size)] == texts[r]
  {
    SliceWithin(r, |texts|, size, |texts[r]|);
    forall k | 0 <= k < |texts[r]| ensures FinalBuffer(before, texts, size)[Address(r, k, size)] == texts[r][k] {
      AddressDivided(r, k, size);
    }
  }

  function Nothing(rows: nat): (r: seq<nat>)
    ensures |r| == rows && forall i :: 0 <= i < rows ==> r[i] == 0
  {
    seq(rows, _ => 0)
  }

  lemma StartOnCourse(before: string, pushes: seq<seq<string>>, size: nat)
    requires size > 0 && |before| == |pushes| * size
    ensures OnCourse(Start(before, pushes), Texts(pushes, size), size, before)
  {
    var start, texts := Start(before, pushes), Texts(pushes, size);
    assert Cursors(start) == Nothing(|pushes|);
    forall r | 0 <= r < |pushes| ensures OnText(start.kernels[r], texts[r], size) {
      assert texts[r][..0] + "" == "";
    }
  }

  lemma IdleOnText(k: Kernel, text: string, size: nat)
    requires OnText(k, text, size) && Idle(k)
    ensures k.it == |text|
  {
  }

  lemma AllIdleWritten(m: Machine, texts: seq<string>, size: nat, before: string)
    requires OnCourse(m, texts, size, before) && AllIdle(m)
    ensures m.memory == FinalBuffer(before, texts, size)
  {
    forall r | 0 <= r < |texts| ensures m.kernels[r].it == |texts[r]| {
      IdleOnText(m.kernels[r], texts[r], size);
    }
    assert Cursors(m) == Lengths(texts);
  }

  /** However the kernels' checks and copied bytes interleave, the finished buffer is the same. */
  lemma SchedulesAgree(before: string, pushes: seq<seq<string>>, size: nat, schedule: seq<nat>, m: Machine)
    requires size > 0 && |before| == |pushes| * size
    requires Runs(Start(before, pushes), size, schedule, m) && AllIdle(m)
    ensures m.memory == FinalBuffer(before, Texts(pushes, size), size)
  {
    StartOnCourse(before, pushes, size);
    ScheduleKeeps(Start(before, pushes), Texts(pushes, size), size, before, schedule, m);
    AllIdleWritten(m, Texts(pushes, size), size, before);
  }

  // ------------------------------------------------------ every run can finish

  function WorkOf(k: Kernel): nat { |k.copying| + PendingWork(k.pending) }

  function PendingWork(pending: seq<string>): nat {
    if pending == [] then 0 else 1 + |pending[0]| + PendingWork(pending[1..])
  }

  function Work(kernels: seq<Kernel>): nat { SumBy(kernels, WorkOf) }

  lemma NextWorks(k: Kernel, size: nat)
    requires !Idle(k)
    ensures WorkOf(Next(k, size)) < WorkOf(k)
  {
  }

  /** Some schedule finishes from any safe state: no kernel ever blocks. */
  lemma {:induction false} CanFinish(m: Machine, size: nat) returns (schedule: seq<nat>, m': Machine)
    requires Safe(m, size)
    ensures Runs(m, size, schedule, m') && AllIdle(m')
    decreases Work(m.kernels)
  {
    if AllIdle(m) {
      schedule, m' := [], m;
    } else {
      var r: nat :| r < |m.kernels| && !Idle(m.kernels[r]);
      NextWorks(m.kernels[r], size);
      SumByUpdated(m.kernels, r, Next(m.kernels[r], size), WorkOf);
      var rest;
      rest, m' := CanFinish(Step(m, size, r), size);
      schedule := [r] + rest;
      assert schedule[1..] == rest;
    }
  }
}
