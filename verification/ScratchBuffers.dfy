/**
  The per-row slice of a scratch buffer that the string kernels write through a
  cursor, byte by byte or by whole strings, dropping what does not fit. A string is
  a sequence of bytes, each byte one char.
 */
module ScratchBuffers {
  import opened Arithmetic
  import opened Sequences
  import opened Totals

  /** What the slice holds after pushing `str`: all of it, or nothing if it does not fit. */
  function Pushed(buf: string, str: string, capacity: nat): string {
    if |buf| + |str| > capacity then buf else buf + str
  }

  /** Pushing one byte at a time. */
  function PushedEach(buf: string, bytes: string, capacity: nat): string
    decreases |bytes|
  {
    if bytes == [] then buf else PushedEach(Pushed(buf, [bytes[0]], capacity), bytes[1..], capacity)
  }

  function NotDash(c: char): bool { c != '-' }

  function NoDashes(s: string): string {
    if s == [] then [] else (if NotDash(s[0]) then [s[0]] else []) + NoDashes(s[1..])
  }

  /** The bytes that are not dashes, in order. */
  lemma {:induction false} NoDashesPicks(s: string)
    ensures Picks(NoDashes(s), s, c => c != '-')
  {
    var p := c => c != '-';
    if s == [] {
      PicksNone(p);
    } else {
      NoDashesPicks(s[1..]);
      PicksFirst(NoDashes(s[1..]), s, p);
    }
  }

  function Stars(n: nat): (r: string)
    ensures |r| == n && forall i :: 0 <= i < n ==> r[i] == '*'
  {
    seq(n, i => '*')
  }

  /** Pushing bytes one by one fills the slice up with as many as fit. */
  lemma {:induction false} PushedEachFills(buf: string, bytes: string, capacity: nat)
    requires |buf| <= capacity
    ensures PushedEach(buf, bytes, capacity) == buf + bytes[..Min(|bytes|, capacity - |buf|)]
    decreases |bytes|
  {
    if bytes == [] {
      assert buf + bytes[..0] == buf;
    } else {
      var next := Pushed(buf, [bytes[0]], capacity);
      PushedEachFills(next, bytes[1..], capacity);
      if |buf| < capacity {
        var n := Min(|bytes|, capacity - |buf|);
        assert [bytes[0]] + bytes[1..][..n - 1] == bytes[..n];
        assert buf + [bytes[0]] + bytes[1..][..n - 1] == buf + bytes[..n];
      } else {
        assert bytes[1..][..0] == bytes[..0];
      }
    }
  }

  lemma {:induction false} PushedEachConcat(buf: string, a: string, b: string, capacity: nat)
    ensures PushedEach(buf, a + b, capacity) == PushedEach(PushedEach(buf, a, capacity), b, capacity)
    decreases |a|
  {
    if a == [] {
      assert a + b == b;
    } else {
      assert (a + b)[1..] == a[1..] + b && (a + b)[0] == a[0];
      PushedEachConcat(Pushed(buf, [a[0]], capacity), a[1..], b, capacity);
    }
  }

  lemma PushedEachSnoc(buf: string, a: string, c: char, capacity: nat)
    ensures PushedEach(buf, a + [c], capacity) == Pushed(PushedEach(buf, a, capacity), [c], capacity)
  {
    PushedEachConcat(buf, a, [c], capacity);
    assert [c][1..] == [];
  }

  lemma NoDashesCons(c: char, s: string)
    ensures NoDashes([c] + s) == (if NotDash(c) then [c] else []) + NoDashes(s)
  {
    assert ([c] + s)[1..] == s;
  }

  lemma {:induction false} NoDashesConcat(a: string, b: string)
    ensures NoDashes(a + b) == NoDashes(a) + NoDashes(b)
  {
    if a == [] {
      assert a + b == b;
      assert [] + NoDashes(b) == NoDashes(b);
    } else {
      assert a + b == [a[0]] + (a[1..] + b) && a == [a[0]] + a[1..];
      NoDashesConcat(a[1..], b);
      NoDashesCons(a[0], a[1..] + b);
      NoDashesCons(a[0], a[1..]);
      ConcatAssociative(if NotDash(a[0]) then [a[0]] else [], NoDashes(a[1..]), NoDashes(b));
    }
  }

  lemma NoDashesSnoc(s: string, i: nat)
    requires i < |s|
    ensures NoDashes(s[..i + 1]) == NoDashes(s[..i]) + if NotDash(s[i]) then [s[i]] else []
  {
    assert s[..i + 1] == s[..i] + [s[i]];
    NoDashesConcat(s[..i], [s[i]]);
    assert [s[i]][1..] == [];
  }

  /** The bytes that a push of at most `max` digits pushes. */
  function Digits(s: string, max: int): string
    decreases |s|
  {
    if s == [] || max <= 0 then []
    else if NotDash(s[0]) then [s[0]] + Digits(s[1..], max - 1)
    else Digits(s[1..], max)
  }

  /** Where such a push stops reading. */
  function Rest(s: string, max: int): string
    decreases |s|
  {
    if s == [] || max <= 0 then s else Rest(s[1..], if NotDash(s[0]) then max - 1 else max)
  }

  lemma ConsSlices(c: char, rest: string, n: nat)
    requires 0 < n <= |rest| + 1
    ensures ([c] + rest)[..n] == [c] + rest[..n - 1] && ([c] + rest)[n..] == rest[n - 1..]
  {
  }

  /** How many digits such a push pushes. */
  function Pushable(s: string, max: int): (n: nat)
    ensures n <= |NoDashes(s)|
  {
    if max <= 0 then 0 else if max < |NoDashes(s)| then max else |NoDashes(s)|
  }

  /** The first digits are pushed and the others are left. */
  lemma {:induction false} DigitsAndRest(s: string, max: int)
    ensures Digits(s, max) == NoDashes(s)[..Pushable(s, max)]
    ensures NoDashes(Rest(s, max)) == NoDashes(s)[Pushable(s, max)..]
    decreases |s|
  {
    if s != [] && max > 0 {
      if NotDash(s[0]) {
        DigitsAndRest(s[1..], max - 1);
        assert NoDashes(s) == [s[0]] + NoDashes(s[1..]);
        ConsSlices(s[0], NoDashes(s[1..]), Pushable(s[1..], max - 1) + 1);
      } else {
        DigitsAndRest(s[1..], max);
        assert [] + NoDashes(s[1..]) == NoDashes(s[1..]);
      }
    }
  }

  // -------------------------------------------------------------- the cursor

  class ScratchSlice {
    const scratch: array<char>
    const begin: nat
    const end: nat
    var it: nat

    ghost predicate Valid()
      reads this
    {
      begin <= it <= end <= scratch.Length
    }

    /** The bytes pushed so far. */
    function Contents(): string
      reads this, scratch
      requires Valid()
    {
      scratch[begin..it]
    }

    constructor (scratch: array<char>, begin: nat, size: nat)
      requires begin + size <= scratch.Length
      ensures Valid() && this.scratch == scratch && this.begin == begin && end == begin + size && it == begin
    {
      this.scratch, this.begin, end, it := scratch, begin, begin + size, begin;
    }

    method Push(str: string)
      requires Valid()
      modifies this`it, scratch
      ensures Valid() && Contents() == Pushed(old(Contents()), str, end - begin)
      ensures it == (if old(it) + |str| <= end then old(it) + |str| else old(it)) && scratch[old(it)..it] <= str
      ensures old(it) <= it && forall k :: 0 <= k < scratch.Length && !(old(it) <= k < it) ==>
          scratch[k] == old(scratch[k])
    {
      if it + |str| > end {
        return;
      }
      ghost var before := Contents();
      forall i | it <= i < it + |str| {
        scratch[i] := str[i - it];
      }
      it := it + |str|;
      assert scratch[begin..old(it)] == before;
      assert scratch[old(it)..it] == str;
      assert scratch[begin..it] == scratch[begin..old(it)] + scratch[old(it)..it];
    }

    /** Every byte that is not a dash. */
    method PushDigits(str: string)
      requires Valid()
      modifies this`it, scratch
      ensures Valid() && Contents() == PushedEach(old(Contents()), NoDashes(str), end - begin)
      ensures old(it) <= it && forall k :: 0 <= k < scratch.Length && !(old(it) <= k < it) ==>
          scratch[k] == old(scratch[k])
    {
      var iter := 0;
      ghost var before := Contents();
      while iter != |str|
        invariant 0 <= iter <= |str| && Valid()
        invariant Contents() == PushedEach(before, NoDashes(str[..iter]), end - begin)
        invariant old(it) <= it && forall k :: 0 <= k < scratch.Length && !(old(it) <= k < it) ==>
            scratch[k] == old(scratch[k])
        decreases |str| - iter
      {
        NoDashesSnoc(str, iter);
        PushedEachSnoc(before, NoDashes(str[..iter]), str[iter], end - begin);
        assert NoDashes(str[..iter]) + [] == NoDashes(str[..iter]);
        if str[iter] != '-' {
          Push([str[iter]]);
        }
        iter := iter + 1;
      }
      assert str[..|str|] == str;
    }

    /** At most `max` bytes that are not dashes; where reading stopped. A byte that does not fit counts. */
    method PushDigitsUpTo(str: string, max: int) returns (rest: string)
      requires Valid()
      modifies this`it, scratch
      ensures Valid() && Contents() == PushedEach(old(Contents()), Digits(str, max), end - begin)
      ensures rest == Rest(str, max)
      ensures old(it) <= it && forall k :: 0 <= k < scratch.Length && !(old(it) <= k < it) ==>
          scratch[k] == old(scratch[k])
    {
      var iter, digitsPushed := 0, 0;
      while iter != |str| && digitsPushed < max
        invariant 0 <= iter <= |str| && Valid()
        invariant PushedEach(Contents(), Digits(str[iter..], max - digitsPushed), end - begin)
               == PushedEach(old(Contents()), Digits(str, max), end - begin)
        invariant Rest(str[iter..], max - digitsPushed) == Rest(str, max)
        invariant old(it) <= it && forall k :: 0 <= k < scratch.Length && !(old(it) <= k < it) ==>
            scratch[k] == old(scratch[k])
        decreases |str| - iter
      {
        assert str[iter..][1..] == str[iter + 1..];
        if str[iter] != '-' {
          Push([str[iter]]);
          digitsPushed := digitsPushed + 1;
        }
        iter := iter + 1;
      }
      rest := str[iter..];
    }

    /** A star for every byte that is not a dash. */
    method PushHiddenDigits(str: string)
      requires Valid()
      modifies this`it, scratch
      ensures Valid() && Contents() == PushedEach(old(Contents()), Stars(|NoDashes(str)|), end - begin)
      ensures old(it) <= it && forall k :: 0 <= k < scratch.Length && !(old(it) <= k < it) ==>
          scratch[k] == old(scratch[k])
    {
      var iter := 0;
      ghost var before := Contents();
      while iter != |str|
        invariant 0 <= iter <= |str| && Valid()
        invariant Contents() == PushedEach(before, Stars(|NoDashes(str[..iter])|), end - begin)
        invariant old(it) <= it && forall k :: 0 <= k < scratch.Length && !(old(it) <= k < it) ==>
            scratch[k] == old(scratch[k])
        decreases |str| - iter
      {
        NoDashesSnoc(str, iter);
        ghost var n := |NoDashes(str[..iter])|;
        PushedEachSnoc(before, Stars(n), '*', end - begin);
        assert Stars(n + 1) == Stars(n) + ['*'];
        if str[iter] != '-' {
          Push("*");
        }
        iter := iter + 1;
      }
      assert str[..|str|] == str;
    }
  }
}
