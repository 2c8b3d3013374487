/**
  E.164 formatting: the kernel that writes into a 20-byte slice, and the chain of
  column operations for the same task.
 */
module PhoneE164 {
  import opened Arithmetic
  import opened Sequences
  import opened Totals
  import opened ScratchBuffers
  import opened ScratchSchedules

  const MAXIMUM_SIZE: nat := 20
  const MIN_VISIBLE_AGE: int := 21

  function SkipZeros(s: string): string { if s != [] && s[0] == '0' then SkipZeros(s[1..]) else s }

  /** `rest` is the code behind its first `k` bytes, all zeros, and does not start with one. */
  ghost predicate ZerosSkipped(code: string, k: nat, rest: string) {
    && k <= |code| && rest == code[k..]
    && (forall i :: 0 <= i < k ==> code[i] == '0')
    && (rest == [] || rest[0] != '0')
  }

  lemma {:induction false} ZerosToSkip(code: string) returns (k: nat)
    ensures ZerosSkipped(code, k, SkipZeros(code))
  {
    k := 0;
    assert code[0..] == code;
    if code != [] && code[0] == '0' {
      k := ZerosToSkip(code[1..]);
      assert code[1..][k..] == code[k + 1..];
      k := k + 1;
    }
  }

  /** There is one way to skip all leading zeros and nothing else. */
  lemma SkippedOnce(code: string, k: nat, rest: string, l: nat, other: string)
    requires ZerosSkipped(code, k, rest) && ZerosSkipped(code, l, other)
    ensures rest == other
  {
    assert k == |code| || code[k] == rest[0];
    assert l == |code| || code[l] == other[0];
  }

  /** What is left is the code behind its leading zeros. */
  lemma SkipZerosIs(code: string, rest: string)
    ensures rest == SkipZeros(code) <==> exists k :: ZerosSkipped(code, k, rest)
  {
    var k := ZerosToSkip(code);
    if l: nat :| ZerosSkipped(code, l, rest) {
      SkippedOnce(code, k, SkipZeros(code), l, rest);
    }
  }

  /** What the kernel leaves in a slice of the given size. */
  function KernelText(country: string, area: string, phone: string, hidden: bool, size: nat): string {
    var plus := Pushed("", "+", size);
    var withCountry := PushedEach(plus, NoDashes(SkipZeros(country)), size);
    var withArea := Pushed(withCountry, area, size);
    PushedEach(withArea, if hidden then Stars(|NoDashes(phone)|) else NoDashes(phone), size)
  }

  method SkipLeadingZeros(code: string) returns (rest: string)
    ensures rest == SkipZeros(code)
    ensures exists k :: ZerosSkipped(code, k, rest)
  {
    var iter := 0;
    while iter != |code| && code[iter] == '0'
      invariant 0 <= iter <= |code| && SkipZeros(code[iter..]) == SkipZeros(code)
      invariant forall i :: 0 <= i < iter ==> code[i] == '0'
      decreases |code| - iter
    {
      assert code[iter..][1..] == code[iter + 1..];
      iter := iter + 1;
    }
    rest := code[iter..];
    assert ZerosSkipped(code, iter, rest);
  }

  /** The kernel's pushes, into a slice whose cursor is at its start. */
  method PushNumber(slice: ScratchSlice, country: string, area: string, phone: string, hidden: bool)
    requires slice.Valid() && slice.it == slice.begin
    modifies slice`it, slice.scratch
    ensures slice.Valid() && slice.Contents() == KernelText(country, area, phone, hidden, slice.end - slice.begin)
    ensures forall k :: 0 <= k < slice.scratch.Length && !(slice.begin <= k < slice.it) ==>
        slice.scratch[k] == old(slice.scratch[k])
  {
    assert slice.Contents() == "";
    slice.Push("+");
    var stripped := SkipLeadingZeros(country);
    slice.PushDigits(stripped);
    slice.Push(area);
    if hidden {
      slice.PushHiddenDigits(phone);
    } else {
      slice.PushDigits(phone);
    }
  }

  method FormatAt(scratch: array<char>, begin: nat, size: nat, country: string, area: string, phone: string,
                  hidden: bool)
      returns (out: string)
    requires begin + size <= scratch.Length
    modifies scratch
    ensures out == KernelText(country, area, phone, hidden, size)
    ensures |out| <= size && scratch[begin..begin + |out|] == out
    ensures forall k :: 0 <= k < scratch.Length && !(begin <= k < begin + |out|) ==> scratch[k] == old(scratch[k])
  {
    var slice := new ScratchSlice(scratch, begin, size);
    PushNumber(slice, country, area, phone, hidden);
    out := slice.Contents();
    assert slice.scratch == scratch && slice.begin == begin && slice.it <= begin + size;
    assert out == scratch[begin..slice.it] && slice.it == begin + |out|;
  }

  /** One row of the kernel: writes at the start of its own slice and nowhere else. */
  method E164Format(scratch: array<char>, row: nat, country: string, area: string, phone: string,
                    age: int, minVisibleAge: int, size: nat) returns (out: string, ghost begin: nat)
    requires row * size + size <= scratch.Length
    modifies scratch
    ensures begin == row * size && begin + size <= scratch.Length
    ensures out == KernelText(country, area, phone, age < minVisibleAge, size)
    ensures |out| <= size && scratch[begin..begin + |out|] == out
    ensures forall k :: 0 <= k < scratch.Length && !(begin <= k < begin + |out|) ==> scratch[k] == old(scratch[k])
  {
    begin := row * size;
    out := FormatAt(scratch, row * size, size, country, area, phone, age < minVisibleAge);
  }

  // -------------------------------------------------------------- the columns

  /** The second and later bytes of a UTF-8 character. */
  predicate IsContinuation(c: char) { 0x80 <= c as int < 0xC0 }

  /** `count_characters` */
  function CountCharacters(s: string): (n: nat)
    ensures n <= |s|
  {
    if s == [] then 0 else (if IsContinuation(s[0]) then 0 else 1) + CountCharacters(s[1..])
  }

  /** Every byte that does not continue a character counts. */
  lemma {:induction false} CharactersCounted(s: string)
    ensures CountCharacters(s) == |Places(s, c => !IsContinuation(c))|
  {
    var p := c => !IsContinuation(c);
    if s == [] {
      assert Places(s, p) == {};
    } else {
      CharactersCounted(s[1..]);
      PlacesFirst(s, p);
    }
  }

  /** The bytes whose top bits are 10. */
  lemma ContinuationIs(c: char)
    requires c as int < 0x100
    ensures IsContinuation(c) <==> c as int / 0x40 == 2
  {
  }

  /** UTF-8 (section 3 of RFC 3629). */
  function Utf8(n: nat): string
    requires n < 0x11_0000
  {
    if n < 0x80 then [n as char]
    else if n < 0x800 then [(0xC0 + n / 0x40) as char, (0x80 + n % 0x40) as char]
    else if n < 0x1_0000 then
      [(0xE0 + n / 0x1000) as char, (0x80 + n / 0x40 % 0x40) as char, (0x80 + n % 0x40) as char]
    else
      [(0xF0 + n / 0x4_0000) as char, (0x80 + n / 0x1000 % 0x40) as char, (0x80 + n / 0x40 % 0x40) as char,
       (0x80 + n % 0x40) as char]
  }

  function Encoded(numbers: seq<nat>): string
    requires forall i :: 0 <= i < |numbers| ==> numbers[i] < 0x11_0000
  {
    if numbers == [] then "" else Utf8(numbers[0]) + Encoded(numbers[1..])
  }

  lemma OneCharacter(s: string)
    requires s != [] && !IsContinuation(s[0]) && forall i :: 0 < i < |s| ==> IsContinuation(s[i])
    ensures CountCharacters(s) == 1
  {
    AllContinue(s[1..]);
  }

  lemma {:induction false} AllContinue(s: string)
    requires forall i :: 0 <= i < |s| ==> IsContinuation(s[i])
    ensures CountCharacters(s) == 0
  {
    if s != [] {
      AllContinue(s[1..]);
    }
  }

  lemma CountConcatenated(a: string, b: string)
    ensures CountCharacters(a + b) == CountCharacters(a) + CountCharacters(b)
  {
    CharactersCounted(a);
    CharactersCounted(b);
    CharactersCounted(a + b);
    PlacesConcat(a, b, c => !IsContinuation(c));
  }

  /** On encoded text, what is counted is the characters. */
  lemma {:induction false} CountsCharacters(numbers: seq<nat>)
    requires forall i :: 0 <= i < |numbers| ==> numbers[i] < 0x11_0000
    ensures CountCharacters(Encoded(numbers)) == |numbers|
  {
    if numbers != [] {
      CountsCharacters(numbers[1..]);
      OneCharacter(Utf8(numbers[0]));
      CountConcatenated(Utf8(numbers[0]), Encoded(numbers[1..]));
    }
  }

  predicate SingleBytes(s: string) { forall i :: 0 <= i < |s| ==> !IsContinuation(s[i]) }

  /** Strip zeros, remove dashes, hidden by counted characters, concatenate. */
  function ColumnText(country: string, area: string, phone: string, show: bool): string {
    var stripped := NoDashes(SkipZeros(country));
    var digits := NoDashes(phone);
    var redacted := if show then digits else Stars(CountCharacters(digits));
    "+" + stripped + area + redacted
  }

  lemma {:induction false} CountAll(s: string)
    ensures CountCharacters(s) == |s| <==> SingleBytes(s)
  {
    if s != [] {
      CountAll(s[1..]);
      assert SingleBytes(s) <==> !IsContinuation(s[0]) && SingleBytes(s[1..]) by {
        assert forall i :: 0 < i < |s| ==> s[i] == s[1..][i - 1];
      }
    }
  }

  /** While everything fits, the first three parts are simply put side by side. */
  lemma FrontFits(country: string, area: string, size: nat)
    requires var front := "+" + NoDashes(SkipZeros(country)) + area; |front| <= size
    ensures Pushed(PushedEach(Pushed("", "+", size), NoDashes(SkipZeros(country)), size), area, size)
         == "+" + NoDashes(SkipZeros(country)) + area
  {
    var digits := NoDashes(SkipZeros(country));
    assert "" + "+" == "+";
    PushedEachFills("+", digits, size);
    assert digits[..|digits|] == digits;
  }

  lemma {:induction false} PushedEachLength(buf: string, bytes: string, size: nat)
    requires |buf| <= size
    ensures |PushedEach(buf, bytes, size)| <= size
  {
    PushedEachFills(buf, bytes, size);
  }

  lemma KernelLength(country: string, area: string, phone: string, hidden: bool, size: nat)
    ensures |KernelText(country, area, phone, hidden, size)| <= size
  {
    var plus := Pushed("", "+", size);
    PushedEachLength(plus, NoDashes(SkipZeros(country)), size);
    var withArea := Pushed(PushedEach(plus, NoDashes(SkipZeros(country)), size), area, size);
    PushedEachLength(withArea, if hidden then Stars(|NoDashes(phone)|) else NoDashes(phone), size);
  }

  datatype PhoneRow = PhoneRow(country: string, area: string, phone: string, age: int)

  function KernelTexts(rows: seq<PhoneRow>): (texts: seq<string>)
    ensures |texts| == |rows|
    ensures forall r :: 0 <= r < |rows| ==>
        texts[r] == KernelText(rows[r].country, rows[r].area, rows[r].phone, rows[r].age < MIN_VISIBLE_AGE,
                               MAXIMUM_SIZE)
  {
    seq(|rows|, r requires 0 <= r < |rows| =>
        KernelText(rows[r].country, rows[r].area, rows[r].phone, rows[r].age < MIN_VISIBLE_AGE, MAXIMUM_SIZE))
  }

  lemma KernelTextsFit(rows: seq<PhoneRow>)
    ensures forall r :: 0 <= r < |rows| ==> |KernelTexts(rows)[r]| <= MAXIMUM_SIZE
  {
    forall r | 0 <= r < |rows| ensures |KernelTexts(rows)[r]| <= MAXIMUM_SIZE {
      KernelLength(rows[r].country, rows[r].area, rows[r].phone, rows[r].age < MIN_VISIBLE_AGE, MAXIMUM_SIZE);
    }
  }

  // ------------------------------------------------------------ rows in parallel

  /** The strings a row's kernel tries to push, in order. */
  function KernelPushes(country: string, area: string, phone: string, hidden: bool): seq<string> {
    ["+"] + Singles(NoDashes(SkipZeros(country))) + [area]
    + Singles(if hidden then Stars(|NoDashes(phone)|) else NoDashes(phone))
  }

  lemma PushesGiveText(country: string, area: string, phone: string, hidden: bool, size: nat)
    ensures PushedAll("", KernelPushes(country, area, phone, hidden), size)
        == KernelText(country, area, phone, hidden, size)
  {
    var digits, shown := NoDashes(SkipZeros(country)), if hidden then Stars(|NoDashes(phone)|) else NoDashes(phone);
    PushedAllConcat("", ["+"] + Singles(digits) + [area], Singles(shown), size);
    PushedAllConcat("", ["+"] + Singles(digits), [area], size);
    PushedAllConcat("", ["+"], Singles(digits), size);
    PushedOne("", "+", size);
    PushedSingles(Pushed("", "+", size), digits, size);
    PushedOne(PushedEach(Pushed("", "+", size), digits, size), area, size);
    PushedSingles(PushedAll("", ["+"] + Singles(digits) + [area], size), shown, size);
  }

  function AllPushes(rows: seq<PhoneRow>): (pushes: seq<seq<string>>)
    ensures |pushes| == |rows|
    ensures forall r :: 0 <= r < |rows| ==>
        pushes[r] == KernelPushes(rows[r].country, rows[r].area, rows[r].phone, rows[r].age < MIN_VISIBLE_AGE)
  {
    seq(|rows|, r requires 0 <= r < |rows| =>
        KernelPushes(rows[r].country, rows[r].area, rows[r].phone, rows[r].age < MIN_VISIBLE_AGE))
  }

  lemma AllPushesGiveTexts(rows: seq<PhoneRow>)
    ensures Texts(AllPushes(rows), MAXIMUM_SIZE) == KernelTexts(rows)
  {
    forall r | 0 <= r < |rows| ensures Texts(AllPushes(rows), MAXIMUM_SIZE)[r] == KernelTexts(rows)[r] {
      PushesGiveText(rows[r].country, rows[r].area, rows[r].phone, rows[r].age < MIN_VISIBLE_AGE, MAXIMUM_SIZE);
    }
  }

  /** The rows' kernels, interleaved by `schedule`, have all finished in `m`. */
  ghost predicate Finishes(rows: seq<PhoneRow>, memory: string, schedule: seq<nat>, m: Machine)
    requires |memory| == |rows| * MAXIMUM_SIZE
  {
    Runs(Start(memory, AllPushes(rows)), MAXIMUM_SIZE, schedule, m) && AllIdle(m)
  }

  /** Every interleaving of the rows' kernels that finishes leaves the same buffer, each row's text in its slice. */
  lemma KernelsInterleave(rows: seq<PhoneRow>, memory: string, schedule: seq<nat>, m: Machine)
    requires |memory| == |rows| * MAXIMUM_SIZE && Finishes(rows, memory, schedule, m)
    ensures m.memory == FinalBuffer(memory, KernelTexts(rows), MAXIMUM_SIZE)
    ensures forall r: nat :: r < |rows| ==>
        && |KernelTexts(rows)[r]| <= MAXIMUM_SIZE
        && Address(r, |KernelTexts(rows)[r]|, MAXIMUM_SIZE) <= |memory|
        && m.memory[Address(r, 0, MAXIMUM_SIZE)..Address(r, |KernelTexts(rows)[r]|, MAXIMUM_SIZE)]
            == KernelTexts(rows)[r]
  {
    SchedulesAgree(memory, AllPushes(rows), MAXIMUM_SIZE, schedule, m);
    AllPushesGiveTexts(rows);
    KernelTextsFit(rows);
    forall r: nat | r < |rows|
      ensures Address(r, |KernelTexts(rows)[r]|, MAXIMUM_SIZE) <= |memory|
      ensures m.memory[Address(r, 0, MAXIMUM_SIZE)..Address(r, |KernelTexts(rows)[r]|, MAXIMUM_SIZE)]
          == KernelTexts(rows)[r]
    {
      FinalBufferText(memory, KernelTexts(rows), MAXIMUM_SIZE, r);
    }
  }

  /** The finished rows of `order` have written their texts, the others nothing. */
  function DoneRows(order: seq<nat>, texts: seq<string>): (done: seq<nat>)
    ensures |done| == |texts| && forall r :: 0 <= r < |texts| ==> done[r] == if r in order then |texts[r]| else 0
  {
    seq(|texts|, r requires 0 <= r < |texts| => if r in order then |texts[r]| else 0)
  }

  /**
    The kernels themselves, run one row after the other in any order, leave the
    buffer that every finished interleaving leaves.
   */
  method FormatRows(scratch: array<char>, rows: seq<PhoneRow>, order: seq<nat>)
    requires scratch.Length == |rows| * MAXIMUM_SIZE && Enumerates(order, |rows|)
    modifies scratch
    ensures scratch[..] == FinalBuffer(old(scratch[..]), KernelTexts(rows), MAXIMUM_SIZE)
    ensures forall schedule, m :: Finishes(rows, old(scratch[..]), schedule, m) ==> m.memory == scratch[..]
  {
    ghost var before, texts := scratch[..], KernelTexts(rows);
    KernelTextsFit(rows);
    assert DoneRows([], texts) == Nothing(|rows|);
    for i := 0 to |order|
      invariant Consistent(scratch[..], DoneRows(order[..i], texts), texts, MAXIMUM_SIZE, before)
    {
      assert order[i] in order && order[i] !in order[..i];
      FormatRow(scratch, rows, order[i], DoneRows(order[..i], texts), before);
      assert order[..i + 1] == order[..i] + [order[i]];
      assert DoneRows(order[..i + 1], texts) == DoneRows(order[..i], texts)[order[i] := |texts[order[i]]|];
    }
    assert order[..|order|] == order;
    assert DoneRows(order, texts) == Lengths(texts);
    assert scratch[..] == FinalBuffer(before, texts, MAXIMUM_SIZE);
    forall schedule, m | Finishes(rows, before, schedule, m) ensures m.memory == scratch[..] {
      KernelsInterleave(rows, before, schedule, m);
    }
  }

  method FormatRow(scratch: array<char>, rows: seq<PhoneRow>, row: nat, ghost done: seq<nat>, ghost before: string)
    requires row < |rows| && scratch.Length == |rows| * MAXIMUM_SIZE
    requires Consistent(scratch[..], done, KernelTexts(rows), MAXIMUM_SIZE, before) && done[row] == 0
    modifies scratch
    ensures Consistent(scratch[..], done[row := |KernelTexts(rows)[row]|], KernelTexts(rows), MAXIMUM_SIZE, before)
  {
    ghost var memory, text := scratch[..], KernelTexts(rows)[row];
    var out, begin := E164Format(scratch, row, rows[row].country, rows[row].area, rows[row].phone,
                                 rows[row].age, MIN_VISIBLE_AGE, MAXIMUM_SIZE);
    assert out == text;
    RowWritten(memory, scratch[..], done, KernelTexts(rows), before, row);
  }

  /** A kernel run from start to end extends its row's text in the buffer. */
  lemma RowWritten(memory: string, memory': string, done: seq<nat>, texts: seq<string>, before: string, row: nat)
    requires Consistent(memory, done, texts, MAXIMUM_SIZE, before) && row < |texts| && done[row] == 0
    requires |memory'| == |memory| && |texts[row]| <= MAXIMUM_SIZE
    requires var begin := row * MAXIMUM_SIZE;
        && begin + |texts[row]| <= |memory| && memory'[begin..begin + |texts[row]|] == texts[row]
        && forall a :: 0 <= a < |memory| && !(begin <= a < begin + |texts[row]|) ==> memory'[a] == memory[a]
    ensures Consistent(memory', done[row := |texts[row]|], texts, MAXIMUM_SIZE, before)
  {
    var begin := row * MAXIMUM_SIZE;
    assert forall k: nat :: k < |texts[row]| ==>
        memory'[begin..begin + |texts[row]|][k] == memory'[Address(row, k, MAXIMUM_SIZE)];
    RowExtended(memory, memory', done, texts, MAXIMUM_SIZE, before, row, |texts[row]|);
  }

  lemma ShownAgrees(country: string, area: string, phone: string, size: nat)
    ensures KernelText(country, area, phone, false, size) == ColumnText(country, area, phone, true)
       <==> |ColumnText(country, area, phone, true)| <= size
  {
    var front, digits := "+" + NoDashes(SkipZeros(country)) + area, NoDashes(phone);
    KernelLength(country, area, phone, false, size);
    if |front + digits| <= size {
      FrontFits(country, area, size);
      PushedEachFills(front, digits, size);
      assert digits[..|digits|] == digits;
    }
  }

  lemma StarsPrefix(n: nat, m: nat)
    requires m <= n
    ensures Stars(n)[..m] == Stars(m)
  {
  }

  /** Hidden digits: one star per byte against one star per character. */
  lemma HiddenAgrees(country: string, area: string, phone: string, size: nat)
    ensures KernelText(country, area, phone, true, size) == ColumnText(country, area, phone, false)
       <==> |ColumnText(country, area, phone, false)| <= size
            && (SingleBytes(NoDashes(phone)) || |ColumnText(country, area, phone, false)| == size)
  {
    var front, digits := "+" + NoDashes(SkipZeros(country)) + area, NoDashes(phone);
    var bytes, chars := |digits|, CountCharacters(digits);
    KernelLength(country, area, phone, true, size);
    CountAll(digits);
    if |front| + chars <= size {
      FrontFits(country, area, size);
      PushedEachFills(front, Stars(bytes), size);
      var pushed := Min(bytes, size - |front|);
      StarsPrefix(bytes, pushed);
      assert |front + Stars(pushed)| == |front| + pushed && |front + Stars(chars)| == |front| + chars;
    }
  }

  /** The column result fits, and hidden digits are single bytes or the slice is full anyway. */
  predicate Agrees(column: string, phone: string, age: int) {
    |column| <= MAXIMUM_SIZE && (age >= MIN_VISIBLE_AGE || SingleBytes(NoDashes(phone)) || |column| == MAXIMUM_SIZE)
  }

  /**
    On rows without nulls the kernel gives what the columns give exactly when the
    column result fits, and hidden phone numbers have single-byte characters (or the
    slice is full anyway).
   */
  lemma KernelIsColumnIff(country: string, area: string, phone: string, age: int)
    ensures KernelText(country, area, phone, age < MIN_VISIBLE_AGE, MAXIMUM_SIZE)
         == ColumnText(country, area, phone, age >= MIN_VISIBLE_AGE)
       <==> Agrees(ColumnText(country, area, phone, age >= MIN_VISIBLE_AGE), phone, age)
  {
    if age < MIN_VISIBLE_AGE {
      HiddenAgrees(country, area, phone, MAXIMUM_SIZE);
    } else {
      ShownAgrees(country, area, phone, MAXIMUM_SIZE);
    }
  }

  const ACCENTED: string := ['8', '3', '9', 0xC3 as char, 0xA9 as char]

  /** Four characters in five bytes, hidden: five stars from the kernel, four from the columns. */
  lemma TwoByteExample()
    ensures KernelText("1", "415", ACCENTED, true, MAXIMUM_SIZE) != ColumnText("1", "415", ACCENTED, false)
  {
    HiddenAgrees("1", "415", ACCENTED, MAXIMUM_SIZE);
    FiveDigits(ACCENTED);
    assert SkipZeros("1") == "1" && NoDashes("1") == ['1'] + NoDashes("1"[1..]);
    assert IsContinuation(ACCENTED[4]);
    assert !SingleBytes(NoDashes(ACCENTED));
    assert CountCharacters(ACCENTED) <= 5;
  }

  lemma FiveDigits(s: string)
    requires |s| == 5 && forall i :: 0 <= i < 5 ==> NotDash(s[i])
    ensures NoDashes(s) == s
  {
    AllDigits(s);
  }

  lemma {:induction false} AllDigits(s: string)
    requires forall i :: 0 <= i < |s| ==> NotDash(s[i])
    ensures NoDashes(s) == s
  {
    if s != [] {
      AllDigits(s[1..]);
    }
  }
}
