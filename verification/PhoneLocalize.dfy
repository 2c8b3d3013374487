/**
  Local phone formats: the kernel with a cursor that is resumed between pushes, and
  the selection among concatenated columns.
 */
module PhoneLocalize {
  import opened Arithmetic
  import opened ScratchBuffers
  import opened ScratchSchedules
  import opened PhoneE164

  const MAX_ENTRY_LENGTH: nat := 24

  predicate IsUkLike(country: string) { country == "44" || country == "353" || country == "64" }

  // --------------------------------------------------------------- the kernel

  function UsText(area: string, phone: string, size: nat): string {
    var front := Pushed(Pushed(Pushed("", "(", size), SkipZeros(area), size), ") ", size);
    var first := PushedEach(front, Digits(phone, 3), size);
    PushedEach(Pushed(first, "-", size), Digits(Rest(phone, 3), 4), size)
  }

  function UkText(area: string, phone: string, size: nat): string {
    var front := Pushed(Pushed("", area, size), " ", size);
    var before := |NoDashes(phone)| - 4;
    var first := PushedEach(front, Digits(phone, before), size);
    PushedEach(Pushed(first, " ", size), Digits(Rest(phone, before), 4), size)
  }

  function LocalText(country: string, area: string, phone: string, size: nat): string {
    if country == "1" then UsText(area, phone, size)
    else if IsUkLike(country) then UkText(area, phone, size)
    else Pushed("", "n/a", size)
  }

  method CountDigits(phone: string) returns (total: nat)
    ensures total == |NoDashes(phone)|
  {
    total := 0;
    for i := 0 to |phone|
      invariant total == |NoDashes(phone[..i])|
    {
      NoDashesSnoc(phone, i);
      if phone[i] != '-' {
        total := total + 1;
      }
    }
    assert phone[..|phone|] == phone;
  }

  method FormatUs(slice: ScratchSlice, area: string, phone: string)
    requires slice.Valid() && slice.it == slice.begin
    modifies slice`it, slice.scratch
    ensures slice.Valid() && slice.Contents() == UsText(area, phone, slice.end - slice.begin)
    ensures forall k :: 0 <= k < slice.scratch.Length && !(slice.begin <= k < slice.it) ==>
        slice.scratch[k] == old(slice.scratch[k])
  {
    assert slice.Contents() == "";
    slice.Push("(");
    var stripped := SkipLeadingZeros(area);
    slice.Push(stripped);
    slice.Push(") ");
    var phoneIter := slice.PushDigitsUpTo(phone, 3);
    slice.Push("-");
    phoneIter := slice.PushDigitsUpTo(phoneIter, 4);
  }

  method FormatUk(slice: ScratchSlice, area: string, phone: string)
    requires slice.Valid() && slice.it == slice.begin
    modifies slice`it, slice.scratch
    ensures slice.Valid() && slice.Contents() == UkText(area, phone, slice.end - slice.begin)
    ensures forall k :: 0 <= k < slice.scratch.Length && !(slice.begin <= k < slice.it) ==>
        slice.scratch[k] == old(slice.scratch[k])
  {
    assert slice.Contents() == "";
    slice.Push(area);
    slice.Push(" ");
    var totalDigits: int := CountDigits(phone);
    var phoneIter := slice.PushDigitsUpTo(phone, totalDigits - 4);
    slice.Push(" ");
    phoneIter := slice.PushDigitsUpTo(phoneIter, 4);
  }

  method FormatPhone(slice: ScratchSlice, country: string, area: string, phone: string)
    requires slice.Valid() && slice.it == slice.begin
    modifies slice`it, slice.scratch
    ensures slice.Valid() && slice.Contents() == LocalText(country, area, phone, slice.end - slice.begin)
    ensures country == "1" ==> slice.Contents() == UsText(area, phone, slice.end - slice.begin)
    ensures country == "44" || country == "353" || country == "64" ==>
        slice.Contents() == UkText(area, phone, slice.end - slice.begin)
    ensures country !in {"1", "44", "353", "64"} ==>
        slice.Contents() == if slice.end - slice.begin < 3 then "" else "n/a"
    ensures forall k :: 0 <= k < slice.scratch.Length && !(slice.begin <= k < slice.it) ==>
        slice.scratch[k] == old(slice.scratch[k])
  {
    if country == "1" {
      FormatUs(slice, area, phone);
    } else if country == "44" || country == "353" || country == "64" {
      FormatUk(slice, area, phone);
    } else {
      assert slice.Contents() == "";
      slice.Push("n/a");
    }
  }

  // -------------------------------------------------------------- the columns

  function DashesToSpaces(s: string): (r: string)
    ensures |r| == |s| && forall i :: 0 <= i < |s| ==> r[i] == if s[i] == '-' then ' ' else s[i]
  {
    seq(|s|, i requires 0 <= i < |s| => if s[i] == '-' then ' ' else s[i])
  }

  function UsColumn(area: string, phone: string): string { "(" + area + ") " + phone }

  function UkColumn(area: string, phone: string): string { area + " " + DashesToSpaces(phone) }

  /** Masks and selections; the US selection comes last. */
  function LocalColumn(country: string, area: string, phone: string): string {
    var ukOrNa := if IsUkLike(country) then UkColumn(area, phone) else "n/a";
    if country == "1" then UsColumn(area, phone) else ukOrNa
  }

  // ------------------------------------------------------------ no dashes left

  predicate DashFree(s: string) { forall i :: 0 <= i < |s| ==> s[i] != '-' }

  lemma {:induction false} NoDashesBound(s: string)
    ensures |NoDashes(s)| <= |s| && DashFree(NoDashes(s))
    ensures |NoDashes(s)| == |s| <==> DashFree(s)
    ensures DashFree(s) ==> NoDashes(s) == s
  {
    if s != [] {
      NoDashesBound(s[1..]);
      assert DashFree(s) <==> NotDash(s[0]) && DashFree(s[1..]) by {
        assert forall i :: 0 < i < |s| ==> s[i] == s[1..][i - 1];
      }
    }
  }

  /** The only dash is at `d`. */
  predicate OneDash(s: string, d: nat) {
    d < |s| && forall i :: 0 <= i < |s| ==> (s[i] == '-' <==> i == d)
  }

  lemma OneDashSplit(s: string, d: nat)
    requires OneDash(s, d)
    ensures NoDashes(s) == s[..d] + s[d + 1..] && DashFree(s[..d]) && DashFree(s[d + 1..])
  {
    assert s == s[..d] + (['-'] + s[d + 1..]);
    NoDashesConcat(s[..d], ['-'] + s[d + 1..]);
    NoDashesBound(s[..d]);
    NoDashesBound(s[d + 1..]);
    assert (['-'] + s[d + 1..])[1..] == s[d + 1..];
    assert [] + NoDashes(s[d + 1..]) == NoDashes(s[d + 1..]);
  }

  lemma {:induction false} OneDashIff(s: string)
    ensures |NoDashes(s)| + 1 == |s| <==> exists d: nat :: OneDash(s, d)
  {
    if s != [] {
      NoDashesBound(s[1..]);
      OneDashIff(s[1..]);
      if s[0] == '-' {
        if DashFree(s[1..]) {
          assert OneDash(s, 0) by {
            assert forall i :: 0 < i < |s| ==> s[i] == s[1..][i - 1];
          }
        }
        if exists d: nat :: OneDash(s, d) {
          var d: nat :| OneDash(s, d);
          assert forall i :: 0 <= i < |s[1..]| ==> s[1..][i] == s[i + 1];
        }
      } else {
        if exists d: nat :: OneDash(s[1..], d) {
          var d: nat :| OneDash(s[1..], d);
          assert OneDash(s, d + 1) by {
            assert forall i :: 0 < i < |s| ==> s[i] == s[1..][i - 1];
          }
        }
        if exists d: nat :: OneDash(s, d) {
          var d: nat :| OneDash(s, d);
          assert d > 0;
          assert OneDash(s[1..], d - 1) by {
            assert forall i :: 0 <= i < |s[1..]| ==> s[1..][i] == s[i + 1];
          }
        }
      }
    }
  }

  // ------------------------------------------------------- when pushes are cut

  /** Single pushes behind a front that fits: the whole text, cut at the end of the slice. */
  lemma PushesAreCut(front: string, a: string, c: char, b: string, size: nat)
    requires |front| <= size
    ensures PushedEach(Pushed(PushedEach(front, a, size), [c], size), b, size)
         == front + (a + [c] + b)[..Min(|a| + 1 + |b|, size - |front|)]
  {
    var text := a + [c] + b;
    PushedEachSnoc(front, a, c, size);
    PushedEachConcat(front, a + [c], b, size);
    PushedEachFills(front, text, size);
  }

  /** With a prefix in common, comparing texts is comparing what follows. */
  lemma SameFront(front: string, a: string, b: string)
    ensures front + a == front + b <==> a == b
  {
    if front + a == front + b {
      assert a == (front + a)[|front|..] == (front + b)[|front|..] == b;
    }
  }

  lemma SkipZerosBound(s: string)
    ensures |SkipZeros(s)| <= |s| && (SkipZeros(s) == [] || SkipZeros(s)[0] != '0')
    ensures s == [] || s[0] != '0' ==> SkipZeros(s) == s
  {
    if s != [] && s[0] == '0' {
      SkipZerosBound(s[1..]);
    }
  }

  // --------------------------------------------------------------- US numbers

  /** The digits the kernel shows: three, a dash, four more. */
  function UsTail(phone: string): string {
    var digits := NoDashes(phone);
    var n := Min(3, |digits|);
    digits[..n] + "-" + digits[n..][..Min(4, |digits| - n)]
  }

  lemma UsDigits(phone: string)
    ensures var digits, n := NoDashes(phone), Min(3, |NoDashes(phone)|);
        Digits(phone, 3) == digits[..n] && Digits(Rest(phone, 3), 4) == digits[n..][..Min(4, |digits| - n)]
  {
    DigitsAndRest(phone, 3);
    DigitsAndRest(Rest(phone, 3), 4);
  }

  lemma UsKernel(area: string, phone: string, size: nat)
    requires |SkipZeros(area)| + 3 <= size
    ensures var front := "(" + SkipZeros(area) + ") ";
        UsText(area, phone, size) == front + UsTail(phone)[..Min(|UsTail(phone)|, size - |front|)]
  {
    var front := "(" + SkipZeros(area) + ") ";
    assert "" + "(" == "(";
    UsDigits(phone);
    PushesAreCut(front, Digits(phone, 3), '-', Digits(Rest(phone, 3), 4), size);
  }

  /** A dash in the fourth place, or last if there are fewer than four bytes; at most eight bytes. */
  predicate UsShape(phone: string) {
    1 <= |phone| <= 8 && OneDash(phone, if |phone| >= 4 then 3 else |phone| - 1)
  }

  lemma UsTailOfShape(phone: string)
    requires UsShape(phone)
    ensures UsTail(phone) == phone
  {
    var d := if |phone| >= 4 then 3 else |phone| - 1;
    OneDashSplit(phone, d);
    var digits := NoDashes(phone);
    assert digits[..d] == phone[..d] && digits[d..] == phone[d + 1..];
    assert digits[d..][..|digits| - d] == digits[d..];
    assert phone == phone[..d] + "-" + phone[d + 1..];
  }

  lemma ShapeOfUsTail(phone: string)
    requires UsTail(phone) == phone
    ensures UsShape(phone)
  {
    var digits := NoDashes(phone);
    var n := Min(3, |digits|);
    NoDashesBound(phone);
    assert phone[n] == '-';
    assert forall i :: 0 <= i < n ==> phone[i] == digits[i];
    assert forall i :: n < i < |phone| ==> phone[i] == digits[n..][i - n - 1];
    assert OneDash(phone, n);
    OneDashSplit(phone, n);
  }

  /** A tail that does not fit agrees only if just its dash is lost. */
  lemma CutUsTail(phone: string, n: nat)
    requires |phone| <= n < |UsTail(phone)|
    ensures UsTail(phone)[..n] == phone <==> DashFree(phone) && |phone| <= 3 && |phone| == n
  {
    var digits := NoDashes(phone);
    NoDashesBound(phone);
    assert |UsTail(phone)| <= |digits| + 1;
    assert |digits| >= 3 ==> UsTail(phone)[3] == '-';
    if DashFree(phone) && |phone| <= 3 && |phone| == n {
      assert UsTail(phone) == phone[..n] + "-" + [];
      assert UsTail(phone)[..n] == phone[..n] == phone;
    }
    if UsTail(phone)[..n] == phone {
      assert digits == phone;
    }
  }

  /** What a US row must look like for kernel and columns to agree. */
  predicate UsAgrees(area: string, phone: string, size: nat) {
    && (area == [] || area[0] != '0')
    && |UsColumn(area, phone)| <= size
    && (UsShape(phone) || (DashFree(phone) && |phone| <= 3 && |UsColumn(area, phone)| == size))
  }

  lemma UsTextLength(area: string, phone: string, size: nat)
    ensures |UsText(area, phone, size)| <= size
  {
    var front := Pushed(Pushed(Pushed("", "(", size), SkipZeros(area), size), ") ", size);
    PushedEachLength(front, Digits(phone, 3), size);
    var second := Pushed(PushedEach(front, Digits(phone, 3), size), "-", size);
    PushedEachLength(second, Digits(Rest(phone, 3), 4), size);
  }

  lemma UsTailsAgree(phone: string, n: nat, size: nat, total: nat)
    requires total <= size && n == size - total + |phone|
    ensures UsTail(phone)[..Min(|UsTail(phone)|, n)] == phone
        <==> UsShape(phone) || (DashFree(phone) && |phone| <= 3 && total == size)
  {
    var tail := UsTail(phone);
    if |tail| <= n {
      assert tail[..|tail|] == tail;
      if UsShape(phone) {
        UsTailOfShape(phone);
      }
      if tail == phone {
        ShapeOfUsTail(phone);
      }
      NoDashesBound(phone);
    } else {
      CutUsTail(phone, n);
      if UsShape(phone) {
        UsTailOfShape(phone);
      }
    }
  }

  /** US rows, all of them: kernel and columns agree exactly under `UsAgrees`. */
  lemma UsAgreesIff(area: string, phone: string, size: nat)
    ensures UsText(area, phone, size) == UsColumn(area, phone) <==> UsAgrees(area, phone, size)
  {
    SkipZerosBound(area);
    UsTextLength(area, phone, size);
    var column := UsColumn(area, phone);
    if |column| <= size {
      UsKernel(area, phone, size);
      var front := "(" + SkipZeros(area) + ") ";
      var n := size - |front|;
      var shown := UsTail(phone)[..Min(|UsTail(phone)|, n)];
      if area != [] && area[0] == '0' {
        assert column[1] == '0';
        assert (front + shown)[1] == front[1];
      } else {
        SameFront(front, shown, phone);
        UsTailsAgree(phone, n, size, |column|);
      }
    }
  }

  // -------------------------------------------- UK, Ireland, New Zealand numbers

  /** How many digits come before the last four. */
  function Before(digits: nat): nat { if digits < 4 then 0 else digits - 4 }

  /** All digits, a blank before the last four. */
  function UkTail(phone: string): string {
    var digits := NoDashes(phone);
    var n := Before(|digits|);
    digits[..n] + " " + digits[n..]
  }

  lemma AllDigitsPushed(s: string, max: int)
    requires 0 < max && |NoDashes(s)| <= max
    ensures Digits(s, max) == NoDashes(s)
  {
    DigitsAndRest(s, max);
    assert NoDashes(s)[..|NoDashes(s)|] == NoDashes(s);
  }

  lemma UkDigits(phone: string)
    ensures Digits(phone, |NoDashes(phone)| - 4) == NoDashes(phone)[..Before(|NoDashes(phone)|)]
    ensures Digits(Rest(phone, |NoDashes(phone)| - 4), 4) == NoDashes(phone)[Before(|NoDashes(phone)|)..]
  {
    DigitsAndRest(phone, |NoDashes(phone)| - 4);
    AllDigitsPushed(Rest(phone, |NoDashes(phone)| - 4), 4);
  }

  lemma UkKernel(area: string, phone: string, size: nat)
    requires |area| + 1 <= size
    ensures var front := area + " ";
        UkText(area, phone, size) == front + UkTail(phone)[..Min(|UkTail(phone)|, size - |front|)]
  {
    var front := area + " ";
    var before: int := |NoDashes(phone)| - 4;
    assert "" + area == area;
    UkDigits(phone);
    PushesAreCut(front, Digits(phone, before), ' ', Digits(Rest(phone, before), 4), size);
  }

  lemma Regroup(a: string, b: string, c: string, d: string)
    ensures a + (b + c + d) == a + b + c + d
  {
  }

  /** With room for it, the kernel keeps every byte that is not a dash, in order, and parts off the last four. */
  lemma UkKeepsAllDigits(area: string, phone: string, size: nat)
    requires |area| + |NoDashes(phone)| + 2 <= size
    ensures var digits := NoDashes(phone);
        UkText(area, phone, size) == area + " " + digits[..Before(|digits|)] + " " + digits[Before(|digits|)..]
  {
    UkKernel(area, phone, size);
    var digits, tail := NoDashes(phone), UkTail(phone);
    assert tail[..|tail|] == tail;
    Regroup(area + " ", digits[..Before(|digits|)], " ", digits[Before(|digits|)..]);
  }

  predicate Blank(s: string) { forall i :: 0 <= i < |s| ==> s[i] == ' ' }

  /** Moving a blank from place `d` to place `k` of the text without it. */
  lemma {:induction false} BlankMoves(digits: string, d: nat, k: nat)
    requires d <= k <= |digits|
    ensures digits[..d] + " " + digits[d..] == digits[..k] + " " + digits[k..] <==> Blank(digits[d..k])
    decreases k - d
  {
    var left, right := digits[..d] + " " + digits[d..], digits[..k] + " " + digits[k..];
    if left == right {
      MovedBlank(digits, d, k, left, right);
    }
    if Blank(digits[d..k]) {
      forall i | 0 <= i < |left| ensures left[i] == right[i] {
        if d < i <= k {
          assert left[i] == digits[d..k][i - 1 - d];
        }
        if d <= i < k {
          assert right[i] == digits[d..k][i - d];
        }
      }
    }
  }

  lemma {:induction false} MovedBlank(digits: string, d: nat, k: nat, left: string, right: string)
    requires d <= k <= |digits|
    requires left == digits[..d] + " " + digits[d..] && right == digits[..k] + " " + digits[k..] && left == right
    ensures Blank(digits[d..k])
  {
    var i := d;
    while i < k
      invariant d <= i <= k && Blank(digits[d..i])
    {
      assert left[i] == if i == d then ' ' else digits[d..i][i - 1 - d];
      assert right[i] == digits[i];
      assert digits[d..i + 1] == digits[d..i] + [digits[i]];
      i := i + 1;
    }
  }

  /** Only blanks between the dash at `d` and the place before the last four. */
  predicate BlankBetween(phone: string, d: nat)
    requires d < |phone|
  {
    var k := Before(|phone| - 1);
    if d <= k then Blank(phone[d + 1..k + 1]) else Blank(phone[k..d])
  }

  /** One dash, just before the last four or with only blanks in between. */
  predicate UkShape(phone: string) { exists d :: 0 <= d < |phone| && OneDash(phone, d) && BlankBetween(phone, d) }

  lemma OneDashSpaced(phone: string, d: nat)
    requires OneDash(phone, d)
    ensures |NoDashes(phone)| + 1 == |phone|
    ensures DashesToSpaces(phone) == NoDashes(phone)[..d] + " " + NoDashes(phone)[d..]
  {
    OneDashSplit(phone, d);
    assert NoDashes(phone)[..d] == phone[..d] && NoDashes(phone)[d..] == phone[d + 1..];
  }

  lemma UkTailWithDash(phone: string, d: nat)
    requires OneDash(phone, d)
    ensures UkTail(phone) == DashesToSpaces(phone) <==> BlankBetween(phone, d)
  {
    OneDashSpaced(phone, d);
    OneDashSplit(phone, d);
    var digits := NoDashes(phone);
    var k := Before(|digits|);
    if d <= k {
      BlankMoves(digits, d, k);
      assert digits[d..k] == phone[d + 1..k + 1];
    } else {
      BlankMoves(digits, k, d);
      assert digits[k..d] == phone[k..d];
    }
  }

  lemma UkTailFits(phone: string)
    ensures UkTail(phone) == DashesToSpaces(phone) <==> UkShape(phone)
  {
    OneDashIff(phone);
    if UkShape(phone) {
      var d :| 0 <= d < |phone| && OneDash(phone, d) && BlankBetween(phone, d);
      UkTailWithDash(phone, d);
    }
    if UkTail(phone) == DashesToSpaces(phone) {
      assert |UkTail(phone)| == |NoDashes(phone)| + 1;
      var d: nat :| OneDash(phone, d);
      UkTailWithDash(phone, d);
    }
  }

  /** A tail that does not fit agrees only without dashes and with blanks to the end. */
  lemma CutUkTail(phone: string, n: nat)
    requires |phone| <= n < |UkTail(phone)|
    ensures |phone| == n && DashFree(phone)
    ensures UkTail(phone)[..n] == DashesToSpaces(phone) <==> Blank(phone[Before(|phone|)..])
  {
    NoDashesBound(phone);
    var k := Before(|phone|);
    assert DashesToSpaces(phone) == phone;
    var moved := phone[..k] + " " + phone[k..];
    assert UkTail(phone) == moved;
    BlankMoves(phone, k, |phone|);
    assert phone[k..|phone|] == phone[k..];
    assert phone[..|phone|] + " " + phone[|phone|..] == phone + " ";
    if Blank(phone[k..]) {
      assert moved == phone + " ";
      assert moved[..n] == phone;
    }
    if moved[..n] == phone {
      CutBlank(phone, k);
    }
  }

  lemma CutBlank(phone: string, k: nat)
    requires k <= |phone| && (phone[..k] + " " + phone[k..])[..|phone|] == phone
    ensures Blank(phone[k..])
  {
    var moved := phone[..k] + " " + phone[k..];
    var i := k;
    while i < |phone|
      invariant k <= i <= |phone| && forall j :: k <= j < i ==> phone[j] == ' '
    {
      assert moved[..|phone|][i] == phone[i];
      assert moved[i] == if i == k then ' ' else phone[i - 1];
      i := i + 1;
    }
  }

  /** What a UK, Irish or New Zealand row must look like for kernel and columns to agree. */
  predicate UkAgrees(area: string, phone: string, size: nat) {
    && |UkColumn(area, phone)| <= size
    && (UkShape(phone) || (DashFree(phone) && |UkColumn(area, phone)| == size && Blank(phone[Before(|phone|)..])))
  }

  lemma UkTailsAgree(phone: string, n: nat, size: nat, total: nat)
    requires total <= size && n == size - total + |phone|
    ensures UkTail(phone)[..Min(|UkTail(phone)|, n)] == DashesToSpaces(phone)
       <==> UkShape(phone) || (DashFree(phone) && total == size && Blank(phone[Before(|phone|)..]))
  {
    var tail := UkTail(phone);
    NoDashesBound(phone);
    UkTailFits(phone);
    OneDashIff(phone);
    assert |tail| == |NoDashes(phone)| + 1;
    if |tail| <= n {
      assert tail[..|tail|] == tail;
    } else {
      CutUkTail(phone, n);
    }
  }

  lemma UkTextLength(area: string, phone: string, size: nat)
    ensures |UkText(area, phone, size)| <= size
  {
    var front := Pushed(Pushed("", area, size), " ", size);
    var before: int := |NoDashes(phone)| - 4;
    PushedEachLength(front, Digits(phone, before), size);
    var second := Pushed(PushedEach(front, Digits(phone, before), size), " ", size);
    PushedEachLength(second, Digits(Rest(phone, before), 4), size);
  }

  /** UK, Irish and New Zealand rows, all of them: kernel and columns agree exactly under `UkAgrees`. */
  lemma UkAgreesIff(area: string, phone: string, size: nat)
    ensures UkText(area, phone, size) == UkColumn(area, phone) <==> UkAgrees(area, phone, size)
  {
    UkTextLength(area, phone, size);
    var column := UkColumn(area, phone);
    if |column| <= size {
      UkKernel(area, phone, size);
      var n := size - |area + " "|;
      SameFront(area + " ", UkTail(phone)[..Min(|UkTail(phone)|, n)], DashesToSpaces(phone));
      UkTailsAgree(phone, n, size, |column|);
    }
  }

  /** What a row must look like for kernel and columns to agree. */
  predicate LocalAgrees(country: string, area: string, phone: string) {
    if country == "1" then UsAgrees(area, phone, MAX_ENTRY_LENGTH)
    else IsUkLike(country) ==> UkAgrees(area, phone, MAX_ENTRY_LENGTH)
  }

  /** On rows without nulls, the kernel in its 24-byte slice against the columns, for every country code. */
  lemma LocalAgreesIff(country: string, area: string, phone: string)
    ensures LocalText(country, area, phone, MAX_ENTRY_LENGTH) == LocalColumn(country, area, phone)
       <==> LocalAgrees(country, area, phone)
  {
    UsAgreesIff(area, phone, MAX_ENTRY_LENGTH);
    UkAgreesIff(area, phone, MAX_ENTRY_LENGTH);
    assert "" + "n/a" == "n/a";
  }

  // ------------------------------------------------------------ rows in parallel

  /** The strings a row's kernel tries to push, in order. */
  function LocalPushes(country: string, area: string, phone: string): seq<string> {
    if country == "1" then
      ["(", SkipZeros(area), ") "] + Singles(Digits(phone, 3)) + ["-"] + Singles(Digits(Rest(phone, 3), 4))
    else if IsUkLike(country) then
      var before := |NoDashes(phone)| - 4;
      [area, " "] + Singles(Digits(phone, before)) + [" "] + Singles(Digits(Rest(phone, before), 4))
    else ["n/a"]
  }

  lemma SplitPushes(front: seq<string>, a: string, c: string, b: string, size: nat)
    ensures PushedAll("", front + Singles(a) + [c] + Singles(b), size)
         == PushedEach(Pushed(PushedEach(PushedAll("", front, size), a, size), c, size), b, size)
  {
    PushedAllConcat("", front + Singles(a) + [c], Singles(b), size);
    PushedAllConcat("", front + Singles(a), [c], size);
    PushedAllConcat("", front, Singles(a), size);
    PushedSingles(PushedAll("", front, size), a, size);
    PushedOne(PushedEach(PushedAll("", front, size), a, size), c, size);
    PushedSingles(PushedAll("", front + Singles(a) + [c], size), b, size);
  }

  lemma PushedTwo(buf: string, a: string, b: string, size: nat)
    ensures PushedAll(buf, [a, b], size) == Pushed(Pushed(buf, a, size), b, size)
  {
    PushedOne(Pushed(buf, a, size), b, size);
    assert [a, b][1..] == [b];
  }

  lemma LocalPushesGiveText(country: string, area: string, phone: string, size: nat)
    ensures PushedAll("", LocalPushes(country, area, phone), size) == LocalText(country, area, phone, size)
  {
    if country == "1" {
      var front := ["(", SkipZeros(area), ") "];
      assert front[1..] == [SkipZeros(area), ") "];
      PushedTwo(Pushed("", "(", size), SkipZeros(area), ") ", size);
      SplitPushes(front, Digits(phone, 3), "-", Digits(Rest(phone, 3), 4), size);
    } else if IsUkLike(country) {
      var before := |NoDashes(phone)| - 4;
      PushedTwo("", area, " ", size);
      SplitPushes([area, " "], Digits(phone, before), " ", Digits(Rest(phone, before), 4), size);
    } else {
      PushedOne("", "n/a", size);
    }
  }

  datatype LocalRow = LocalRow(country: string, area: string, phone: string)

  function AllLocalPushes(rows: seq<LocalRow>): (pushes: seq<seq<string>>)
    ensures |pushes| == |rows|
    ensures forall r :: 0 <= r < |rows| ==> pushes[r] == LocalPushes(rows[r].country, rows[r].area, rows[r].phone)
  {
    seq(|rows|, r requires 0 <= r < |rows| => LocalPushes(rows[r].country, rows[r].area, rows[r].phone))
  }

  lemma LocalTextLength(country: string, area: string, phone: string, size: nat)
    ensures |LocalText(country, area, phone, size)| <= size
  {
    LocalPushesGiveText(country, area, phone, size);
    PushedAllExtends("", LocalPushes(country, area, phone), size);
  }

  /** Every interleaving of the rows' kernels that finishes leaves each row's text in its slice. */
  lemma LocalKernelsInterleave(rows: seq<LocalRow>, memory: string, schedule: seq<nat>, m: Machine, r: nat)
    requires |memory| == |rows| * MAX_ENTRY_LENGTH && r < |rows|
    requires Runs(Start(memory, AllLocalPushes(rows)), MAX_ENTRY_LENGTH, schedule, m) && AllIdle(m)
    ensures m.memory == FinalBuffer(memory, Texts(AllLocalPushes(rows), MAX_ENTRY_LENGTH), MAX_ENTRY_LENGTH)
    ensures var text := LocalText(rows[r].country, rows[r].area, rows[r].phone, MAX_ENTRY_LENGTH);
        && |text| <= MAX_ENTRY_LENGTH && Address(r, |text|, MAX_ENTRY_LENGTH) <= |m.memory|
        && m.memory[Address(r, 0, MAX_ENTRY_LENGTH)..Address(r, |text|, MAX_ENTRY_LENGTH)] == text
  {
    SchedulesAgree(memory, AllLocalPushes(rows), MAX_ENTRY_LENGTH, schedule, m);
    LocalPushesGiveText(rows[r].country, rows[r].area, rows[r].phone, MAX_ENTRY_LENGTH);
    LocalTextLength(rows[r].country, rows[r].area, rows[r].phone, MAX_ENTRY_LENGTH);
    FinalBufferText(memory, Texts(AllLocalPushes(rows), MAX_ENTRY_LENGTH), MAX_ENTRY_LENGTH, r);
  }

  // -------------------------------------------------------- rows that disagree

  /** The kernel drops leading zeros of a US area code, the columns keep them. */
  lemma LeadingZeroExample()
    ensures LocalText("1", "0415", "555-1234", MAX_ENTRY_LENGTH) != LocalColumn("1", "0415", "555-1234")
  {
    UsAgreesIff("0415", "555-1234", MAX_ENTRY_LENGTH);
    assert "0415"[0] == '0';
  }

  lemma NoShapeWithoutDash(phone: string)
    requires DashFree(phone)
    ensures !UkShape(phone)
  {
    forall d | 0 <= d < |phone| ensures !OneDash(phone, d) {
      assert phone[d] != '-';
    }
  }

  /** The kernel parts the last four digits, the columns only turn dashes into blanks. */
  lemma NoDashExample()
    ensures LocalText("44", "20", "5551234", MAX_ENTRY_LENGTH) != LocalColumn("44", "20", "5551234")
  {
    UkAgreesIff("20", "5551234", MAX_ENTRY_LENGTH);
    NoShapeWithoutDash("5551234");
    assert "44" != "1" by { assert |"44"| == 2; }
  }
}
