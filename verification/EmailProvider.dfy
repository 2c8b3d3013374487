/**
  The provider of an email address: first dot after the first '@' in the kernel,
  last dot of the address in the column version.
 */
module EmailProvider {
  import opened Totals

  const NPOS := -1

  /** Position of the first `c`, or NPOS. */
  function Find(s: string, c: char): (p: int)
    ensures p == NPOS || (0 <= p < |s| && s[p] == c && forall i :: 0 <= i < p ==> s[i] != c)
    ensures p == NPOS ==> forall i :: 0 <= i < |s| ==> s[i] != c
  {
    if s == [] then NPOS
    else if s[0] == c then 0
    else
      var p := Find(s[1..], c);
      if p == NPOS then NPOS else p + 1
  }

  /** Position of the last `c`, or NPOS. */
  function FindLast(s: string, c: char): (p: int)
    ensures p == NPOS || (0 <= p < |s| && s[p] == c && forall i :: p < i < |s| ==> s[i] != c)
    ensures p == NPOS ==> forall i :: 0 <= i < |s| ==> s[i] != c
  {
    if s == [] then NPOS
    else if s[|s| - 1] == c then |s| - 1
    else FindLast(s[..|s| - 1], c)
  }

  /** `email_provider` */
  function Provider(email: string, alt: string): string {
    var at := Find(email, '@');
    if at == NPOS then alt
    else
      var provider := email[at + 1..];
      var dot := Find(provider, '.');
      if dot == NPOS then alt else provider[..dot]
  }

  /** `slice_strings` with start and stop positions; stop -1 is the end of the string. */
  function Slice(s: string, start: nat, stop: int): string
    requires stop >= -1
  {
    var end := if stop == -1 || stop > |s| then |s| else stop;
    if start >= end then "" else s[start..end]
  }

  const INDEX_MAX: nat := 0x7FFF_FFFF

  /** Masks, arithmetic on positions, slices and a final selection. */
  function ProviderColumn(email: string, alt: string): string {
    SelectProvider(email, alt, Find(email, '@'), FindLast(email, '.'))
  }

  function SelectProvider(email: string, alt: string, at: int, dot: int): string
    requires at >= NPOS && dot >= NPOS
  {
    var valid := at < dot && at != NPOS && dot != NPOS;
    var begin := if valid then at + 1 else INDEX_MAX;
    var end := if valid then dot else NPOS;
    var provider := Slice(email, begin, end);
    if valid then provider else alt
  }

  /** Both versions find a provider for the same addresses. */
  predicate HasProvider(email: string) {
    exists i, j :: 0 <= i < j < |email| && email[i] == '@' && email[j] == '.'
  }

  /** The part of the address after its first '@'. */
  function Domain(email: string): string
    requires Find(email, '@') != NPOS
  {
    email[Find(email, '@') + 1..]
  }

  function Dots(s: string): nat { if s == [] then 0 else (if s[0] == '.' then 1 else 0) + Dots(s[1..]) }

  lemma {:induction false} DotsCounted(s: string)
    ensures Dots(s) == |Places(s, c => c == '.')|
  {
    var dot := c => c == '.';
    if s == [] {
      assert Places(s, dot) == {};
    } else {
      DotsCounted(s[1..]);
      PlacesFirst(s, dot);
    }
  }

  /** The last `c` of a string is the last `c` of any suffix that has one. */
  lemma FindLastInSuffix(s: string, c: char, k: nat)
    requires k <= |s| && FindLast(s[k..], c) != NPOS
    ensures FindLast(s, c) == k + FindLast(s[k..], c)
  {
    var p, q := FindLast(s[k..], c), FindLast(s, c);
    assert s[k + p] == s[k..][p] == c;
    assert forall i :: k <= i < |s| ==> s[i] == s[k..][i - k];
  }

  lemma FoundOrNot(s: string, c: char)
    ensures Find(s, c) != NPOS <==> c in s
    ensures FindLast(s, c) != NPOS <==> c in s
  {
  }

  lemma ProviderHasAt(email: string)
    requires HasProvider(email)
    ensures Find(email, '@') != NPOS && '.' in Domain(email)
  {
    var i, j :| 0 <= i < j < |email| && email[i] == '@' && email[j] == '.';
    assert Find(email, '@') <= i;
    assert Domain(email)[j - Find(email, '@') - 1] == '.';
  }

  /** Both versions find a dot after the '@' for the same addresses. */
  lemma FoundInDomain(email: string)
    requires Find(email, '@') != NPOS
    ensures '.' in Domain(email) <==> HasProvider(email)
    ensures FindLast(email, '.') > Find(email, '@') <==> HasProvider(email)
  {
    var at := Find(email, '@');
    if '.' in Domain(email) {
      var j :| 0 <= j < |Domain(email)| && Domain(email)[j] == '.';
      assert email[at] == '@' && email[at + 1 + j] == '.';
    }
    if HasProvider(email) {
      ProviderHasAt(email);
      FoundOrNot(Domain(email), '.');
      FindLastInSuffix(email, '.', at + 1);
    }
    if FindLast(email, '.') > at {
      assert email[at] == '@' && email[FindLast(email, '.')] == '.';
    }
  }

  lemma ValidSlice(email: string, alt: string, at: nat, last: nat, domain: string)
    requires at < |email| && domain == email[at + 1..] && last < |domain|
    ensures SelectProvider(email, alt, at, at + 1 + last) == domain[..last]
  {
    SliceOfSuffix(email, at + 1, last);
  }

  lemma LastDotInDomain(email: string)
    requires Find(email, '@') != NPOS && '.' in Domain(email)
    ensures 0 <= FindLast(Domain(email), '.') < |Domain(email)|
    ensures FindLast(email, '.') == Find(email, '@') + 1 + FindLast(Domain(email), '.')
  {
    FirstBeforeLast(Domain(email), '.');
    FindLastInSuffix(email, '.', Find(email, '@') + 1);
  }

  lemma ColumnUpTo(email: string, alt: string, at: nat, last: nat, domain: string)
    requires at < |email| && domain == email[at + 1..] && last < |domain|
    requires Find(email, '@') == at && FindLast(email, '.') == at + 1 + last
    ensures ProviderColumn(email, alt) == domain[..last]
  {
    ValidSlice(email, alt, at, last, domain);
  }

  lemma ColumnUpToLastDot(email: string, alt: string)
    requires Find(email, '@') != NPOS && '.' in Domain(email)
    ensures FindLast(Domain(email), '.') >= 0
    ensures ProviderColumn(email, alt) == Domain(email)[..FindLast(Domain(email), '.')]
  {
    LastDotInDomain(email);
    ColumnUpTo(email, alt, Find(email, '@'), FindLast(Domain(email), '.'), Domain(email));
  }

  /** Up to the first dot, up to the last dot. */
  lemma ProvidersAsPrefixes(email: string, alt: string)
    requires Find(email, '@') != NPOS && '.' in Domain(email)
    ensures 0 <= Find(Domain(email), '.') <= FindLast(Domain(email), '.') < |Domain(email)|
    ensures Provider(email, alt) == Domain(email)[..Find(Domain(email), '.')]
    ensures ProviderColumn(email, alt) == Domain(email)[..FindLast(Domain(email), '.')]
  {
    FirstBeforeLast(Domain(email), '.');
    ColumnUpToLastDot(email, alt);
  }

  lemma FirstBeforeLast(s: string, c: char)
    requires c in s
    ensures 0 <= Find(s, c) <= FindLast(s, c) < |s|
  {
    FoundOrNot(s, c);
    assert s[Find(s, c)] == c;
  }

  lemma SliceOfSuffix(s: string, k: nat, n: nat)
    requires k + n <= |s|
    ensures s[k..k + n] == s[k..][..n]
  {
  }

  /** First and last dot coincide when there is one dot, and only then. */
  lemma {:induction false} OneDot(s: string)
    ensures Dots(s) >= 1 <==> Find(s, '.') != NPOS
    ensures Dots(s) >= 1 ==> (Find(s, '.') == FindLast(s, '.') <==> Dots(s) == 1)
  {
    if s != [] {
      OneDot(s[1..]);
      var p, q := FindLast(s[1..], '.'), FindLast(s, '.');
      assert forall i :: 0 < i < |s| ==> s[i] == s[1..][i - 1];
      if p != NPOS {
        assert s[p + 1] == '.';
        assert q == p + 1;
      } else if s[0] == '.' {
        assert q == 0;
      }
    }
  }

  /** Where both find a provider, the kernel's is a prefix of the column's. */
  lemma KernelIsPrefix(email: string, alt: string)
    requires HasProvider(email)
    ensures Provider(email, alt) <= ProviderColumn(email, alt)
  {
    ProviderHasAt(email);
    ProvidersAsPrefixes(email, alt);
  }

  /** Without a provider both answer with the alternative. */
  lemma BothUnknown(email: string, alt: string)
    requires !HasProvider(email)
    ensures Provider(email, alt) == alt && ProviderColumn(email, alt) == alt
  {
    if Find(email, '@') != NPOS {
      FoundInDomain(email);
      FoundOrNot(Domain(email), '.');
    }
  }

  /** The two agree exactly when at most one dot follows the first '@'. */
  lemma ProvidersAgreeIff(email: string, alt: string)
    ensures Provider(email, alt) == ProviderColumn(email, alt)
       <==> Find(email, '@') == NPOS || Dots(Domain(email)) <= 1
  {
    if Find(email, '@') != NPOS {
      FoundInDomain(email);
      FoundOrNot(Domain(email), '.');
      OneDot(Domain(email));
    }
    if HasProvider(email) {
      ProviderHasAt(email);
      ProvidersAsPrefixes(email, alt);
      assert |Provider(email, alt)| == Find(Domain(email), '.');
      assert |ProviderColumn(email, alt)| == FindLast(Domain(email), '.');
    } else {
      BothUnknown(email, alt);
    }
  }

  /** A country's second-level domain: the kernel stops at the first dot, the columns at the last. */
  lemma TwoDotsExample(alt: string)
    ensures Provider("me@mail.co.uk", alt) != ProviderColumn("me@mail.co.uk", alt)
  {
    var email := "me@mail.co.uk";
    assert email[2] == '@' && Find(email, '@') == 2;
    assert Domain(email)[4] == '.' && Domain(email)[7] == '.';
    ManyDots(Domain(email), 4, 7);
    ProvidersAgreeIff(email, alt);
  }

  lemma {:induction false} ManyDots(s: string, i: nat, j: nat)
    requires i < j < |s| && s[i] == s[j] == '.'
    ensures Dots(s) >= 2
  {
    if i > 0 {
      ManyDots(s[1..], i - 1, j - 1);
    } else {
      SomeDot(s[1..], j - 1);
    }
  }

  lemma {:induction false} SomeDot(s: string, j: nat)
    requires j < |s| && s[j] == '.'
    ensures Dots(s) >= 1
  {
    if j > 0 {
      SomeDot(s[1..], j - 1);
    }
  }
}
