/** Finding a free name: a candidate, then the candidate with a decimal suffix, cut to fit. */
module Names {
  import opened Basics
  import opened Slugs

  const TRIES := 1000
  const SLUG_LIMIT := 128
  const CODE_LIMIT := 64
  const DIGITS := "0123456789"

  function Decimal(n: nat): (s: string)
    ensures |s| >= 1
    ensures forall i :: 0 <= i < |s| ==> '0' <= s[i] <= '9'
  {
    if n < 10 then [DIGITS[n]] else Decimal(n / 10) + [DIGITS[n % 10]]
  }

  lemma {:induction false} DecimalSplit(n: nat)
    ensures var s := Decimal(n);
            s[|s| - 1] == DIGITS[n % 10] && (n < 10 <==> |s| == 1) && (n >= 10 ==> s[..|s| - 1] == Decimal(n / 10))
  {
  }

  lemma {:induction false} DigitInjective(i: nat, j: nat)
    requires i < 10 && j < 10 && DIGITS[i] == DIGITS[j]
    ensures i == j
  {
  }

  lemma {:induction false} DecimalInjective(m: nat, n: nat)
    requires Decimal(m) == Decimal(n)
    ensures m == n
  {
    DecimalSplit(m);
    DecimalSplit(n);
    DigitInjective(m % 10, n % 10);
    if m >= 10 {
      DecimalInjective(m / 10, n / 10);
    }
  }

  lemma {:induction false} DecimalShort(n: nat)
    requires n <= 1000
    ensures |Decimal(n)| <= 4
  {
    assert n >= 10 ==> |Decimal(n)| == |Decimal(n / 10)| + 1;
    assert n >= 100 ==> |Decimal(n / 10)| == |Decimal(n / 10 / 10)| + 1;
    assert n >= 1000 ==> |Decimal(n / 10 / 10)| == |Decimal(n / 10 / 10 / 10)| + 1;
  }

  /** The number a numeral spells. */
  function Spelled(s: string): nat {
    if s == "" then 0
    else 10 * Spelled(s[..|s| - 1]) + (if '0' <= s[|s| - 1] <= '9' then s[|s| - 1] as int - '0' as int else 0)
  }

  lemma {:induction false} DecimalSpells(n: nat)
    ensures Spelled(Decimal(n)) == n
    ensures n > 0 ==> Decimal(n)[0] != '0'
  {
    if n < 10 {
      assert Decimal(n)[..0] == "";
    } else {
      DecimalSpells(n / 10);
      DecimalSplit(n);
    }
  }

  /** The stem a suffix of this length leaves room for. */
  function Stem(candidate: string, sep: char, limit: nat, suffix: nat): string {
    if |candidate| + suffix <= limit then candidate
    else if suffix <= limit then TrimRight(candidate[..limit - suffix], c => c == sep)
    else ""
  }

  /** The i-th name to try. */
  function Try(candidate: string, sep: char, limit: nat, i: nat): string {
    if i == 0 then candidate
    else
      var suffix := [sep] + Decimal(i + 1);
      Stem(candidate, sep, limit, |suffix|) + suffix
  }

  predicate IsSeparator(sep: char) {
    sep == '-' || sep == '_'
  }

  lemma {:induction false} NoSeparatorAfter(a: string, d: string, sep: char)
    requires forall i :: 0 <= i < |d| ==> d[i] != sep
    ensures (a + [sep] + d)[|a|] == sep
    ensures forall k :: |a| < k < |a + [sep] + d| ==> (a + [sep] + d)[k] != sep
  {
    forall k | |a| < k < |a + [sep] + d|
      ensures (a + [sep] + d)[k] != sep
    {
      assert (a + [sep] + d)[k] == d[k - |a| - 1];
    }
  }

  /** The part after the last separator tells which try a name is. */
  lemma {:induction false} SuffixDecides(a: string, d: string, b: string, e: string, sep: char)
    requires a + [sep] + d == b + [sep] + e
    requires forall i :: 0 <= i < |d| ==> d[i] != sep
    requires forall i :: 0 <= i < |e| ==> e[i] != sep
    ensures d == e
  {
    NoSeparatorAfter(a, d, sep);
    NoSeparatorAfter(b, e, sep);
    assert |a| == |b|;
    assert d == (a + [sep] + d)[|a| + 1..] && e == (b + [sep] + e)[|b| + 1..];
  }

  /** Suffixed tries never coincide, however much was cut off and trimmed. */
  lemma {:induction false} TriesDistinct(candidate: string, sep: char, limit: nat, i: nat, j: nat)
    requires IsSeparator(sep) && i >= 1 && j >= 1 && Try(candidate, sep, limit, i) == Try(candidate, sep, limit, j)
    ensures i == j
  {
    hide Decimal, Stem;
    var di, dj := Decimal(i + 1), Decimal(j + 1);
    var a, b := Stem(candidate, sep, limit, 1 + |di|), Stem(candidate, sep, limit, 1 + |dj|);
    assert a + ([sep] + di) == a + [sep] + di;
    assert b + ([sep] + dj) == b + [sep] + dj;
    SuffixDecides(a, di, b, dj, sep);
    DecimalInjective(i + 1, j + 1);
  }

  function TrySet(candidate: string, sep: char, limit: nat, n: nat): set<string> {
    set i | 1 <= i < n :: Try(candidate, sep, limit, i)
  }

  lemma {:induction false} TrySetGrows(candidate: string, sep: char, limit: nat, n: nat)
    requires IsSeparator(sep) && n >= 1
    ensures TrySet(candidate, sep, limit, n + 1) == TrySet(candidate, sep, limit, n) + {Try(candidate, sep, limit, n)}
    ensures Try(candidate, sep, limit, n) !in TrySet(candidate, sep, limit, n)
  {
    forall i | 1 <= i < n
      ensures Try(candidate, sep, limit, i) != Try(candidate, sep, limit, n)
    {
      if Try(candidate, sep, limit, i) == Try(candidate, sep, limit, n) {
        TriesDistinct(candidate, sep, limit, i, n);
      }
    }
  }

  lemma {:induction false} TrySetSize(candidate: string, sep: char, limit: nat, n: nat)
    requires IsSeparator(sep) && n >= 1
    ensures |TrySet(candidate, sep, limit, n)| == n - 1
  {
    if n == 1 {
      assert TrySet(candidate, sep, limit, 1) == {};
    } else {
      TrySetSize(candidate, sep, limit, n - 1);
      TrySetGrows(candidate, sep, limit, n - 1);
    }
  }

  lemma {:induction false} SubsetSize(a: set<string>, b: set<string>)
    requires a <= b
    ensures |a| <= |b|
  {
    assert b == a + (b - a);
  }

  /** Every try before the i-th is taken and the i-th is not. */
  ghost predicate IsFirstFree(candidate: string, sep: char, limit: nat, used: set<string>, i: int) {
    0 <= i < TRIES && Try(candidate, sep, limit, i) !in used
    && forall j :: 0 <= j < i ==> Try(candidate, sep, limit, j) in used
  }

  /** A later try is a beginning of the candidate, the separator, and the number of the try: the whole
      candidate when that fits, and otherwise as much as fits, without separators at its end. */
  lemma {:induction false} TryReads(candidate: string, sep: char, limit: nat, i: nat) returns (n: nat, numeral: string)
    requires IsSeparator(sep) && 1 <= i < TRIES && limit >= 5
    ensures n <= |candidate| && Try(candidate, sep, limit, i) == candidate[..n] + [sep] + numeral
    ensures Spelled(numeral) == i + 1 && numeral != "" && numeral[0] != '0'
    ensures |candidate| + 1 + |numeral| <= limit ==> n == |candidate|
    ensures |candidate| + 1 + |numeral| > limit ==>
              n + 1 + |numeral| <= limit && forall k :: n <= k < limit - 1 - |numeral| ==> candidate[k] == sep
  {
    DecimalShort(i + 1);
    DecimalSpells(i + 1);
    numeral := Decimal(i + 1);
    n := StemReads(candidate, sep, limit, 1 + |numeral|);
    hide *;
    TryIs(candidate, sep, limit, i, numeral);
    Reassociate(candidate[..n], [sep], numeral);
  }

  /** A beginning of the candidate, the separator and a number from 2 to 1000, within the limit; and the
      whole candidate if that fits. */
  ghost predicate Numbered(name: string, candidate: string, sep: char, limit: nat) {
    |name| <= limit && exists n: nat, numeral :: n <= |candidate| && ReadsAs(name, candidate, n, sep, numeral, limit)
  }

  ghost predicate ReadsAs(name: string, candidate: string, n: nat, sep: char, numeral: string, limit: nat)
    requires n <= |candidate|
  {
    && name == candidate[..n] + [sep] + numeral && 2 <= Spelled(numeral) <= 1000
    && (|candidate| + 1 + |numeral| <= limit ==> n == |candidate|)
  }

  lemma {:induction false} TryIsNumbered(candidate: string, sep: char, limit: nat, i: nat)
    requires IsSeparator(sep) && i < TRIES && limit >= 5
    ensures i == 0 ==> Try(candidate, sep, limit, i) == candidate
    ensures i > 0 ==> Numbered(Try(candidate, sep, limit, i), candidate, sep, limit)
  {
    if i > 0 {
      SuffixedNamesFit(candidate, sep, limit, i);
      var n, numeral := TryReads(candidate, sep, limit, i);
      assert ReadsAs(Try(candidate, sep, limit, i), candidate, n, sep, numeral, limit);
    }
  }

  lemma {:induction false} TryIs(candidate: string, sep: char, limit: nat, i: nat, numeral: string)
    requires i >= 1 && numeral == Decimal(i + 1)
    ensures Try(candidate, sep, limit, i) == Stem(candidate, sep, limit, 1 + |numeral|) + ([sep] + numeral)
  {
  }

  lemma {:induction false} Reassociate(a: string, b: string, c: string)
    ensures a + (b + c) == a + b + c
  {
  }

  lemma {:induction false} StemReads(candidate: string, sep: char, limit: nat, suffix: nat) returns (n: nat)
    requires suffix <= limit
    ensures n <= |candidate| && Stem(candidate, sep, limit, suffix) == candidate[..n]
    ensures |candidate| + suffix <= limit ==> n == |candidate|
    ensures |candidate| + suffix > limit ==>
              n + suffix <= limit && forall k :: n <= k < limit - suffix ==> candidate[k] == sep
  {
    n := |candidate|;
    if |candidate| + suffix > limit {
      var head := candidate[..limit - suffix];
      n := TrimRightStops(head, sep);
      assert head[..n] == candidate[..n];
    } else {
      assert candidate[..n] == candidate;
    }
  }

  lemma {:induction false} TrimRightStops(s: string, sep: char) returns (n: nat)
    ensures n <= |s| && TrimRight(s, c => c == sep) == s[..n] && forall k :: n <= k < |s| ==> s[k] == sep
  {
    n := |s|;
    if s != "" && s[|s| - 1] == sep {
      n := TrimRightStops(s[..|s| - 1], sep);
    }
  }

  /** The first free name among the thousand tries. */
  method Allocate(candidate: string, sep: char, limit: nat, used: set<string>) returns (r: Result<string>)
    requires IsSeparator(sep)
    ensures r.Ok? ==> r.value !in used
    ensures r.Ok? ==> exists i ::
              IsFirstFree(candidate, sep, limit, used, i) && r.value == Try(candidate, sep, limit, i)
    ensures r.Err? <==> forall j :: 0 <= j < TRIES ==> Try(candidate, sep, limit, j) in used
    ensures r.Err? ==> r == Err(Conflict)
    ensures |used| < TRIES - 1 ==> r.Ok?
  {
    for i := 0 to TRIES
      invariant forall j :: 0 <= j < i ==> Try(candidate, sep, limit, j) in used
    {
      var name := candidate;
      if i > 0 {
        var suffix := [sep] + Decimal(i + 1);
        var stem := candidate;
        if |stem| + |suffix| > limit {
          stem := if |suffix| <= limit then TrimRight(stem[..limit - |suffix|], c => c == sep) else "";
        }
        name := stem + suffix;
      }
      assert name == Try(candidate, sep, limit, i);
      if name !in used {
        assert IsFirstFree(candidate, sep, limit, used, i);
        return Ok(name);
      }
    }
    TrySetSize(candidate, sep, limit, TRIES);
    SubsetSize(TrySet(candidate, sep, limit, TRIES), used);
    return Err(Conflict);
  }

  /** A suffixed name fits the limit; the bare candidate is returned as it is, even when too long. */
  lemma {:induction false} SuffixedNamesFit(candidate: string, sep: char, limit: nat, i: nat)
    requires 1 <= i < TRIES && limit >= 5
    ensures |Try(candidate, sep, limit, i)| <= limit
  {
    DecimalShort(i + 1);
    var suffix := [sep] + Decimal(i + 1);
    if |candidate| + |suffix| > limit {
      var n := TrimRightWindow(candidate[..limit - |suffix|], c => c == sep);
    }
  }

  lemma {:induction false} NameFitsUnlessBare(candidate: string, sep: char, limit: nat, i: nat)
    requires i < TRIES && limit >= 5
    ensures |Try(candidate, sep, limit, i)| <= limit <==> i > 0 || |candidate| <= limit
  {
    if i > 0 {
      SuffixedNamesFit(candidate, sep, limit, i);
    }
  }

  /** A slug one character too long that nobody uses comes back as it is. */
  method LongNameIsReturned() returns (candidate: string, r: Result<string>)
    ensures WellFormed(candidate) && |candidate| == SLUG_LIMIT + 1 && r == Ok(candidate)
  {
    candidate := seq(SLUG_LIMIT + 1, i => 'a');
    r := Allocate(candidate, '-', SLUG_LIMIT, {});
    assert candidate == Try(candidate, '-', SLUG_LIMIT, 0);
  }

  // ---------------------------------------------------------------- slugs

  /** Cutting and suffixing a slug gives a slug. */
  lemma {:induction false} TriesAreSlugs(candidate: string, i: nat)
    requires WellFormed(candidate) && candidate != "" && i < TRIES
    ensures WellFormed(Try(candidate, '-', SLUG_LIMIT, i))
  {
    if i > 0 {
      hide Decimal, Stem, WellFormed;
      DecimalShort(i + 1);
      var d := Decimal(i + 1);
      var stem := Stem(candidate, '-', SLUG_LIMIT, 1 + |d|);
      StemIsSlug(candidate, 1 + |d|);
      JoinSlugs(stem, d);
      assert stem + ['-'] + d == stem + (['-'] + d);
    }
  }

  lemma {:induction false} StemIsSlug(candidate: string, suffix: nat)
    requires WellFormed(candidate) && candidate != "" && suffix < SLUG_LIMIT
    ensures WellFormed(Stem(candidate, '-', SLUG_LIMIT, suffix)) && Stem(candidate, '-', SLUG_LIMIT, suffix) != ""
  {
    if |candidate| + suffix > SLUG_LIMIT {
      var head := candidate[..SLUG_LIMIT - suffix];
      var n := TrimRightWindow(head, c => c == '-');
      assert head[..n] == candidate[0..n];
      WindowSingle(candidate, 0, n);
      TrimRightKeepsFirst(head, c => c == '-');
    }
  }

  lemma {:induction false} TrimRightKeepsFirst(s: string, drop: char -> bool)
    requires s != "" && !drop(s[0])
    ensures TrimRight(s, drop) != "" && TrimRight(s, drop)[0] == s[0]
  {
    if drop(s[|s| - 1]) {
      TrimRightKeepsFirst(s[..|s| - 1], drop);
    }
  }

  lemma {:induction false} JoinSlugs(a: string, d: string)
    requires WellFormed(a) && a != "" && d != "" && forall i :: 0 <= i < |d| ==> '0' <= d[i] <= '9'
    ensures WellFormed(a + ['-'] + d)
  {
    var s := a + ['-'] + d;
    forall i | 0 <= i < |s| - 1
      ensures !(s[i] == '-' && s[i + 1] == '-')
    {
      assert s[i] == if i < |a| then a[i] else if i == |a| then '-' else d[i - |a| - 1];
      assert s[i + 1] == if i + 1 < |a| then a[i + 1] else if i + 1 == |a| then '-' else d[i - |a|];
    }
  }

  method UsedNames(existing: seq<string>, normal: string -> string) returns (used: set<string>)
    ensures used == Normalized(existing, normal) && |used| <= |existing|
  {
    used := {};
    for i := 0 to |existing|
      invariant used == Normalized(existing[..i], normal)
      invariant |used| <= i
    {
      used := used + {normal(existing[i])};
      NormalizedGrows(existing[..i], existing[i], normal);
      assert existing[..i + 1] == existing[..i] + [existing[i]];
    }
    assert existing[..|existing|] == existing;
  }

  function Normalized(existing: seq<string>, normal: string -> string): set<string> {
    set k | 0 <= k < |existing| :: normal(existing[k])
  }

  lemma {:induction false} NormalizedGrows(existing: seq<string>, more: string, normal: string -> string)
    ensures Normalized(existing + [more], normal) == Normalized(existing, normal) + {normal(more)}
  {
    assert forall k :: 0 <= k < |existing| ==> (existing + [more])[k] == existing[k];
    assert (existing + [more])[|existing|] == more;
  }

  function SlugBase(base: string, name: string): string {
    if Slug(base) != "" then Slug(base) else if Slug(name) != "" then Slug(name) else "kategori"
  }

  function CodeBase(base: string): string {
    if Trim(base, IsSpace) != "" then Trim(base, IsSpace) else "PROPERTY"
  }

  function Same(s: string): string {
    s
  }

  lemma {:induction false} DefaultSlug()
    ensures WellFormed("kategori")
  {
  }

  method SlugCandidate(base: string, name: string) returns (candidate: string)
    ensures WellFormed(candidate) && candidate != ""
    ensures candidate == SlugBase(base, name)
  {
    hide Slug, WellFormed;
    DefaultSlug();
    candidate := Slugify(base);
    if candidate == "" {
      candidate := Slugify(name);
    }
    if candidate == "" {
      candidate := "kategori";
    }
    SlugIsWellFormed(base);
    SlugIsWellFormed(name);
  }

  /** The slug for a new category. `normal` is the lower-casing the used slugs go through, which leaves
      well-formed slugs alone. The result is a slug no existing category has. */
  method GenerateCategorySlug(existing: seq<string>, normal: string -> string, base: string, name: string)
    returns (r: Result<string>)
    requires forall s :: WellFormed(s) ==> normal(s) == s
    ensures r.Ok? ==> WellFormed(r.value) && r.value != "" && Slug(r.value) == r.value
    ensures r.Ok? ==> r.value !in existing && forall i :: 0 <= i < |existing| ==> normal(existing[i]) != r.value
    ensures r.Ok? ==> exists i ::
              IsFirstFree(SlugBase(base, name), '-', SLUG_LIMIT, Normalized(existing, normal), i)
              && r.value == Try(SlugBase(base, name), '-', SLUG_LIMIT, i)
    ensures r.Ok? ==> r.value == SlugBase(base, name) || Numbered(r.value, SlugBase(base, name), '-', 128)
    ensures |existing| < 999 ==> r.Ok?
  {
    var used := UsedNames(existing, normal);
    var candidate := SlugCandidate(base, name);
    r := Allocate(candidate, '-', SLUG_LIMIT, used);
    if r.Ok? {
      ghost var i :| IsFirstFree(candidate, '-', SLUG_LIMIT, used, i) && r.value == Try(candidate, '-', SLUG_LIMIT, i);
      TriesAreSlugs(candidate, i);
      TryIsNumbered(candidate, '-', SLUG_LIMIT, i);
      SlugFixed(r.value);
      assert forall k :: 0 <= k < |existing| ==> normal(existing[k]) in used;
    }
  }

  /** The code for a new property; codes are byte strings. */
  method AllocatePropertyCode(existing: seq<string>, base: string) returns (r: Result<string>)
    ensures r.Ok? ==> r.value !in existing
    ensures r.Ok? ==> exists i ::
              IsFirstFree(CodeBase(base), '_', CODE_LIMIT, Normalized(existing, Same), i)
              && r.value == Try(CodeBase(base), '_', CODE_LIMIT, i)
    ensures r.Ok? ==> r.value == CodeBase(base) || Numbered(r.value, CodeBase(base), '_', 64)
    ensures |existing| < 999 ==> r.Ok?
  {
    var used := UsedNames(existing, Same);
    assert forall k :: 0 <= k < |existing| ==> Same(existing[k]) in used;
    var candidate := Trim(base, IsSpace);
    if candidate == "" {
      candidate := "PROPERTY";
    }
    assert candidate == CodeBase(base);
    r := Allocate(candidate, '_', CODE_LIMIT, used);
    if r.Ok? {
      ghost var i :| IsFirstFree(candidate, '_', CODE_LIMIT, used, i) && r.value == Try(candidate, '_', CODE_LIMIT, i);
      TryIsNumbered(candidate, '_', CODE_LIMIT, i);
    }
  }
}
