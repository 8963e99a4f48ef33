/** Turning a display name into a URL slug. */
module Slugs {

  const WIDE_SPACES: set<char> := {'\U{1680}', '\U{2028}', '\U{2029}', '\U{202F}', '\U{205F}', '\U{3000}'}

  predicate IsSpace(c: char) {
    c == ' ' || '\t' <= c <= '\r' || c == '\U{85}' || c == '\U{A0}' || '\U{2000}' <= c <= '\U{200A}' || c in WIDE_SPACES
  }

  predicate IsSlugChar(c: char) {
    'a' <= c <= 'z' || '0' <= c <= '9' || c == '-'
  }

  /** What one character becomes: Turkish letters lose their marks, letters are lowered, spaces and
      separators become hyphens, anything else disappears. */
  function Mapped(c: char): string {
    if c == 'ğ' || c == 'Ğ' then "g"
    else if c == 'ü' || c == 'Ü' then "u"
    else if c == 'ş' || c == 'Ş' then "s"
    else if c == 'ı' || c == 'I' || c == 'İ' || c == 'i' then "i"
    else if c == 'ö' || c == 'Ö' then "o"
    else if c == 'ç' || c == 'Ç' then "c"
    else if 'a' <= c <= 'z' || '0' <= c <= '9' then [c]
    else if 'A' <= c <= 'Z' then [((c as int) + 32) as char]
    else if IsSpace(c) || c == '-' || c == '_' then "-"
    else ""
  }

  function MappedAll(s: string): string {
    if s == "" then "" else MappedAll(s[..|s| - 1]) + Mapped(s[|s| - 1])
  }

  function TrimLeft(s: string, drop: char -> bool): string {
    if s == "" || !drop(s[0]) then s else TrimLeft(s[1..], drop)
  }

  function TrimRight(s: string, drop: char -> bool): string {
    if s == "" || !drop(s[|s| - 1]) then s else TrimRight(s[..|s| - 1], drop)
  }

  function Trim(s: string, drop: char -> bool): string {
    TrimRight(TrimLeft(s, drop), drop)
  }

  predicate IsHyphen(c: char) {
    c == '-'
  }

  predicate HasDouble(s: string) {
    exists i :: 0 <= i < |s| - 1 && s[i] == '-' && s[i + 1] == '-'
  }

  /** One sweep that replaces each pair of hyphens by one, left to right. */
  function ReplacePairs(s: string): string {
    if s == "" then ""
    else if |s| >= 2 && s[0] == '-' && s[1] == '-' then "-" + ReplacePairs(s[2..])
    else [s[0]] + ReplacePairs(s[1..])
  }

  function Push(c: char, t: string): string {
    if c == '-' && t != "" && t[0] == '-' then t else [c] + t
  }

  /** Every run of hyphens becomes a single one, in one pass. */
  function Collapse(s: string): string {
    if s == "" then "" else Push(s[0], Collapse(s[1..]))
  }

  function Slug(s: string): string {
    Trim(Collapse(MappedAll(Trim(s, IsSpace))), IsHyphen)
  }

  // ---------------------------------------------------------------- the repeated sweep

  lemma {:induction false} SweepKeepsCollapse(s: string)
    ensures Collapse(ReplacePairs(s)) == Collapse(s)
  {
    if s == "" {
    } else if |s| >= 2 && s[0] == '-' && s[1] == '-' {
      SweepKeepsCollapse(s[2..]);
      assert s[1..][1..] == s[2..];
      assert ("-" + ReplacePairs(s[2..]))[1..] == ReplacePairs(s[2..]);
    } else {
      SweepKeepsCollapse(s[1..]);
      assert ([s[0]] + ReplacePairs(s[1..]))[1..] == ReplacePairs(s[1..]);
    }
  }

  lemma {:induction false} DoubleTail(s: string)
    requires |s| > 0
    ensures HasDouble(s) <==> HasDouble(s[1..]) || (|s| >= 2 && s[0] == '-' && s[1] == '-')
  {
    if HasDouble(s) {
      var i :| 0 <= i < |s| - 1 && s[i] == '-' && s[i + 1] == '-';
      if i > 0 {
        assert s[1..][i - 1] == '-' && s[1..][i] == '-';
      }
    }
    if HasDouble(s[1..]) {
      var i :| 0 <= i < |s[1..]| - 1 && s[1..][i] == '-' && s[1..][i + 1] == '-';
      assert s[i + 1] == '-' && s[i + 2] == '-';
    }
  }

  lemma {:induction false} SweepShortens(s: string)
    ensures |ReplacePairs(s)| <= |s|
    ensures HasDouble(s) ==> |ReplacePairs(s)| < |s|
  {
    if s != "" {
      DoubleTail(s);
      if |s| >= 2 && s[0] == '-' && s[1] == '-' {
        SweepShortens(s[2..]);
      } else {
        SweepShortens(s[1..]);
      }
    }
  }

  lemma {:induction false} CollapseFixed(s: string)
    requires !HasDouble(s)
    ensures Collapse(s) == s
  {
    if s != "" {
      DoubleTail(s);
      CollapseFixed(s[1..]);
      assert |s| >= 2 ==> s[1..][0] == s[1];
    }
  }

  lemma {:induction false} CollapseSingle(s: string)
    ensures !HasDouble(Collapse(s))
    ensures forall c :: c in Collapse(s) ==> c in s
  {
    if s != "" {
      CollapseSingle(s[1..]);
      var t := Collapse(s[1..]);
      DoubleTail([s[0]] + t);
      assert ([s[0]] + t)[1..] == t;
      assert s == [s[0]] + s[1..];
    }
  }

  /** Sweeping until no pair is left is the one-pass collapse. */
  method CollapseHyphens(s: string) returns (res: string)
    ensures res == Collapse(s)
  {
    res := s;
    while HasDouble(res)
      invariant Collapse(res) == Collapse(s)
      decreases |res|
    {
      SweepKeepsCollapse(res);
      SweepShortens(res);
      res := ReplacePairs(res);
    }
    CollapseFixed(res);
  }

  method Slugify(s: string) returns (slug: string)
    ensures slug == Slug(s)
  {
    var trimmed := Trim(s, IsSpace);
    if trimmed == "" {
      return "";
    }
    var res := "";
    for i := 0 to |trimmed|
      invariant res == MappedAll(trimmed[..i])
    {
      assert trimmed[..i + 1][..i] == trimmed[..i];
      res := res + Mapped(trimmed[i]);
    }
    assert trimmed[..|trimmed|] == trimmed;
    res := CollapseHyphens(res);
    slug := Trim(res, IsHyphen);
  }

  // ---------------------------------------------------------------- well-formed slugs

  /** Lower-case letters, digits and single hyphens, none at either end; possibly empty. */
  predicate WellFormed(s: string) {
    && (forall i :: 0 <= i < |s| ==> IsSlugChar(s[i]))
    && !HasDouble(s)
    && (s != "" ==> s[0] != '-' && s[|s| - 1] != '-')
  }

  lemma {:induction false} MappedSlugChars(s: string)
    ensures forall i :: 0 <= i < |MappedAll(s)| ==> IsSlugChar(MappedAll(s)[i])
  {
    if s != "" {
      MappedSlugChars(s[..|s| - 1]);
    }
  }

  lemma {:induction false} MappedOne(c: char)
    requires IsSlugChar(c)
    ensures Mapped(c) == [c]
  {
  }

  lemma {:induction false} MappedFixed(s: string)
    requires forall i :: 0 <= i < |s| ==> IsSlugChar(s[i])
    ensures MappedAll(s) == s
  {
    if s != "" {
      hide Mapped;
      MappedFixed(s[..|s| - 1]);
      MappedOne(s[|s| - 1]);
      assert s == s[..|s| - 1] + [s[|s| - 1]];
    }
  }

  /** Trimming cuts a window out and leaves nothing to drop at its ends. */
  lemma {:induction false} TrimLeftWindow(s: string, drop: char -> bool) returns (a: nat)
    ensures a <= |s| && TrimLeft(s, drop) == s[a..]
    ensures TrimLeft(s, drop) != "" ==> !drop(TrimLeft(s, drop)[0])
  {
    if s == "" || !drop(s[0]) {
      a := 0;
    } else {
      var b := TrimLeftWindow(s[1..], drop);
      a := b + 1;
    }
  }

  lemma {:induction false} TrimRightWindow(s: string, drop: char -> bool) returns (b: nat)
    ensures b <= |s| && TrimRight(s, drop) == s[..b]
    ensures TrimRight(s, drop) != "" ==> !drop(TrimRight(s, drop)[|TrimRight(s, drop)| - 1])
  {
    if s == "" || !drop(s[|s| - 1]) {
      b := |s|;
    } else {
      b := TrimRightWindow(s[..|s| - 1], drop);
      assert s[..|s| - 1][..b] == s[..b];
    }
  }

  lemma {:induction false} TrimWindow(s: string, drop: char -> bool) returns (a: nat, b: nat)
    ensures a <= b <= |s| && Trim(s, drop) == s[a..b]
    ensures a < b ==> !drop(s[a]) && !drop(s[b - 1])
  {
    a := TrimLeftWindow(s, drop);
    var n := TrimRightWindow(s[a..], drop);
    b := a + n;
    assert s[a..][..n] == s[a..b];
  }

  lemma {:induction false} TrimFixed(s: string, drop: char -> bool)
    requires s != "" ==> !drop(s[0]) && !drop(s[|s| - 1])
    ensures Trim(s, drop) == s
  {
  }

  lemma {:induction false} SlugIsWellFormed(s: string)
    ensures WellFormed(Slug(s))
  {
    var mapped := MappedAll(Trim(s, IsSpace));
    MappedSlugChars(Trim(s, IsSpace));
    var t := Collapse(mapped);
    CollapseSingle(mapped);
    forall i | 0 <= i < |t|
      ensures IsSlugChar(t[i])
    {
      assert t[i] in mapped;
    }
    var a, b := TrimWindow(t, IsHyphen);
    WindowSingle(t, a, b);
  }

  lemma {:induction false} WindowSingle(t: string, a: nat, b: nat)
    requires a <= b <= |t| && !HasDouble(t)
    ensures !HasDouble(t[a..b])
  {
    var w := t[a..b];
    forall i | 0 <= i < |w| - 1
      ensures !(w[i] == '-' && w[i + 1] == '-')
    {
      assert w[i] == t[a + i] && w[i + 1] == t[a + i + 1];
    }
  }

  /** Slugs are exactly the fixed points of the conversion. */
  lemma {:induction false} SlugFixed(s: string)
    ensures WellFormed(s) <==> Slug(s) == s
  {
    SlugIsWellFormed(s);
    if WellFormed(s) {
      assert s != "" ==> IsSlugChar(s[0]) && IsSlugChar(s[|s| - 1]);
      TrimFixed(s, IsSpace);
      MappedFixed(s);
      CollapseFixed(s);
      TrimFixed(s, IsHyphen);
    }
  }

  lemma {:induction false} SlugIdempotent(s: string)
    ensures Slug(Slug(s)) == Slug(s)
  {
    SlugIsWellFormed(s);
    SlugFixed(Slug(s));
  }

  // ---------------------------------------------------------------- case and marks

  predicate SameClass(a: char, b: char, letters: set<char>) {
    a in letters && b in letters
  }

  /** The same letter but for the marks of Turkish letters and case, or both of them '-' or '_'. */
  predicate SameMarked(a: char, b: char) {
    || SameClass(a, b, {'g', 'G', 'ğ', 'Ğ'}) || SameClass(a, b, {'u', 'U', 'ü', 'Ü'})
    || SameClass(a, b, {'s', 'S', 'ş', 'Ş'}) || SameClass(a, b, {'i', 'I', 'ı', 'İ'})
    || SameClass(a, b, {'o', 'O', 'ö', 'Ö'}) || SameClass(a, b, {'c', 'C', 'ç', 'Ç'}) || SameClass(a, b, {'-', '_'})
  }

  predicate SameCased(a: char, b: char) {
    'a' <= a <= 'z' && 'A' <= b <= 'Z' && a as int - 32 == b as int
  }

  predicate SameLetter(a: char, b: char) {
    a == b || SameMarked(a, b) || SameCased(a, b) || SameCased(b, a)
  }

  lemma {:induction false} MarkedLetters(c: char)
    ensures c == 'g' || c == 'G' || c == 'ğ' || c == 'Ğ' ==> Mapped(c) == "g"
    ensures c == 'u' || c == 'U' || c == 'ü' || c == 'Ü' ==> Mapped(c) == "u"
    ensures c == 's' || c == 'S' || c == 'ş' || c == 'Ş' ==> Mapped(c) == "s"
    ensures c == 'i' || c == 'I' || c == 'ı' || c == 'İ' ==> Mapped(c) == "i"
    ensures c == 'o' || c == 'O' || c == 'ö' || c == 'Ö' ==> Mapped(c) == "o"
    ensures c == 'c' || c == 'C' || c == 'ç' || c == 'Ç' ==> Mapped(c) == "c"
    ensures c == '-' || c == '_' ==> Mapped(c) == "-"
  {
    if c == '-' || c == '_' {
      NotSpace(c);
    }
  }

  lemma {:induction false} MarkedMapAlike(a: char, b: char)
    requires SameMarked(a, b)
    ensures Mapped(a) == Mapped(b) && !IsSpace(a) && !IsSpace(b)
  {
    hide Mapped, IsSpace;
    MarkedLetters(a);
    MarkedLetters(b);
    NotSpace(a);
    NotSpace(b);
  }

  lemma {:induction false} NotSpace(c: char)
    requires 'A' <= c <= 'Z' || 'a' <= c <= 'z' || '0' <= c <= '9' || c == '-' || c == '_'
             || '\U{A1}' <= c <= '\U{167F}'
    ensures !IsSpace(c)
  {
  }

  lemma {:induction false} CasedMapAlike(a: char, b: char)
    requires SameCased(a, b)
    ensures Mapped(a) == Mapped(b) && !IsSpace(a) && !IsSpace(b)
  {
    NotSpace(a);
    NotSpace(b);
  }

  lemma {:induction false} SameLetterMapsAlike(a: char, b: char)
    requires SameLetter(a, b)
    ensures Mapped(a) == Mapped(b) && (IsSpace(a) <==> IsSpace(b))
  {
    hide Mapped, IsSpace, SameMarked, SameCased;
    if SameMarked(a, b) {
      MarkedMapAlike(a, b);
    } else if SameCased(a, b) {
      CasedMapAlike(a, b);
    } else if SameCased(b, a) {
      CasedMapAlike(b, a);
    }
  }

  ghost predicate Alike(s: string, t: string) {
    |s| == |t| && forall i :: 0 <= i < |s| ==> SameLetter(s[i], t[i])
  }

  lemma {:induction false} AlikeMapAlike(s: string, t: string)
    requires Alike(s, t)
    ensures MappedAll(s) == MappedAll(t)
  {
    hide SameLetter, Mapped;
    if s != "" {
      var n := |s| - 1;
      assert SameLetter(s[n], t[n]);
      SameLetterMapsAlike(s[n], t[n]);
      AlikeMapAlike(s[..n], t[..n]);
    }
  }

  lemma {:induction false} AlikeTrimLeft(s: string, t: string)
    requires Alike(s, t)
    ensures Alike(TrimLeft(s, IsSpace), TrimLeft(t, IsSpace))
  {
    hide SameLetter, IsSpace;
    if s != "" {
      assert SameLetter(s[0], t[0]);
      SameLetterMapsAlike(s[0], t[0]);
      if IsSpace(s[0]) {
        AlikeTrimLeft(s[1..], t[1..]);
      }
    }
  }

  lemma {:induction false} AlikeTrimRight(s: string, t: string)
    requires Alike(s, t)
    ensures Alike(TrimRight(s, IsSpace), TrimRight(t, IsSpace))
  {
    hide SameLetter, IsSpace;
    if s != "" {
      var n := |s| - 1;
      assert SameLetter(s[n], t[n]);
      SameLetterMapsAlike(s[n], t[n]);
      if IsSpace(s[n]) {
        AlikeTrimRight(s[..n], t[..n]);
      }
    }
  }

  /** Names that differ only in case and in the marks of Turkish letters have the same slug. */
  lemma {:induction false} SlugIgnoresCaseAndMarks(s: string, t: string)
    requires Alike(s, t)
    ensures Slug(s) == Slug(t)
  {
    AlikeTrimLeft(s, t);
    AlikeTrimRight(TrimLeft(s, IsSpace), TrimLeft(t, IsSpace));
    AlikeMapAlike(Trim(s, IsSpace), Trim(t, IsSpace));
  }

  predicate IsWord(s: string) {
    s != "" && forall i :: 0 <= i < |s| ==> 'a' <= s[i] <= 'z' || '0' <= s[i] <= '9'
  }

  lemma {:induction false} WordMaps(c: char)
    requires 'a' <= c <= 'z' || '0' <= c <= '9'
    ensures Mapped(c) == [c] && !IsSpace(c)
  {
    NotSpace(c);
  }

  lemma {:induction false} SeparatorMaps(c: char)
    requires c == ' ' || c == '_' || c == '-'
    ensures Mapped(c) == "-"
  {
  }

  lemma {:induction false} NothingToTrim(s: string, drop: char -> bool)
    requires s != "" && !drop(s[0]) && !drop(s[|s| - 1])
    ensures Trim(s, drop) == s
  {
  }

  /** Words separated by one blank or underscore are joined by a hyphen. */
  lemma {:induction false} WordsAreHyphenated(a: string, c: char, b: string)
    requires IsWord(a) && IsWord(b) && (c == ' ' || c == '_' || c == '-')
    ensures Slug(a + [c] + b) == a + "-" + b
  {
    hide Mapped, IsSpace, Collapse, MappedAll, Trim, WellFormed;
    var s, slug := a + [c] + b, a + "-" + b;
    forall i | 0 <= i < |s|
      ensures Mapped(s[i]) == [slug[i]]
    {
      if i == |a| {
        SeparatorMaps(c);
      } else {
        WordMaps(s[i]);
      }
    }
    MappedAllSame(s, slug);
    WordMaps(s[0]);
    WordMaps(s[|s| - 1]);
    NothingToTrim(s, IsSpace);
    JoinedIsWellFormed(a, b);
    CollapseOfWellFormed(slug);
    NothingToTrim(slug, IsHyphen);
  }

  lemma {:induction false} JoinedIsWellFormed(a: string, b: string)
    requires IsWord(a) && IsWord(b)
    ensures WellFormed(a + "-" + b)
  {
    var s := a + "-" + b;
    forall i | 0 <= i < |s|
      ensures IsSlugChar(s[i]) && (s[i] == '-' <==> i == |a|)
    {
    }
  }

  lemma {:induction false} CollapseOfWellFormed(s: string)
    requires WellFormed(s)
    ensures Collapse(s) == s
  {
    CollapseFixed(s);
  }

  /** Mapping character by character, when each gives one character. */
  lemma {:induction false} MappedAllSame(s: string, t: string)
    requires |s| == |t| && forall i :: 0 <= i < |s| ==> Mapped(s[i]) == [t[i]]
    ensures MappedAll(s) == t
  {
    if s != "" {
      var n := |s| - 1;
      MappedAllSame(s[..n], t[..n]);
      assert t == t[..n] + [t[n]];
    }
  }
}
