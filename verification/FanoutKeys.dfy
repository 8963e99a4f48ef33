/** The text of the fan-out's deduplication keys. */
module FanoutKeys {
  import opened Basics
  import opened Fanout
  import Uuid

  const EMAIL_CHUNK := "EMAIL_SEND_ADVERT_NOTIFICATION_CHUNK"

  function TypeName(t: FanoutType): string {
    match t
    case PackageAdvert => "NOTIFICATION_FANOUT_PACKAGE_ADVERT"
    case AdvancedAdvert => "NOTIFICATION_FANOUT_ADVANCED_ADVERT"
    case UrgentAdvert => "NOTIFICATION_FANOUT_URGENT_ADVERT"
  }

  function AfterText(after: Option<Id>): string {
    if after.None? then "start" else Uuid.Text(after.value)
  }

  function PageSuffix(nid: Id, after: Option<Id>): string {
    ":" + Uuid.Text(nid) + ":after:" + AfterText(after)
  }

  function ChunkSuffix(nid: Id, first: Id, last: Id): string {
    ":" + Uuid.Text(nid) + ":chunk:" + Uuid.Text(first) + ":" + Uuid.Text(last)
  }

  function KeyText(k: Key): string {
    match k
    case PageKey(t, nid, after) => TypeName(t) + PageSuffix(nid, after)
    case ChunkKey(nid, first, last) => EMAIL_CHUNK + ChunkSuffix(nid, first, last)
    case OtherKey(tag) => tag
  }

  /** The text before the first colon. */
  function Head(s: string): string {
    if s == "" || s[0] == ':' then "" else [s[0]] + Head(s[1..])
  }

  /** The job names the fan-outs' own keys begin with. */
  predicate FanoutName(name: string) {
    name == EMAIL_CHUNK || exists t: FanoutType :: name == TypeName(t)
  }

  /** A key as the services build it: one of the fan-out has real ids, and any other begins with another
      name before its first colon. */
  predicate Proper(k: Key) {
    match k
    case PageKey(_, nid, after) => Uuid.Fits(nid) && (after.Some? ==> Uuid.Fits(after.value))
    case ChunkKey(nid, first, last) => Uuid.Fits(nid) && Uuid.Fits(first) && Uuid.Fits(last)
    case OtherKey(tag) => !FanoutName(Head(tag))
  }

  lemma {:induction false} HeadOfName(name: string, rest: string)
    requires ':' !in name && rest != "" && rest[0] == ':'
    ensures Head(name + rest) == name
  {
    if name == "" {
      assert name + rest == rest;
    } else {
      assert (name + rest)[0] == name[0] && (name + rest)[1..] == name[1..] + rest;
      HeadOfName(name[1..], rest);
    }
  }

  /** Whatever follows the colon, a key that begins with another job's name is proper. */
  lemma {:induction false} OtherNamesAreProper(name: string, rest: string)
    requires ':' !in name && !FanoutName(name) && rest != "" && rest[0] == ':'
    ensures Proper(OtherKey(name + rest))
  {
    HeadOfName(name, rest);
  }

  lemma {:induction false} NamesHaveNoColon(t: FanoutType)
    ensures ':' !in TypeName(t)
  {
    forall i | 0 <= i < |TypeName(t)|
      ensures TypeName(t)[i] != ':'
    {
      match t
      case PackageAdvert =>
      case AdvancedAdvert =>
      case UrgentAdvert =>
    }
  }

  lemma {:induction false} SuffixesStart(nid: Id, after: Option<Id>, first: Id, last: Id)
    ensures PageSuffix(nid, after) != "" && PageSuffix(nid, after)[0] == ':'
    ensures ChunkSuffix(nid, first, last) != "" && ChunkSuffix(nid, first, last)[0] == ':'
  {
  }

  lemma {:induction false} ChunkNameHasNoColon()
    ensures ':' !in EMAIL_CHUNK
  {
    assert forall i :: 0 <= i < |EMAIL_CHUNK| ==> EMAIL_CHUNK[i] != ':';
  }

  /** A key's text begins with its job's name. */
  lemma {:induction false} HeadOfKey(k: Key)
    requires Proper(k)
    ensures k.PageKey? ==> Head(KeyText(k)) == TypeName(k.jobType)
    ensures k.ChunkKey? ==> Head(KeyText(k)) == EMAIL_CHUNK
    ensures k.OtherKey? <==> !FanoutName(Head(KeyText(k)))
  {
    hide TypeName, PageSuffix, ChunkSuffix;
    match k
    case PageKey(t, nid, after) =>
      NamesHaveNoColon(t);
      SuffixesStart(nid, after, 0, 0);
      HeadOfName(TypeName(t), PageSuffix(nid, after));
    case ChunkKey(nid, first, last) =>
      ChunkNameHasNoColon();
      SuffixesStart(nid, None, first, last);
      HeadOfName(EMAIL_CHUNK, ChunkSuffix(nid, first, last));
    case OtherKey(_) =>
  }

  lemma {:induction false} SplitConcat(a: string, a': string, b: string, b': string)
    requires |a| == |a'| && a + b == a' + b'
    ensures a == a' && b == b'
  {
    assert a == (a + b)[..|a|];
    assert b == (a + b)[|a|..];
    assert a' == (a' + b')[..|a|];
    assert b' == (a' + b')[|a|..];
  }

  lemma {:induction false} SplitType(t: FanoutType, r: string, t': FanoutType, r': string)
    requires TypeName(t) + r == TypeName(t') + r'
    ensures t == t' && r == r'
  {
    assert (TypeName(t) + r)[20] == TypeName(t)[20];
    assert (TypeName(t') + r')[20] == TypeName(t')[20];
    SplitConcat(TypeName(t), TypeName(t'), r, r');
  }

  lemma {:induction false} SplitPage(n: Id, a: Option<Id>, n': Id, a': Option<Id>)
    requires PageSuffix(n, a) == PageSuffix(n', a')
    ensures Uuid.Text(n) == Uuid.Text(n') && AfterText(a) == AfterText(a')
  {
    SplitConcat(":" + Uuid.Text(n) + ":after:", ":" + Uuid.Text(n') + ":after:", AfterText(a), AfterText(a'));
    SplitConcat(":" + Uuid.Text(n), ":" + Uuid.Text(n'), ":after:", ":after:");
    SplitConcat(":", ":", Uuid.Text(n), Uuid.Text(n'));
  }

  lemma {:induction false} PageTextInjective(
    t: FanoutType, n: Id, a: Option<Id>, t': FanoutType, n': Id, a': Option<Id>)
    requires Proper(PageKey(t, n, a)) && Proper(PageKey(t', n', a'))
    requires KeyText(PageKey(t, n, a)) == KeyText(PageKey(t', n', a'))
    ensures PageKey(t, n, a) == PageKey(t', n', a')
  {
    SplitType(t, PageSuffix(n, a), t', PageSuffix(n', a'));
    SplitPage(n, a, n', a');
    Uuid.TextInjective(n, n');
    if a.Some? && a'.Some? {
      Uuid.TextInjective(a.value, a'.value);
    }
  }

  lemma {:induction false} ChunkTextInjective(n: Id, f: Id, l: Id, n': Id, f': Id, l': Id)
    requires Proper(ChunkKey(n, f, l)) && Proper(ChunkKey(n', f', l'))
    requires KeyText(ChunkKey(n, f, l)) == KeyText(ChunkKey(n', f', l'))
    ensures ChunkKey(n, f, l) == ChunkKey(n', f', l')
  {
    SplitConcat(EMAIL_CHUNK, EMAIL_CHUNK, ChunkSuffix(n, f, l), ChunkSuffix(n', f', l'));
    var head, head' := ":" + Uuid.Text(n) + ":chunk:", ":" + Uuid.Text(n') + ":chunk:";
    SplitConcat(head + Uuid.Text(f) + ":", head' + Uuid.Text(f') + ":", Uuid.Text(l), Uuid.Text(l'));
    SplitConcat(head + Uuid.Text(f), head' + Uuid.Text(f'), ":", ":");
    SplitConcat(head, head', Uuid.Text(f), Uuid.Text(f'));
    SplitConcat(":" + Uuid.Text(n), ":" + Uuid.Text(n'), ":chunk:", ":chunk:");
    SplitConcat(":", ":", Uuid.Text(n), Uuid.Text(n'));
    Uuid.TextInjective(n, n');
    Uuid.TextInjective(f, f');
    Uuid.TextInjective(l, l');
  }

  /** Two keys with the same text are the same key: no page or chunk is ever mistaken by the deduplication
      index for another one, or for a job of another kind. */
  lemma {:induction false} KeyTextInjective(k: Key, k': Key)
    requires Proper(k) && Proper(k') && KeyText(k) == KeyText(k')
    ensures k == k'
  {
    HeadOfKey(k);
    HeadOfKey(k');
    match (k, k')
    case (PageKey(t, n, a), PageKey(t', n', a')) => PageTextInjective(t, n, a, t', n', a');
    case (ChunkKey(n, f, l), ChunkKey(n', f', l')) => ChunkTextInjective(n, f, l, n', f', l');
    case (PageKey(t, _, _), ChunkKey(_, _, _)) => NamesDiffer(t);
    case (ChunkKey(_, _, _), PageKey(t, _, _)) => NamesDiffer(t);
    case _ =>
  }

  lemma {:induction false} NamesDiffer(t: FanoutType)
    ensures TypeName(t) != EMAIL_CHUNK
  {
    assert TypeName(t)[0] == 'N' && EMAIL_CHUNK[0] == 'E';
  }

  /** The job names nearest to the fan-outs' own; all others begin with another letter. */
  const PRICE_DROP := "NOTIFICATION_FANOUT_ADVERT_PRICE_DROP"
  const EXPIRY_REMINDER := "EMAIL_SEND_PACKAGE_EXPIRY_REMINDER"

  lemma {:induction false} NearestNamesDiffer(name: string)
    requires name == PRICE_DROP || name == EXPIRY_REMINDER
              || (name != "" && name[0] != 'N' && name[0] != 'E')
    ensures !FanoutName(name)
  {
    NamesSpelled();
    forall t: FanoutType
      ensures name != TypeName(t)
    {
      assert PRICE_DROP[20] == 'A' && PRICE_DROP[23] == 'E' && EXPIRY_REMINDER[0] == 'E';
    }
    assert EXPIRY_REMINDER[11] == 'P' && PRICE_DROP[0] == 'N';
  }

  lemma {:induction false} NamesSpelled()
    ensures forall t: FanoutType :: |TypeName(t)| > 23 && TypeName(t)[0] == 'N'
                                    && (TypeName(t)[20] != 'A' || TypeName(t)[23] == 'A')
    ensures |EMAIL_CHUNK| > 11 && EMAIL_CHUNK[0] == 'E' && EMAIL_CHUNK[11] == 'A'
  {
  }

  /** The last two ids in the text of a chunk job's key are its first and its last user. */
  lemma {:induction false} ChunkJobText(nid: Id, users: seq<Id>)
    requires users != []
    ensures KeyText(KeyOf(ChunkJob(nid, users))) == EMAIL_CHUNK + ChunkSuffix(nid, users[0], users[|users| - 1])
  {
    hide Uuid.Text, ChunkSuffix;
  }

  lemma {:induction false} PageJobText(t: FanoutType, nid: Id, after: Option<Id>)
    ensures KeyText(KeyOf(PageJob(t, nid, after))) == TypeName(t) + PageSuffix(nid, after)
  {
    hide Uuid.Text, PageSuffix, TypeName;
  }
}
