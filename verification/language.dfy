/**
 * The language-code normaliser of utils/language.ts.
 *
 * The contents of languages.json are not part of this model: the catalog (an
 * ordered list of code/name pairs) and the four role tables are a parameter,
 * `LanguageData`. Membership (`key in obj` in the source) is own-key membership.
 */
module Language {
  import opened Wrappers

  /** The role a code plays in a request. */
  datatype LangType = Source | Target

  /** Which pair of role tables `ReplaceBoth` consults. */
  datatype CheckType = Exception | Mapping

  /** One replacement table per role: code -> replacement code. */
  datatype RoleTables = RoleTables(source: map<string, string>, target: map<string, string>)
  {
    function For(t: LangType): map<string, string>
    {
      match t
      case Source => source
      case Target => target
    }
  }

  /** The catalog in display order, plus the exception and mapping tables. */
  datatype LanguageData = LanguageData(
    languages: seq<(string, string)>,
    exceptions: RoleTables,
    mappings: RoleTables)
  {
    function Tables(checkType: CheckType): RoleTables
    {
      match checkType
      case Exception => exceptions
      case Mapping => mappings
    }
  }

  /** A source/target pair of codes. */
  datatype Langs = Langs(source: string, target: string)
  {
    function Get(t: LangType): string
    {
      match t
      case Source => source
      case Target => target
    }
  }

  /** No two catalog entries share a code (the catalog is a JSON object). */
  predicate UniqueCodes(entries: seq<(string, string)>)
  {
    forall i, j :: 0 <= i < j < |entries| ==> entries[i].0 != entries[j].0
  }

  /** `xs` is `ys` with some entries dropped and the rest kept in order. */
  ghost predicate IsSubsequence<T>(xs: seq<T>, ys: seq<T>)
    decreases |ys|
  {
    if xs == [] then true
    else if ys == [] then false
    else (xs[0] == ys[0] && IsSubsequence(xs[1..], ys[1..])) || IsSubsequence(xs, ys[1..])
  }

  /** The lookup of one role: the table's value for a key, the code itself otherwise. */
  function Replace(table: map<string, string>, code: string): string
  {
    if code in table then table[code] else code
  }

  /**
   * Rewrites both codes of a pair, each through its own role's table of the
   * chosen kind; a code that is not a key of its table is left as it is.
   */
  function ReplaceBoth(d: LanguageData, checkType: CheckType, langs: Langs): (r: Langs)
    ensures forall t :: langs.Get(t) in d.Tables(checkType).For(t) ==>
      r.Get(t) == d.Tables(checkType).For(t)[langs.Get(t)]
    ensures forall t :: langs.Get(t) !in d.Tables(checkType).For(t) ==> r.Get(t) == langs.Get(t)
  {
    var tables := d.Tables(checkType);
    Langs(Replace(tables.For(Source), langs.source), Replace(tables.For(Target), langs.target))
  }

  /** Each role's result depends only on that role's input code. */
  lemma RolesIndependent(d: LanguageData, checkType: CheckType, a: Langs, b: Langs, t: LangType)
    requires a.Get(t) == b.Get(t)
    ensures ReplaceBoth(d, checkType, a).Get(t) == ReplaceBoth(d, checkType, b).Get(t)
  {
  }

  /** The entries of `entries` whose code is not a key of `excluded`, in order. */
  function WithoutKeys(entries: seq<(string, string)>, excluded: map<string, string>): (r: seq<(string, string)>)
    ensures IsSubsequence(r, entries)
    ensures forall e :: e in r <==> e in entries && e.0 !in excluded
  {
    if entries == [] then []
    else if entries[0].0 in excluded then WithoutKeys(entries[1..], excluded)
    else [entries[0]] + WithoutKeys(entries[1..], excluded)
  }

  /**
   * The selectable languages: with no role the whole catalog in catalog order;
   * for a role, the catalog entries whose code is not an exception key of that role.
   */
  function RetrieveFromType(d: LanguageData, t: Option<LangType>): (r: seq<(string, string)>)
    ensures t.None? ==> r == d.languages
    ensures t.Some? ==> IsSubsequence(r, d.languages)
    ensures t.Some? ==> forall e :: e in r <==> e in d.languages && e.0 !in d.exceptions.For(t.value)
  {
    match t
    case None => d.languages
    case Some(role) => WithoutKeys(d.languages, d.exceptions.For(role))
  }

  /** The name of the first entry with the given code, if any. */
  function Lookup(entries: seq<(string, string)>, code: string): (r: Option<string>)
    ensures r.None? <==> forall e :: e in entries ==> e.0 != code
    ensures r.Some? ==> (code, r.value) in entries
  {
    if entries == [] then None
    else if entries[0].0 == code then Some(entries[0].1)
    else Lookup(entries[1..], code)
  }

  /** The display name of a catalog code, `None` (the source's null) for an unknown code. */
  function GetName(d: LanguageData, code: string): (r: Option<string>)
    ensures r.None? <==> forall e :: e in d.languages ==> e.0 != code
    ensures r.Some? ==> (code, r.value) in d.languages
  {
    Lookup(d.languages, code)
  }

  /** With unique codes, `GetName` returns the one name the catalog gives a code. */
  lemma GetNameOfEntry(d: LanguageData, code: string, name: string)
    requires UniqueCodes(d.languages)
    requires (code, name) in d.languages
    ensures GetName(d, code) == Some(name)
  {
  }

  /** Every entry `RetrieveFromType` offers has its own name as `GetName`. */
  lemma RetrievedHaveNames(d: LanguageData, t: Option<LangType>, e: (string, string))
    requires UniqueCodes(d.languages)
    requires e in RetrieveFromType(d, t)
    ensures GetName(d, e.0) == Some(e.1)
  {
  }

  /** Every element of a subsequence is an element of the whole. */
  lemma {:induction false} SubsequenceMembers<T>(xs: seq<T>, ys: seq<T>)
    requires IsSubsequence(xs, ys)
    ensures forall e :: e in xs ==> e in ys
    decreases |ys|
  {
    if xs != [] {
      if xs[0] == ys[0] && IsSubsequence(xs[1..], ys[1..]) {
        SubsequenceMembers(xs[1..], ys[1..]);
        assert xs == [xs[0]] + xs[1..];
      } else {
        SubsequenceMembers(xs, ys[1..]);
      }
    }
  }

  /** A subsequence of a duplicate-free sequence is fixed by its elements. */
  lemma {:induction false} SubsequenceDeterminedByMembers<T>(xs1: seq<T>, xs2: seq<T>, ys: seq<T>)
    requires forall i, j :: 0 <= i < j < |ys| ==> ys[i] != ys[j]
    requires IsSubsequence(xs1, ys) && IsSubsequence(xs2, ys)
    requires forall e :: e in xs1 <==> e in xs2
    ensures xs1 == xs2
    decreases |ys|
  {
    if ys == [] {
      assert xs1 == [] && xs2 == [];
    } else {
      var y := ys[0];
      assert forall e :: e in ys[1..] ==> e != y by {
        forall e | e in ys[1..] ensures e != y {
          var k :| 0 <= k < |ys[1..]| && ys[1..][k] == e;
          assert ys[k + 1] == e;
        }
      }
      var tail1 := StepPastHead(xs1, ys);
      var tail2 := StepPastHead(xs2, ys);
      forall e ensures e in tail1 <==> e in tail2 {
        assert e in tail1 <==> e in xs1 && e != y;
        assert e in tail2 <==> e in xs2 && e != y;
      }
      SubsequenceDeterminedByMembers(tail1, tail2, ys[1..]);
      if y in xs1 {
        assert xs1 == [y] + tail1 && xs2 == [y] + tail2;
      }
    }
  }

  /**
   * For a subsequence `xs` of a duplicate-free non-empty `ys`: what is left of
   * `xs` once `ys`'s first element is accounted for.
   */
  lemma StepPastHead<T>(xs: seq<T>, ys: seq<T>) returns (tail: seq<T>)
    requires |ys| > 0
    requires forall e :: e in ys[1..] ==> e != ys[0]
    requires IsSubsequence(xs, ys)
    ensures IsSubsequence(tail, ys[1..])
    ensures ys[0] in xs ==> xs == [ys[0]] + tail
    ensures ys[0] !in xs ==> xs == tail
    ensures forall e :: e in tail <==> e in xs && e != ys[0]
  {
    if xs != [] && xs[0] == ys[0] && IsSubsequence(xs[1..], ys[1..]) {
      tail := xs[1..];
      SubsequenceMembers(tail, ys[1..]);
      assert xs == [ys[0]] + tail;
    } else {
      tail := xs;
      SubsequenceMembers(tail, ys[1..]);
    }
  }

  /**
   * The contract of `RetrieveFromType` pins the list down: any order-preserving
   * selection of the catalog with exactly the non-exception entries is that list.
   */
  lemma RetrieveFromTypeIsDetermined(d: LanguageData, t: LangType, xs: seq<(string, string)>)
    requires UniqueCodes(d.languages)
    requires IsSubsequence(xs, d.languages)
    requires forall e :: e in xs <==> e in d.languages && e.0 !in d.exceptions.For(t)
    ensures xs == RetrieveFromType(d, Some(t))
  {
    SubsequenceDeterminedByMembers(xs, RetrieveFromType(d, Some(t)), d.languages);
  }

  /**
   * The exception table of a role is well formed when each replacement is a
   * catalog code that is not itself an exception key of that role.
   */
  ghost predicate ExceptionsWellFormed(d: LanguageData, t: LangType)
  {
    forall k :: k in d.exceptions.For(t) ==>
      d.exceptions.For(t)[k] !in d.exceptions.For(t) && GetName(d, d.exceptions.For(t)[k]).Some?
  }

  /**
   * Under a well-formed exception table, resolving a catalog code through the
   * exceptions of a role lands on a code that role's selectable list offers.
   */
  lemma ExceptionLandsOnSelectable(d: LanguageData, t: LangType, langs: Langs)
    requires ExceptionsWellFormed(d, t)
    requires GetName(d, langs.Get(t)).Some?
    ensures var c := ReplaceBoth(d, Exception, langs).Get(t);
      GetName(d, c).Some? && (c, GetName(d, c).value) in RetrieveFromType(d, Some(t))
  {
  }
}
