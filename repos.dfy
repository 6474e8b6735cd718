/** Sums over sequences, the shape of JavaScript's `reduce((sum, x) => sum + f(x), 0)`. */
module Sums {

  /** Left fold of `f` over `s`, starting from 0 (the order `reduce` visits the elements). */
  function SumOf<T>(s: seq<T>, f: T -> nat): nat
  {
    if |s| == 0 then 0 else SumOf(s[..|s| - 1], f) + f(s[|s| - 1])
  }

  /** Summing a concatenation is summing the two parts. */
  lemma {:induction false} SumOfConcat<T>(a: seq<T>, b: seq<T>, f: T -> nat)
    ensures SumOf(a + b, f) == SumOf(a, f) + SumOf(b, f)
  {
    if |b| == 0 {
      assert a + b == a;
    } else {
      assert (a + b)[..|a + b| - 1] == a + b[..|b| - 1];
      SumOfConcat(a, b[..|b| - 1], f);
    }
  }

  /** Sums agree when the summands agree position by position. */
  lemma {:induction false} SumOfPointwise<T>(s: seq<T>, t: seq<T>, f: T -> nat)
    requires |s| == |t|
    requires forall i :: 0 <= i < |s| ==> f(s[i]) == f(t[i])
    ensures SumOf(s, f) == SumOf(t, f)
  {
    if |s| > 0 {
      SumOfPointwise(s[..|s| - 1], t[..|t| - 1], f);
    }
  }

  /** Raising one summand by one raises the sum by one. */
  lemma {:induction false} SumOfBump<T>(s: seq<T>, t: seq<T>, f: T -> nat, k: int)
    requires |s| == |t| && 0 <= k < |s|
    requires forall i :: 0 <= i < |s| && i != k ==> f(s[i]) == f(t[i])
    requires f(t[k]) == f(s[k]) + 1
    ensures SumOf(t, f) == SumOf(s, f) + 1
  {
    var n := |s|;
    if k == n - 1 {
      SumOfPointwise(s[..n - 1], t[..n - 1], f);
    } else {
      SumOfBump(s[..n - 1], t[..n - 1], f, k);
    }
  }

  /** Taking the last element off `s` and the element at `i` off `t`, an equal one,
      leaves lists with the same elements. */
  lemma RemoveOne<T>(s: seq<T>, t: seq<T>, i: int)
    requires multiset(s) == multiset(t) && |s| > 0 && 0 <= i < |t| && t[i] == s[|s| - 1]
    ensures multiset(s[..|s| - 1]) == multiset(t[..i] + t[i + 1..])
  {
    var x := s[|s| - 1];
    var s', a, b := s[..|s| - 1], t[..i], t[i + 1..];
    assert multiset(s) == multiset(s') + multiset{x} by {
      assert s == s' + [x];
    }
    assert multiset(t) == multiset(a + b) + multiset{x} by {
      assert t == a + [x] + b;
      assert multiset(a + [x] + b) == multiset(a) + multiset{x} + multiset(b);
      assert multiset(a + b) == multiset(a) + multiset(b);
    }
    assert multiset(s') == multiset(s) - multiset{x};
    assert multiset(a + b) == multiset(t) - multiset{x};
  }

  /** The sum does not depend on the order of the elements. */
  lemma {:induction false} SumOfPermutation<T>(s: seq<T>, t: seq<T>, f: T -> nat)
    requires multiset(s) == multiset(t)
    ensures SumOf(s, f) == SumOf(t, f)
    decreases |s|
  {
    if |s| == 0 {
      assert |t| == |multiset(t)| == 0;
    } else {
      var x := s[|s| - 1];
      var s' := s[..|s| - 1];
      assert x in multiset(t);
      var i :| 0 <= i < |t| && t[i] == x;
      var t' := t[..i] + t[i + 1..];
      RemoveOne(s, t, i);
      assert t == t[..i] + [x] + t[i + 1..];
      SumOfPermutation(s', t', f);
      SumOfConcat(t[..i] + [x], t[i + 1..], f);
      SumOfConcat(t[..i], [x], f);
      SumOfConcat(t[..i], t[i + 1..], f);
      assert ([] + [x])[..0] == [];
      assert SumOf([x], f) == f(x);
    }
  }
}

/** The repository records the skills section receives from the hosting API. */
module Repos {
  import opened Sums

  datatype Option<T> = None | Some(value: T)

  /** An `updated_at` value: the ISO-8601 text as received and the instant it denotes,
      in integer milliseconds since the epoch (what `new Date(text).getTime()` yields). */
  datatype Timestamp = Timestamp(text: string, millis: int)

  /** One day in milliseconds, `1000 * 60 * 60 * 24`: the divisor of both the day count
      behind a skill's level and the one behind a repository's relative-time label. */
  const MillisPerDay: int := 1000 * 60 * 60 * 24

  datatype Repository = Repository(
    name: string,
    description: Option<string>,
    language: Option<string>,
    stargazersCount: nat,
    forksCount: nat,
    updatedAt: Timestamp,
    htmlUrl: string)

  /** `if (repo.language)`: a language that is null or the empty string is falsy. */
  predicate Truthy(r: Repository)
  {
    r.language.Some? && r.language.value != ""
  }

  /** The repository counts towards the skill named `lang`. */
  predicate HasLanguage(r: Repository, lang: string)
  {
    Truthy(r) && r.language.value == lang
  }

  /** The set of distinct truthy languages of `repos`. */
  function Languages(repos: seq<Repository>): set<string>
  {
    set i | 0 <= i < |repos| && Truthy(repos[i]) :: repos[i].language.value
  }

  /** Number of repositories whose language is exactly `lang`. */
  function Count(repos: seq<Repository>, lang: string): nat
  {
    SumOf(repos, (r: Repository) => if HasLanguage(r, lang) then 1 else 0)
  }

  /** Number of repositories with a truthy language. */
  function TruthyCount(repos: seq<Repository>): nat
  {
    SumOf(repos, (r: Repository) => if Truthy(r) then 1 else 0)
  }

  /** `reposData.reduce((sum, repo) => sum + repo.stargazers_count, 0)`. */
  function TotalStars(repos: seq<Repository>): nat
  {
    SumOf(repos, (r: Repository) => r.stargazersCount)
  }

  /** The repositories with a truthy language, in their original order. */
  function WithLanguage(repos: seq<Repository>): (r: seq<Repository>)
    ensures forall i :: 0 <= i < |r| ==> Truthy(r[i])
    ensures multiset(r) <= multiset(repos)
    ensures forall i :: 0 <= i < |repos| && Truthy(repos[i]) ==> repos[i] in r
    ensures |r| == TruthyCount(repos)
  {
    if |repos| == 0 then []
    else
      var p := repos[..|repos| - 1];
      var last := repos[|repos| - 1];
      assert repos == p + [last];
      if Truthy(last) then WithLanguage(p) + [last] else WithLanguage(p)
  }

  /** Appending one repository adds its language, when truthy, to the language set. */
  lemma LanguagesSnoc(p: seq<Repository>, r: Repository)
    ensures Languages(p + [r]) == Languages(p) + (if Truthy(r) then {r.language.value} else {})
  {
    var q := p + [r];
    assert forall i :: 0 <= i < |p| ==> q[i] == p[i];
    assert q[|p|] == r;
  }

  /** Permuting the repositories does not change the language set. */
  lemma LanguagesPermutation(s: seq<Repository>, t: seq<Repository>)
    requires multiset(s) == multiset(t)
    ensures Languages(s) == Languages(t)
  {
    forall lang | lang in Languages(s) ensures lang in Languages(t) {
      var i :| 0 <= i < |s| && Truthy(s[i]) && s[i].language.value == lang;
      assert s[i] in multiset(t);
    }
    forall lang | lang in Languages(t) ensures lang in Languages(s) {
      var i :| 0 <= i < |t| && Truthy(t[i]) && t[i].language.value == lang;
      assert t[i] in multiset(s);
    }
  }

  /** Permuting the repositories does not change any language's count. */
  lemma CountPermutation(s: seq<Repository>, t: seq<Repository>, lang: string)
    requires multiset(s) == multiset(t)
    ensures Count(s, lang) == Count(t, lang)
  {
    SumOfPermutation(s, t, (r: Repository) => if HasLanguage(r, lang) then 1 else 0);
  }

  /** A count relation used by the lemmas below: the count of a language is zero exactly
      when no repository carries it. */
  lemma {:induction false} CountZero(repos: seq<Repository>, lang: string)
    ensures Count(repos, lang) == 0 <==> forall j :: 0 <= j < |repos| ==> !HasLanguage(repos[j], lang)
  {
    if |repos| > 0 {
      var p := repos[..|repos| - 1];
      CountZero(p, lang);
      assert forall j :: 0 <= j < |p| ==> p[j] == repos[j];
    }
  }

  /** The total star count is the sum over any split of the list, and no single repository
      has more stars than the total. */
  lemma TotalStarsSplit(a: seq<Repository>, b: seq<Repository>)
    ensures TotalStars(a + b) == TotalStars(a) + TotalStars(b)
  {
    SumOfConcat(a, b, (r: Repository) => r.stargazersCount);
  }

  lemma {:induction false} TotalStarsBound(repos: seq<Repository>, i: nat)
    requires i < |repos|
    ensures repos[i].stargazersCount <= TotalStars(repos)
  {
    assert repos == repos[..i] + [repos[i]] + repos[i + 1..];
    TotalStarsSplit(repos[..i] + [repos[i]], repos[i + 1..]);
    TotalStarsSplit(repos[..i], [repos[i]]);
    assert [repos[i]][..0] == [];
  }
}
