/** The per-language aggregation of the repository list (the `skillMap` loop of the
    skills section). */
module Aggregation {
  import opened Repos

  /** One value of the language map: the repository count, the latest `updated_at`
      seen so far, and the one-element `languages` list the entry is created with. */
  datatype Aggregate = Aggregate(repos: nat, lastUsed: Timestamp, languages: seq<string>)

  /** A JavaScript `Map` from language name to aggregate: its keys in insertion order
      (the order `entries()` yields them) and the entry of each key. */
  datatype LanguageMap = LanguageMap(order: seq<string>, entries: map<string, Aggregate>)

  /** Every listed key has an entry. */
  predicate Listed(m: LanguageMap)
  {
    forall i :: 0 <= i < |m.order| ==> m.order[i] in m.entries
  }

  /** Keys are listed once each, and exactly the keys that have an entry are listed. */
  predicate Valid(m: LanguageMap)
  {
    && (forall i, j :: 0 <= i < j < |m.order| ==> m.order[i] != m.order[j])
    && (forall k :: k in m.entries ==> k in m.order)
    && Listed(m)
  }

  const Empty := LanguageMap([], map[])

  /** The body of the `forEach` callback: the map after visiting one repository. */
  function Record(m: LanguageMap, r: Repository): LanguageMap
  {
    if !Truthy(r) then m
    else
      var lang := r.language.value;
      if lang in m.entries then
        var existing := m.entries[lang];
        var lastUsed := if r.updatedAt.millis > existing.lastUsed.millis then r.updatedAt else existing.lastUsed;
        m.(entries := m.entries[lang := existing.(repos := existing.repos + 1, lastUsed := lastUsed)])
      else
        LanguageMap(m.order + [lang], m.entries[lang := Aggregate(1, r.updatedAt, [lang])])
  }

  /** The map after the whole `forEach` over `repos`, visiting them in list order. */
  function Aggregated(repos: seq<Repository>): (m: LanguageMap)
    ensures Listed(m)
    ensures m.entries.Keys == Languages(repos)
    ensures forall k :: k in m.entries ==> m.entries[k].languages == [k]
  {
    if |repos| == 0 then Empty
    else
      var p := repos[..|repos| - 1];
      var r := repos[|repos| - 1];
      assert repos == p + [r];
      LanguagesSnoc(p, r);
      Record(Aggregated(p), r)
  }

  /** Every key of the aggregated map is listed exactly once. */
  lemma {:induction false} AggregatedValid(repos: seq<Repository>)
    ensures Valid(Aggregated(repos))
  {
    if |repos| > 0 {
      var p := repos[..|repos| - 1];
      assert repos == p + [repos[|repos| - 1]];
      AggregatedValid(p);
    }
  }

  /** The imperative loop: a fresh map, then one visit per repository. */
  method AggregateLanguages(repos: seq<Repository>) returns (m: LanguageMap)
    ensures m == Aggregated(repos)
    ensures m.entries.Keys == Languages(repos)
    ensures forall lang :: lang in m.entries ==> m.entries[lang].repos == Count(repos, lang)
  {
    var order: seq<string> := [];
    var entries: map<string, Aggregate> := map[];
    var i := 0;
    while i < |repos|
      invariant 0 <= i <= |repos|
      invariant LanguageMap(order, entries) == Aggregated(repos[..i])
    {
      var repo := repos[i];
      if repo.language.Some? && repo.language.value != "" {
        var lang := repo.language.value;
        if lang in entries {
          var existing := entries[lang];
          var lastUsed := existing.lastUsed;
          if repo.updatedAt.millis > existing.lastUsed.millis {
            lastUsed := repo.updatedAt;
          }
          entries := entries[lang := existing.(repos := existing.repos + 1, lastUsed := lastUsed)];
        } else {
          order := order + [lang];
          entries := entries[lang := Aggregate(1, repo.updatedAt, [lang])];
        }
      }
      assert repos[..i + 1][..i] == repos[..i];
      i := i + 1;
    }
    assert repos[..i] == repos;
    m := LanguageMap(order, entries);
    forall lang | lang in m.entries ensures m.entries[lang].repos == Count(repos, lang) {
      AggregatedCounts(repos, lang);
    }
  }

  /** Each entry counts exactly the repositories of its language; a language with no
      entry has no repository. */
  lemma {:induction false} AggregatedCounts(repos: seq<Repository>, lang: string)
    ensures lang in Aggregated(repos).entries ==> Aggregated(repos).entries[lang].repos == Count(repos, lang)
    ensures lang !in Aggregated(repos).entries <==> Count(repos, lang) == 0
  {
    if |repos| == 0 {
    } else {
      var p := repos[..|repos| - 1];
      AggregatedCounts(p, lang);
    }
  }

  /** Index `i` holds the latest timestamp among the repositories of `lang`, and every
      earlier repository of `lang` is strictly older. */
  predicate FirstLatest(repos: seq<Repository>, lang: string, i: int)
  {
    && 0 <= i < |repos|
    && HasLanguage(repos[i], lang)
    && (forall j :: 0 <= j < |repos| && HasLanguage(repos[j], lang) ==> repos[j].updatedAt.millis <= repos[i].updatedAt.millis)
    && (forall j :: 0 <= j < i && HasLanguage(repos[j], lang) ==> repos[j].updatedAt.millis < repos[i].updatedAt.millis)
  }

  /** `lastUsed` is the timestamp of the first repository that attains the latest
      update time of its language: a later repository with an equal time does not
      replace it, because the comparison is strict. */
  lemma {:induction false} AggregatedLastUsed(repos: seq<Repository>, lang: string)
    requires lang in Aggregated(repos).entries
    ensures exists i :: FirstLatest(repos, lang, i) && Aggregated(repos).entries[lang].lastUsed == repos[i].updatedAt
  {
    var n := |repos|;
    var p := repos[..n - 1];
    var r := repos[n - 1];
    assert repos == p + [r];
    var m := Aggregated(p);
    RecordEntry(m, r, lang);
    var e := Aggregated(repos).entries[lang];
    if lang in m.entries {
      AggregatedLastUsed(p, lang);
      var i :| FirstLatest(p, lang, i) && m.entries[lang].lastUsed == p[i].updatedAt;
      var k := if HasLanguage(r, lang) && r.updatedAt.millis > p[i].updatedAt.millis then n - 1 else i;
      FirstLatestSnoc(p, r, lang, i, k);
      assert FirstLatest(repos, lang, k) && e.lastUsed == repos[k].updatedAt;
    } else {
      AggregatedCounts(p, lang);
      CountZero(p, lang);
      FirstLatestFresh(p, r, lang);
      assert FirstLatest(repos, lang, n - 1) && e.lastUsed == repos[n - 1].updatedAt;
    }
  }

  /** What one visit does to the entry of `lang`. */
  lemma RecordEntry(m: LanguageMap, r: Repository, lang: string)
    ensures !HasLanguage(r, lang) ==>
              && (lang in Record(m, r).entries <==> lang in m.entries)
              && (lang in m.entries ==> Record(m, r).entries[lang] == m.entries[lang])
    ensures HasLanguage(r, lang) && lang in m.entries ==>
              Record(m, r).entries[lang] == m.entries[lang].(
                repos := m.entries[lang].repos + 1,
                lastUsed := if r.updatedAt.millis > m.entries[lang].lastUsed.millis then r.updatedAt else m.entries[lang].lastUsed)
    ensures HasLanguage(r, lang) && lang !in m.entries ==>
              Record(m, r).entries[lang] == Aggregate(1, r.updatedAt, [lang])
  {
  }

  /** A repository of a language no earlier repository has is its first latest one. */
  lemma FirstLatestFresh(p: seq<Repository>, r: Repository, lang: string)
    requires HasLanguage(r, lang)
    requires forall j :: 0 <= j < |p| ==> !HasLanguage(p[j], lang)
    ensures FirstLatest(p + [r], lang, |p|)
  {
    var q := p + [r];
    assert forall j :: 0 <= j < |p| ==> q[j] == p[j];
  }

  /** How the first latest index moves when one repository is appended. */
  lemma FirstLatestSnoc(p: seq<Repository>, r: Repository, lang: string, i: int, k: int)
    requires FirstLatest(p, lang, i)
    requires k == if HasLanguage(r, lang) && r.updatedAt.millis > p[i].updatedAt.millis then |p| else i
    ensures FirstLatest(p + [r], lang, k)
  {
    var q := p + [r];
    assert forall j :: 0 <= j < |p| ==> q[j] == p[j];
  }

  /** The first latest index is unique. */
  lemma FirstLatestUnique(repos: seq<Repository>, lang: string, i: int, j: int)
    requires FirstLatest(repos, lang, i) && FirstLatest(repos, lang, j)
    ensures i == j
  {
  }

  /** Repositories with a null or empty language create no entry and change none:
      aggregating only the ones with a language gives the same map. */
  lemma {:induction false} AggregatedIgnoresFalsy(repos: seq<Repository>)
    ensures Aggregated(WithLanguage(repos)) == Aggregated(repos)
  {
    if |repos| > 0 {
      var p := repos[..|repos| - 1];
      var r := repos[|repos| - 1];
      AggregatedIgnoresFalsy(p);
      if Truthy(r) {
        var w := WithLanguage(p) + [r];
        assert w[..|w| - 1] == WithLanguage(p);
      }
    }
  }

  /** The counts and the latest update time of every language do not depend on the
      order of the repository list (the timestamp text may, on equal times). */
  lemma {:induction false} AggregationOrderIndependent(s: seq<Repository>, t: seq<Repository>, lang: string)
    requires multiset(s) == multiset(t)
    ensures Aggregated(s).entries.Keys == Aggregated(t).entries.Keys
    ensures lang in Aggregated(s).entries ==>
              && Aggregated(s).entries[lang].repos == Aggregated(t).entries[lang].repos
              && Aggregated(s).entries[lang].lastUsed.millis == Aggregated(t).entries[lang].lastUsed.millis
  {
    LanguagesPermutation(s, t);
    if lang in Aggregated(s).entries {
      AggregatedCounts(s, lang);
      AggregatedCounts(t, lang);
      CountPermutation(s, t, lang);
      LastUsedMillisPermutation(s, t, lang);
    }
  }

  /** Two lists with the same elements have the same latest time for each language. */
  lemma LastUsedMillisPermutation(s: seq<Repository>, t: seq<Repository>, lang: string)
    requires multiset(s) == multiset(t)
    requires lang in Aggregated(s).entries && lang in Aggregated(t).entries
    ensures Aggregated(s).entries[lang].lastUsed.millis == Aggregated(t).entries[lang].lastUsed.millis
  {
    AggregatedLastUsed(s, lang);
    AggregatedLastUsed(t, lang);
    var i :| FirstLatest(s, lang, i) && Aggregated(s).entries[lang].lastUsed == s[i].updatedAt;
    var j :| FirstLatest(t, lang, j) && Aggregated(t).entries[lang].lastUsed == t[j].updatedAt;
    LatestMillisPermutation(s, t, lang, i, j);
  }

  lemma LatestMillisPermutation(s: seq<Repository>, t: seq<Repository>, lang: string, i: int, j: int)
    requires multiset(s) == multiset(t)
    requires FirstLatest(s, lang, i) && FirstLatest(t, lang, j)
    ensures s[i].updatedAt.millis == t[j].updatedAt.millis
  {
    assert s[i] in multiset(t);
    assert t[j] in multiset(s);
    var i' :| 0 <= i' < |t| && t[i'] == s[i];
    var j' :| 0 <= j' < |s| && s[j'] == t[j];
  }
}
