/** Turning each language aggregate into a scored skill (the `skillsData` mapping). */
module Scoring {
  import opened Sums
  import opened Repos
  import opened Aggregation
  import opened SkillCatalog

  /** `Math.floor((now - lastUsed) / MillisPerDay)`: whole days elapsed, rounded down,
      negative when `lastUsed` lies in the future. */
  function DaysSince(now: int, lastUsed: int): (days: int)
    ensures days * MillisPerDay <= now - lastUsed < (days + 1) * MillisPerDay
  {
    (now - lastUsed) / MillisPerDay
  }

  function Min(a: int, b: int): int { if a <= b then a else b }

  function Max(a: int, b: int): int { if a >= b then a else b }

  /** `Math.min(100, Math.max(20, 100 - days + repos * 5))`. */
  function Level(days: int, repos: nat): (level: int)
    ensures 20 <= level <= 100
    ensures 20 <= 100 - days + repos * 5 <= 100 ==> level == 100 - days + repos * 5
    ensures 100 - days + repos * 5 < 20 ==> level == 20
    ensures 100 - days + repos * 5 > 100 ==> level == 100
  {
    Min(100, Max(20, 100 - days + repos * 5))
  }

  /** Fewer days since the last update never lowers the level. */
  lemma LevelAntitoneInDays(d1: int, d2: int, repos: nat)
    requires d1 <= d2
    ensures Level(d2, repos) <= Level(d1, repos)
  {
  }

  /** More repositories never lower the level. */
  lemma LevelMonotoneInRepos(days: int, n1: nat, n2: nat)
    requires n1 <= n2
    ensures Level(days, n1) <= Level(days, n2)
  {
  }

  /** Clamping a negative day count to zero, as one might expect for clock skew, would
      change nothing: any day count up to 0 yields the ceiling 100. */
  lemma NegativeDaysReachCeiling(days: int, repos: nat)
    requires days <= 0
    ensures Level(days, repos) == Level(0, repos) == 100
  {
  }

  /** One displayed skill. */
  datatype SkillData = SkillData(
    name: string,
    level: int,
    icon: string,
    experience: string,
    repos: nat,
    lastUsed: Timestamp,
    category: string)

  /** The mapping callback for one `[language, data]` entry. */
  function ScoreSkill(now: int, language: string, data: Aggregate): (skill: SkillData)
    ensures skill.name == language && skill.repos == data.repos && skill.lastUsed == data.lastUsed
    ensures skill.level == Level(DaysSince(now, data.lastUsed.millis), data.repos)
    ensures 20 <= skill.level <= 100
    ensures skill.icon == SkillInfoFor(language).icon
    ensures skill.experience == SkillInfoFor(language).experience
    ensures skill.category == SkillInfoFor(language).category
  {
    var info := SkillInfoFor(language);
    SkillData(language, Level(DaysSince(now, data.lastUsed.millis), data.repos),
              info.icon, info.experience, data.repos, data.lastUsed, info.category)
  }

  /** `Array.from(skillMap.entries()).map(...)`: one skill per entry, in insertion order. */
  function Scored(now: int, m: LanguageMap): (skills: seq<SkillData>)
    requires Listed(m)
    ensures |skills| == |m.order|
    ensures forall i :: 0 <= i < |skills| ==>
              && skills[i].name == m.order[i]
              && skills[i].repos == m.entries[m.order[i]].repos
              && skills[i].lastUsed == m.entries[m.order[i]].lastUsed
              && 20 <= skills[i].level <= 100
  {
    seq(|m.order|, i requires 0 <= i < |m.order| => ScoreSkill(now, m.order[i], m.entries[m.order[i]]))
  }

  /** Each scored skill's level is the clamped score of its own day count and repository
      count, and its icon, experience and category are the table's entry for its name. */
  lemma ScoredFields(now: int, m: LanguageMap)
    requires Listed(m)
    ensures var skills := Scored(now, m);
            forall i :: 0 <= i < |skills| ==>
              && skills[i].level == Level(DaysSince(now, skills[i].lastUsed.millis), skills[i].repos)
              && skills[i].icon == SkillInfoFor(skills[i].name).icon
              && skills[i].experience == SkillInfoFor(skills[i].name).experience
              && skills[i].category == SkillInfoFor(skills[i].name).category
  {
  }

  /** `skills.reduce((sum, skill) => sum + skill.repos, 0)`. */
  function TotalRepos(skills: seq<SkillData>): nat
  {
    SumOf(skills, (s: SkillData) => s.repos)
  }

  /** The scored list has one skill per distinct truthy language: names are pairwise
      distinct and are exactly the languages of the repositories. */
  lemma ScoredNames(now: int, repos: seq<Repository>)
    ensures var skills := Scored(now, Aggregated(repos));
            && (forall i, j :: 0 <= i < j < |skills| ==> skills[i].name != skills[j].name)
            && (forall lang :: lang in Languages(repos) <==> exists i :: 0 <= i < |skills| && skills[i].name == lang)
  {
    var m := Aggregated(repos);
    var skills := Scored(now, m);
    AggregatedValid(repos);
    forall lang | lang in Languages(repos) ensures exists i :: 0 <= i < |skills| && skills[i].name == lang {
      assert lang in m.entries;
      var i :| 0 <= i < |m.order| && m.order[i] == lang;
      assert skills[i].name == lang;
    }
  }

  /** Each scored skill carries the number of repositories of its language and the
      timestamp of the first of them with the latest update time. */
  lemma ScoredCounts(now: int, repos: seq<Repository>, i: int)
    requires 0 <= i < |Scored(now, Aggregated(repos))|
    ensures var skill := Scored(now, Aggregated(repos))[i];
            && skill.repos == Count(repos, skill.name)
            && exists k :: FirstLatest(repos, skill.name, k) && skill.lastUsed == repos[k].updatedAt
  {
    var m := Aggregated(repos);
    var lang := m.order[i];
    AggregatedCounts(repos, lang);
    AggregatedLastUsed(repos, lang);
  }

  /** Two TypeScript repositories updated 5 and 40 days ago: one skill, two
      repositories, the newer timestamp, and 100 - 5 + 10 = 105 capped to 100. */
  lemma TwoTypeScriptRepositories(now: int, a: Repository, b: Repository)
    requires HasLanguage(a, "TypeScript") && HasLanguage(b, "TypeScript")
    requires a.updatedAt.millis == now - 5 * MillisPerDay && b.updatedAt.millis == now - 40 * MillisPerDay
    ensures var skills := Scored(now, Aggregated([a, b]));
            && |skills| == 1 && skills[0].name == "TypeScript"
            && skills[0].repos == 2 && skills[0].lastUsed == a.updatedAt && skills[0].level == 100
  {
    assert [a, b][..1] == [a];
    assert [a][..0] == [];
    assert Aggregated([]) == Empty;
    var m1 := Aggregated([a]);
    assert m1 == Record(Empty, a);
    assert m1.order == ["TypeScript"] && m1.entries["TypeScript"] == Aggregate(1, a.updatedAt, ["TypeScript"]);
    var m2 := Aggregated([a, b]);
    assert m2 == Record(m1, b);
    assert m2.order == ["TypeScript"] && m2.entries["TypeScript"] == Aggregate(2, a.updatedAt, ["TypeScript"]);
    assert DaysSince(now, a.updatedAt.millis) == 5;
  }

  /** One COBOL repository last updated 400 days ago: 100 - 400 + 5 = -295, raised to 20. */
  lemma OldCobolRepository(now: int, a: Repository)
    requires HasLanguage(a, "COBOL") && a.updatedAt.millis == now - 400 * MillisPerDay
    ensures var skills := Scored(now, Aggregated([a]));
            && |skills| == 1 && skills[0].name == "COBOL" && skills[0].repos == 1 && skills[0].level == 20
  {
    assert [a][..0] == [];
    assert Aggregated([]) == Empty;
    assert Aggregated([a]) == Record(Empty, a);
    assert DaysSince(now, a.updatedAt.millis) == 400;
  }

  /** No repositories, no skills. */
  lemma NoRepositories(now: int)
    ensures Aggregated([]) == Empty && Scored(now, Aggregated([])) == []
  {
  }

  /** The repository total over all skills is the number of repositories that have a
      language. */
  lemma {:induction false} ScoredTotal(now: int, repos: seq<Repository>)
    ensures TotalRepos(Scored(now, Aggregated(repos))) == TruthyCount(repos)
  {
    if |repos| > 0 {
      var p := repos[..|repos| - 1];
      var r := repos[|repos| - 1];
      assert repos == p + [r];
      ScoredTotal(now, p);
      AggregatedValid(p);
      assert Aggregated(repos) == Record(Aggregated(p), r);
      RecordTotal(now, Aggregated(p), r);
    }
  }

  /** One visit adds one to the repository total exactly when the repository has a language. */
  lemma RecordTotal(now: int, m: LanguageMap, r: Repository)
    requires Valid(m)
    ensures Listed(Record(m, r))
    ensures TotalRepos(Scored(now, Record(m, r))) == TotalRepos(Scored(now, m)) + (if Truthy(r) then 1 else 0)
  {
    if Truthy(r) {
      var lang := r.language.value;
      if lang in m.entries {
        var k :| 0 <= k < |m.order| && m.order[k] == lang;
        RecordTotalExisting(now, m, r, k);
      } else {
        RecordTotalNew(now, m, r);
      }
    }
  }

  lemma RecordTotalExisting(now: int, m: LanguageMap, r: Repository, k: int)
    requires Listed(m) && Truthy(r) && 0 <= k < |m.order| && m.order[k] == r.language.value
    requires forall i :: 0 <= i < |m.order| && i != k ==> m.order[i] != r.language.value
    ensures Listed(Record(m, r))
    ensures TotalRepos(Scored(now, Record(m, r))) == TotalRepos(Scored(now, m)) + 1
  {
    var s := Scored(now, m);
    var m' := Record(m, r);
    var s' := Scored(now, m');
    assert forall i :: 0 <= i < |s| && i != k ==> s'[i].repos == s[i].repos;
    SumOfBump(s, s', (x: SkillData) => x.repos, k);
  }

  lemma RecordTotalNew(now: int, m: LanguageMap, r: Repository)
    requires Listed(m) && Truthy(r) && r.language.value !in m.entries
    ensures Listed(Record(m, r))
    ensures TotalRepos(Scored(now, Record(m, r))) == TotalRepos(Scored(now, m)) + 1
  {
    var s := Scored(now, m);
    var s' := Scored(now, Record(m, r));
    var f := (x: SkillData) => x.repos;
    assert TotalRepos(s) == SumOf(s'[..|s|], f) by {
      forall i | 0 <= i < |s| ensures s'[i].repos == s[i].repos {
        assert m.order[i] != r.language.value;
      }
      SumOfPointwise(s, s'[..|s|], f);
    }
    assert TotalRepos(s') == SumOf(s'[..|s|], f) + 1 by {
      assert s' == s'[..|s|] + [s'[|s|]];
      SumOfConcat(s'[..|s|], [s'[|s|]], f);
      assert [s'[|s|]][..0] == [];
    }
  }
}
