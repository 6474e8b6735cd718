/** The data side of the skills section: one fetch cycle turning the two API responses
    into the section's state (`fetchGitHubData`). */
module SkillsSection {
  import opened Sums
  import opened Repos
  import opened Aggregation
  import opened Scoring
  import opened Ranking

  /** A response whose JSON body was read, or one that was not ok (or failed in transit). */
  datatype Response<T> = Ok(body: T) | Failed

  /** The fields of the profile response the section reads. */
  datatype Profile = Profile(publicRepos: nat, followers: nat)

  datatype GitHubStats = GitHubStats(repositories: nat, followers: nat, stars: nat, focus: string)

  /** The section's state: the skill list, the repository list and the profile figures. */
  datatype SectionState = SectionState(skills: seq<SkillData>, repositories: seq<Repository>, stats: GitHubStats)

  /** The state before any fetch has completed. */
  const Initial := SectionState([], [], GitHubStats(0, 0, 0, "Backend Development"))

  /** Aggregation, scoring and the in-place stable sort: one skill per distinct language,
      with its repository count, its level within [20, 100], and the list in comparator
      order with tied skills in the map's insertion order. That makes it the one sorted
      list keeping the scored list's tie order. */
  method DeriveSkills(repos: seq<Repository>, now: int) returns (skills: seq<SkillData>)
    ensures multiset(skills) == multiset(Scored(now, Aggregated(repos)))
    ensures Sorted(skills)
    ensures KeepsTieOrder(Scored(now, Aggregated(repos)), skills)
    ensures forall t :: Sorted(t) && KeepsTieOrder(Scored(now, Aggregated(repos)), t) ==> t == skills
    ensures forall i :: 0 <= i < |skills| ==> 20 <= skills[i].level <= 100
    ensures forall i :: 0 <= i < |skills| ==> skills[i].repos == Count(repos, skills[i].name)
    ensures forall i, j :: 0 <= i < j < |skills| ==> skills[i].name != skills[j].name
    ensures forall lang :: lang in Languages(repos) <==> exists i :: 0 <= i < |skills| && skills[i].name == lang
    ensures TotalRepos(skills) == TruthyCount(repos)
  {
    var m := AggregateLanguages(repos);
    var scored := Scored(now, m);
    var a := new SkillData[|scored|](i requires 0 <= i < |scored| => scored[i]);
    assert a[..] == scored;
    SortSkills(a);
    skills := a[..];
    ReorderedSkills(now, repos, skills);
    forall t | Sorted(t) && KeepsTieOrder(scored, t) ensures t == skills {
      StableSortUnique(scored, t, skills);
    }
  }

  /** Whatever order the scored skills are put in, each keeps its bounded level and its
      repository count, names stay one per distinct language, and the total is kept. */
  lemma ReorderedSkills(now: int, repos: seq<Repository>, skills: seq<SkillData>)
    requires multiset(skills) == multiset(Scored(now, Aggregated(repos)))
    ensures forall i :: 0 <= i < |skills| ==> 20 <= skills[i].level <= 100
    ensures forall i :: 0 <= i < |skills| ==> skills[i].repos == Count(repos, skills[i].name)
    ensures forall i, j :: 0 <= i < j < |skills| ==> skills[i].name != skills[j].name
    ensures forall lang :: lang in Languages(repos) <==> exists i :: 0 <= i < |skills| && skills[i].name == lang
    ensures TotalRepos(skills) == TruthyCount(repos)
  {
    var scored := Scored(now, Aggregated(repos));
    forall i | 0 <= i < |skills|
      ensures 20 <= skills[i].level <= 100 && skills[i].repos == Count(repos, skills[i].name)
    {
      assert skills[i] in multiset(scored);
      var k :| 0 <= k < |scored| && scored[k] == skills[i];
      ScoredCounts(now, repos, k);
    }
    ScoredNames(now, repos);
    DistinctNamesPermutation(scored, skills);
    ReorderedNames(now, repos, skills);
    ScoredTotal(now, repos);
    SumOfPermutation(scored, skills, (x: SkillData) => x.repos);
  }

  lemma ReorderedNames(now: int, repos: seq<Repository>, skills: seq<SkillData>)
    requires multiset(skills) == multiset(Scored(now, Aggregated(repos)))
    ensures forall lang :: lang in Languages(repos) <==> exists i :: 0 <= i < |skills| && skills[i].name == lang
  {
    ScoredNames(now, repos);
    forall lang ensures lang in Languages(repos) <==> exists i :: 0 <= i < |skills| && skills[i].name == lang {
      SameNames(Scored(now, Aggregated(repos)), skills, lang);
    }
  }

  /** Two lists with the same elements carry the same names. */
  lemma SameNames(s: seq<SkillData>, t: seq<SkillData>, lang: string)
    requires multiset(s) == multiset(t)
    ensures (exists i :: 0 <= i < |s| && s[i].name == lang) <==> (exists i :: 0 <= i < |t| && t[i].name == lang)
  {
    if i :| 0 <= i < |s| && s[i].name == lang {
      assert s[i] in multiset(t);
      var k :| 0 <= k < |t| && t[k] == s[i];
    }
    if i :| 0 <= i < |t| && t[i].name == lang {
      assert t[i] in multiset(s);
      var k :| 0 <= k < |s| && s[k] == t[i];
    }
  }

  /** One fetch cycle. When either response is not ok the state is left as it was (so a
      first fetch that fails leaves the section empty); otherwise the repository list,
      the profile figures with the star total, and the stably sorted skills are set. */
  method Refresh(state: SectionState, reposResponse: Response<seq<Repository>>, userResponse: Response<Profile>, now: int)
    returns (next: SectionState)
    ensures !(reposResponse.Ok? && userResponse.Ok?) ==> next == state
    ensures reposResponse.Ok? && userResponse.Ok? ==>
              var repos := reposResponse.body;
              && next.repositories == repos
              && next.stats == GitHubStats(userResponse.body.publicRepos, userResponse.body.followers,
                                           TotalStars(repos), "Backend Development with Java & Spring")
              && multiset(next.skills) == multiset(Scored(now, Aggregated(repos)))
              && Sorted(next.skills)
              && KeepsTieOrder(Scored(now, Aggregated(repos)), next.skills)
              && (forall t :: Sorted(t) && KeepsTieOrder(Scored(now, Aggregated(repos)), t) ==> t == next.skills)
              && TotalRepos(next.skills) == TruthyCount(repos)
  {
    next := state;
    if reposResponse.Ok? && userResponse.Ok? {
      var repos := reposResponse.body;
      var profile := userResponse.body;
      next := next.(repositories := repos);
      next := next.(stats := GitHubStats(profile.publicRepos, profile.followers, TotalStars(repos),
                                         "Backend Development with Java & Spring"));
      var skills := DeriveSkills(repos, now);
      next := next.(skills := skills);
    }
  }

  /** A list with pairwise distinct names holds each skill at most once. */
  lemma {:induction false} DistinctNamesMultiplicity(s: seq<SkillData>, x: SkillData)
    requires forall i, j :: 0 <= i < j < |s| ==> s[i].name != s[j].name
    ensures multiset(s)[x] <= 1
  {
    if |s| > 0 {
      var p := s[..|s| - 1];
      assert s == p + [s[|s| - 1]];
      DistinctNamesMultiplicity(p, x);
      if s[|s| - 1] == x {
        assert x !in p;
      }
    }
  }

  /** Reordering a list with pairwise distinct names keeps the names distinct. */
  lemma DistinctNamesPermutation(s: seq<SkillData>, t: seq<SkillData>)
    requires multiset(s) == multiset(t)
    requires forall i, j :: 0 <= i < j < |s| ==> s[i].name != s[j].name
    ensures forall i, j :: 0 <= i < j < |t| ==> t[i].name != t[j].name
  {
    forall i, j | 0 <= i < j < |t| ensures t[i].name != t[j].name {
      if t[i].name == t[j].name {
        assert t[i] in multiset(s) && t[j] in multiset(s);
        var i' :| 0 <= i' < |s| && s[i'] == t[i];
        var j' :| 0 <= j' < |s| && s[j'] == t[j];
        assert t[i] == t[j];
        assert t == t[..j] + [t[j]] + t[j + 1..];
        assert t[..j][i] == t[j];
        assert multiset(t)[t[j]] >= 2;
        DistinctNamesMultiplicity(s, t[j]);
      }
    }
  }
}
