# Skills section data pipeline — a verified Dafny model

The portfolio's skills section fetches the owner's repository list and profile from
the GitHub API, and from the repository list derives one *skill* per programming
language. One pass builds a map from language to a repository count and the latest
update time. Each entry is then scored with a level in [20, 100] from its recency and
repository count. The list is sorted by level, then by repository count, and the
first 15 are shown, together with a star total and a repository total. Two small
helpers go with it: a fixed table of icon, experience and category per language, and a
relative-time label ("Yesterday", "3 weeks ago", ...) for each repository card.

The model follows `src/components/Skills.tsx`:

- `repos.dfy` — module `Sums` (the `reduce` sums, and why they ignore order) and module
  `Repos` (the repository record, the timestamp, the one-day constant that both day
  counts divide by, and the counting functions the proofs refer to).
- `aggregation.dfy` — module `Aggregation`: the `forEach` loop over the repositories, as a
  method with a `while` loop (`AggregateLanguages`) proved equal to a fold of the
  callback body (`Aggregated`), and the lemmas about that fold.
- `scoring.dfy` — module `Scoring`: days since the last update, the clamped level, one
  `SkillData` per map entry, and the repository total.
- `skill_catalog.dfy` — module `SkillCatalog`: the `getSkillInfo` table.
- `ranking.dfy` — module `Ranking`: the sort comparator, the in-place sort on an array,
  and the cut to 15.
- `skills_section.dfy` — module `SkillsSection`: one fetch cycle, from the two responses to
  the section's new state.
- `relative_time.dfy` — module `RelativeTime`: `formatDate`.

Modelling choices:

- A timestamp is `Timestamp(text, millis)`: the ISO-8601 text the API returns, which is
  what the source stores in `lastUsed`, and the instant it denotes in integer
  milliseconds. The source compares instants (`new Date(a) > new Date(b)`) and keeps
  text. Keeping both makes the strict comparison observable: on equal times, the first
  repository's text is kept.
- The JavaScript `Map` is `LanguageMap(order, entries)`: its keys in insertion order plus
  one entry per key. `Array.from(skillMap.entries())` yields entries in that order, and
  the scored list keeps it.
- A language is falsy when it is `null` or the empty string (`if (repo.language)`).
- `Date.now()` and `new Date()` are the parameter `now` (see "Left out"). `Math.floor`
  of the float quotient is Dafny's integer division by the positive constant 86 400 000
  (rounding down). `Math.ceil` is written as `(x + d - 1) / d`.
- One might expect a negative day count (an update time in the future, from clock skew)
  to be clamped to zero. The code does not clamp it, and the model follows the code.
  `Scoring.NegativeDaysReachCeiling` shows this changes nothing: any day count up to 0
  already gives level 100.

## Model

| member | source | states |
|---|---|---|
| `Aggregation.AggregateLanguages` | src/components/Skills.tsx:66-84 | the loop's map is the fold of the callback over the list; its keys are exactly the distinct truthy languages; each entry's count is the number of repositories with that language |
| `Aggregation.Record` | src/components/Skills.tsx:69-83 | definition of the callback, without an ensures: a falsy language leaves the map alone, a repeated language gets one more repository and the later of the two times (the stored one on a tie), a new language is appended with count 1; `Aggregation.AggregatedCounts` and `Aggregation.AggregatedLastUsed` state what the visits add up to |
| `Aggregation.Aggregated` | src/components/Skills.tsx:66-84 | every listed key has an entry; the key set is the set of truthy languages; each entry's `languages` is the one-element list of its key |
| `Aggregation.AggregatedValid` | src/components/Skills.tsx:76-81 | a key is inserted only when absent, so each key appears once in the insertion order and every key with an entry is listed |
| `Aggregation.AggregatedCounts` | src/components/Skills.tsx:70-79 | `repos` of a language's entry equals the number of its repositories; a language has no entry exactly when it has no repository |
| `Aggregation.AggregatedLastUsed` | src/components/Skills.tsx:73-75 | `lastUsed` is the timestamp of the first repository of that language that has the latest update time (maximum, with earlier-seen kept on ties) |
| `Aggregation.FirstLatestUnique` | src/components/Skills.tsx:73-75 | that first-latest repository is unique |
| `Aggregation.AggregatedIgnoresFalsy` | src/components/Skills.tsx:69 | dropping every repository whose language is null or empty leaves the map unchanged: such a repository creates no entry and alters none |
| `Aggregation.AggregationOrderIndependent` | src/components/Skills.tsx:68-84 | permuting the repository list keeps the key set, every count and every latest update instant |
| `Scoring.DaysSince` | src/components/Skills.tsx:89 | the result is the floor of elapsed milliseconds over one day: `d * day <= now - lastUsed < (d + 1) * day` |
| `Scoring.Level` | src/components/Skills.tsx:93 | the level lies in [20, 100]; it is the raw score `100 - days + 5 * repos` when that is in range, else the nearer bound |
| `Scoring.LevelAntitoneInDays` | src/components/Skills.tsx:93 | a more recent update never gives a lower level |
| `Scoring.LevelMonotoneInRepos` | src/components/Skills.tsx:93 | more repositories never give a lower level |
| `Scoring.NegativeDaysReachCeiling` | src/components/Skills.tsx:89-93 | any day count up to 0 gives level 100, the same as a count clamped to 0 |
| `Scoring.ScoreSkill` | src/components/Skills.tsx:87-99 | the skill has the language as its name and copies `repos` and `lastUsed` unchanged; its level is the clamped score of `DaysSince(now, lastUsed)` and the count, so it lies in [20, 100]; icon, experience and category are the table's entry for the language |
| `Scoring.Scored` | src/components/Skills.tsx:87-100 | one skill per map key, in insertion order, copying that entry's count and timestamp, each with a level in [20, 100] |
| `Scoring.ScoredFields` | src/components/Skills.tsx:88-98 | every scored skill's level is the clamped score of its own day count and repository count, and its icon, experience and category are the table's entry for its name |
| `Scoring.ScoredNames` | src/components/Skills.tsx:87-100 | the scored names are pairwise distinct and are exactly the truthy languages of the input |
| `Scoring.ScoredCounts` | src/components/Skills.tsx:87-99 | each scored skill's `repos` is the count of its language and its `lastUsed` is its first latest repository's timestamp |
| `Scoring.TotalRepos` | src/components/Skills.tsx:446 | definition of the displayed repository total, without an ensures; `Scoring.ScoredTotal` states its value and `Sums.SumOfPermutation` that sorting does not change it |
| `Scoring.ScoredTotal` | src/components/Skills.tsx:446 | the repository total over all skills equals the number of repositories with a truthy language |
| `Scoring.TwoTypeScriptRepositories` | src/components/Skills.tsx:87-93 | two TypeScript repositories updated 5 and 40 days ago give one skill with 2 repositories, the newer timestamp, and level 100 |
| `Scoring.OldCobolRepository` | src/components/Skills.tsx:87-93 | one COBOL repository updated 400 days ago gives level 20 |
| `Scoring.NoRepositories` | src/components/Skills.tsx:66-100 | an empty repository list gives an empty map and no skills |
| `SkillCatalog.SkillInfoFor` | src/components/Skills.tsx:150-165 | definition of the table lookup with its fallback, without an ensures; `SkillCatalog.SkillInfoTable` states which names get which entry |
| `SkillCatalog.SkillInfoTable` | src/components/Skills.tsx:150-165 | a language gets the fallback entry (laptop icon, "1+ year", "Other") exactly when it is not one of the ten listed; listed languages get their table category |
| `Ranking.Compare` | src/components/Skills.tsx:103 | definition of the comparator, without an ensures; `Ranking.InOrderMeaning` and `Ranking.ComparatorConsistent` state its meaning and consistency |
| `Ranking.InOrderMeaning` | src/components/Skills.tsx:103 | the comparator places `a` no later than `b` exactly when `a` has the higher level, or the same level and at least as many repositories |
| `Ranking.ComparatorConsistent` | src/components/Skills.tsx:103 | the comparator is antisymmetric and its order is total and transitive, so the sort is well defined |
| `Ranking.SortSkills` | src/components/Skills.tsx:103 | the array is sorted in place and stably: afterwards every earlier skill is in comparator order with every later one, the array holds the same multiset of skills, and skills that tie keep their relative order |
| `Ranking.InsertAt` | src/components/Skills.tsx:103 | one insertion step extends the sorted prefix by one element, rearranges only that prefix (its elements are kept and the suffix is unchanged), and keeps the order of tied skills |
| `Ranking.TiesConcat` | src/components/Skills.tsx:103 | the tie group of a concatenation is the two parts' tie groups joined |
| `Ranking.SwapKeepsTies` | src/components/Skills.tsx:103 | swapping two neighbours that do not tie keeps every tie group's order, which is why the insertion sort is stable |
| `Ranking.SortedTiesUnique` | src/components/Skills.tsx:103 | two sorted lists with the same tie groups are equal |
| `Ranking.StableSortUnique` | src/components/Skills.tsx:103 | a list has exactly one stable sort: two sorted lists that keep its tie order are equal |
| `Ranking.SortedNeighbours` | src/components/Skills.tsx:103 | in a sorted list each neighbouring pair is strictly decreasing in level, or level-equal with non-increasing repository count |
| `Ranking.Displayed` | src/components/Skills.tsx:426 | the shown list is a prefix of the skills, of length `min(15, n)` for n skills |
| `Ranking.DisplayedAreTop` | src/components/Skills.tsx:426 | the shown skills of a sorted list are sorted and rank at least as high as every skill left out |
| `SkillsSection.DeriveSkills` | src/components/Skills.tsx:86-104 | the derived list is a sorted permutation of the scored list that keeps tied skills in the map's insertion order, and it is the only sorted list that does; levels are in [20, 100]; names are distinct and are exactly the truthy languages; counts are per-language counts; the total is the number of repositories with a language |
| `SkillsSection.ReorderedSkills` | src/components/Skills.tsx:87-103 | any reordering of the scored list keeps the level bounds, the per-language counts, the one-name-per-language property and the repository total |
| `SkillsSection.DistinctNamesPermutation` | src/components/Skills.tsx:103 | sorting cannot create two skills with the same name |
| `SkillsSection.Refresh` | src/components/Skills.tsx:53-104 | when either response is not ok the state is unchanged, so skills stay empty after a failed first fetch; otherwise the repository list, the profile figures with the star total, and the skill list are set; that list is sorted, keeps the scored list's tie order (so it is the only such list) and has the right repository total |
| `Repos.TotalStars` | src/components/Skills.tsx:61 | definition of the star total, without an ensures; `Repos.TotalStarsSplit` and `Repos.TotalStarsBound` state its properties, and `SkillsSection.Refresh` stores it |
| `Repos.TotalStarsSplit` | src/components/Skills.tsx:61 | the star total of a concatenation is the sum of the parts' totals |
| `Repos.TotalStarsBound` | src/components/Skills.tsx:61 | no repository has more stars than the total |
| `Repos.CountZero` | src/components/Skills.tsx:69-70 | a language's count is zero exactly when no repository has that language |
| `Sums.SumOfPermutation` | src/components/Skills.tsx:446 | a `reduce` sum does not depend on the order of the list |
| `RelativeTime.DiffDays` | src/components/Skills.tsx:179-180 | the day difference is the absolute difference rounded up to whole days: `(d - 1) * day < abs(now - date) <= d * day` |
| `RelativeTime.Classify` | src/components/Skills.tsx:182-187 | definition of the bucket chain, without an ensures; `RelativeTime.ClassifyBuckets` states each bucket's range and number |
| `RelativeTime.Render` | src/components/Skills.tsx:182-187 | definition of the label texts, without an ensures; `RelativeTime.RenderInjective` states that the text determines the label |
| `RelativeTime.ClassifyBuckets` | src/components/Skills.tsx:182-187 | Today iff 0 days, Yesterday iff 1, the day count for 2..6, whole weeks (1..4) for 7..29, months of 30 days (1..12) for 30..364, years of 365 days otherwise |
| `RelativeTime.NatToString` | src/components/Skills.tsx:184-187 | the printed number is a non-empty string of decimal digits with no leading zero |
| `RelativeTime.NatToStringRoundTrip` | src/components/Skills.tsx:184-187 | reading the printed digits back gives the number |
| `RelativeTime.RenderInjective` | src/components/Skills.tsx:182-187 | two different labels never print the same text |
| `RelativeTime.FormatDate` | src/components/Skills.tsx:176-188 | definition of `formatDate` as written, without an ensures; `RelativeTime.FormatDateToday` and `RelativeTime.FormatDateBuckets` state its texts |
| `RelativeTime.FormatDateToday` | src/components/Skills.tsx:180-182 | as written, "Today" is shown exactly when the two instants are the same millisecond |
| `RelativeTime.FormatDateBuckets` | src/components/Skills.tsx:176-188 | "Yesterday" exactly for a one-day difference; otherwise the text is "N days ago", "N weeks ago", "N months ago" or "N years ago" with the bucket's number |
| `RelativeTime.OneHourAgoReadsYesterday` | src/components/Skills.tsx:180-183 | an update one hour before `now` is labelled "Yesterday" |
| `RelativeTime.ElapsedDays` | src/components/Skills.tsx:180 | the day difference rounded down: `d * day <= abs(now - date) < (d + 1) * day` |
| `RelativeTime.FormatDateElapsed` | src/components/Skills.tsx:176-188 | definition of the corrected `formatDate` with days rounded down, without an ensures; `RelativeTime.FormatDateElapsedTodayYesterday` states its first two texts |
| `RelativeTime.FormatDateElapsedTodayYesterday` | src/components/Skills.tsx:182-183 | with days rounded down, "Today" covers every difference under one day and "Yesterday" the second day |

## Findings

| source | as written | input that shows it | evidently intended | confidence | as-written member | corrected member |
|---|---|---|---|---|---|---|
| src/components/Skills.tsx:180 | `diffDays` rounds the absolute difference up, so any difference above 0 ms counts as at least one day and the `'Today'` branch is reached only at a difference of exactly 0 ms | a repository updated one hour ago (difference 3 600 000 ms) is labelled "Yesterday" | "Today" for an update less than a day old, i.e. the day count rounded down (`RelativeTime.FormatDateElapsed`) | medium; not executed | `RelativeTime.OneHourAgoReadsYesterday` | `RelativeTime.FormatDateElapsedTodayYesterday` |

The rest of the model does not use `formatDate`. The as-written `RelativeTime.FormatDate`
is kept as the model of the source, and `RelativeTime.FormatDateElapsed` is the corrected
definition.

## Left out

- The two `fetch` calls, `Promise.all` and `.json()` (lines 48-55) are network I/O. Each
  response is an `Ok(body)` or `Failed` value given to `SkillsSection.Refresh`. A
  transport error, a non-ok status and a body that fails to parse all become `Failed`.
  The `catch` that logs the error is left out.
- React state setters, `useEffect`, the `IntersectionObserver`, the scroll handler and
  `loading` (lines 113-146) are UI lifecycle. The section's state is a value that
  `Refresh` returns.
- Parsing an ISO-8601 string with `new Date(...)` is left out. Each timestamp carries its
  parsed instant. An unparseable string, whose `NaN` makes every comparison false, is
  not modelled.
- Floating point: the source divides doubles before `Math.floor`/`Math.ceil`. For
  millisecond differences below 2^53 this equals the integer division the model uses.
- `getSkillInfo` indexes a plain object. A language whose name is an inherited property
  of `Object.prototype` (such as `constructor`) would return that property instead of the
  fallback. The model treats the table as a finite map.
- `RelativeTime.NatToString`: models JavaScript's decimal printing of non-negative
  integers only, which covers every reachable day count. The exponent form used from
  10^21 up is not modelled, because day counts are far smaller.
- `Scoring.Scored`: the clock is one instant, the parameter `now`, for a whole fetch
  cycle, and `SkillsSection.DeriveSkills` and `SkillsSection.Refresh` pass that one
  instant on. The source reads `Date.now()` anew for each map entry (line 89), so two
  entries scored milliseconds apart on either side of a day boundary can see different
  day counts. That case is not represented.
- `RelativeTime.FormatDate`: the clock is one instant per label, the parameter `now`.
  The source reads `new Date()` on each call (line 178); the readings of different
  calls are not related to each other or to the scoring's clock.
- `TypographySkillProgress` (lines 191-261) is rendering with float geometry, and
  `repositories.slice(0, 6)` with the repository cards (lines 454-528) is markup.
  `getFallbackSkills` (lines 167-174) is never called.
- The other files of the repository are left out: the WebGL background, smooth scrolling,
  the contact form, the header, hero, about, projects, experience and footer sections,
  routing, and the resume-path helper. They are static content, animation, timers or
  browser plumbing.
