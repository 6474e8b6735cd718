/** The fixed table of icon, experience and category per language (`getSkillInfo`). */
module SkillCatalog {

  datatype SkillInfo = SkillInfo(icon: string, experience: string, category: string)

  /** The ten languages the table lists. */
  const KnownLanguages: set<string> :=
    {"Java", "JavaScript", "TypeScript", "Python", "HTML", "CSS", "SQL", "Shell", "Dockerfile", "YAML"}

  const Categories: set<string> := {"Backend", "Frontend", "Database", "DevOps", "Other"}

  const Experiences: set<string> := {"3+ years", "2+ years", "1+ year"}

  /** The entry used for every language the table does not list. */
  const Fallback := SkillInfo("\U{1F4BB}", "1+ year", "Other")

  /** The table lookup, falling back to the laptop entry for an unlisted name. */
  function SkillInfoFor(language: string): SkillInfo
  {
    if language == "Java" then SkillInfo("\U{2615}", "3+ years", "Backend")
    else if language == "JavaScript" then SkillInfo("\U{26A1}", "2+ years", "Frontend")
    else if language == "TypeScript" then SkillInfo("\U{1F537}", "1+ year", "Frontend")
    else if language == "Python" then SkillInfo("\U{1F40D}", "2+ years", "Backend")
    else if language == "HTML" then SkillInfo("\U{1F310}", "2+ years", "Frontend")
    else if language == "CSS" then SkillInfo("\U{1F3A8}", "2+ years", "Frontend")
    else if language == "SQL" then SkillInfo("\U{1F5C4}\U{FE0F}", "2+ years", "Database")
    else if language == "Shell" then SkillInfo("\U{1F41A}", "1+ year", "DevOps")
    else if language == "Dockerfile" then SkillInfo("\U{1F433}", "1+ year", "DevOps")
    else if language == "YAML" then SkillInfo("\U{1F4C4}", "1+ year", "DevOps")
    else Fallback
  }

  /** A listed language gets its own entry and every other name the fallback; the
      categories are the five the table uses. */
  lemma SkillInfoTable(language: string)
    ensures SkillInfoFor(language) == Fallback <==> language !in KnownLanguages
    ensures SkillInfoFor(language).category == "Other" <==> language !in KnownLanguages
    ensures SkillInfoFor(language).category in Categories
    ensures SkillInfoFor(language).experience in Experiences
    ensures language in {"Java", "Python"} ==> SkillInfoFor(language).category == "Backend"
    ensures language in {"JavaScript", "TypeScript", "HTML", "CSS"} ==> SkillInfoFor(language).category == "Frontend"
    ensures language in {"Shell", "Dockerfile", "YAML"} ==> SkillInfoFor(language).category == "DevOps"
    ensures language == "SQL" ==> SkillInfoFor(language).category == "Database"
  {
  }
}
