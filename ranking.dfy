/** Ordering the scored skills and cutting the list for display. */
module Ranking {
  import opened Scoring

  /** The sort comparator `(a, b) => b.level - a.level || b.repos - a.repos`: a negative
      result puts `a` first, a positive one `b`. */
  function Compare(a: SkillData, b: SkillData): int
  {
    if b.level - a.level != 0 then b.level - a.level else b.repos - a.repos
  }

  /** `a` may stand before `b` in a list the comparator accepts as sorted. */
  predicate InOrder(a: SkillData, b: SkillData)
  {
    Compare(a, b) <= 0
  }

  /** Higher level first; on equal levels, more repositories first. */
  lemma InOrderMeaning(a: SkillData, b: SkillData)
    ensures InOrder(a, b) <==> a.level > b.level || (a.level == b.level && a.repos >= b.repos)
  {
  }

  /** The comparator is consistent, as `Array.prototype.sort` requires: antisymmetric,
      and `InOrder` is a total preorder. */
  lemma ComparatorConsistent(a: SkillData, b: SkillData, c: SkillData)
    ensures Compare(a, b) == -Compare(b, a)
    ensures InOrder(a, b) || InOrder(b, a)
    ensures InOrder(a, b) && InOrder(b, c) ==> InOrder(a, c)
  {
  }

  predicate Sorted(s: seq<SkillData>)
  {
    forall i, j :: 0 <= i < j < |s| ==> InOrder(s[i], s[j])
  }

  /** A sorted list has every neighbouring pair either strictly decreasing in level, or
      level-equal and non-increasing in repositories. */
  lemma SortedNeighbours(s: seq<SkillData>, i: int)
    requires Sorted(s) && 0 <= i < |s| - 1
    ensures s[i].level > s[i + 1].level || (s[i].level == s[i + 1].level && s[i].repos >= s[i + 1].repos)
  {
    assert InOrder(s[i], s[i + 1]);
  }

  /** `a` and `b` tie under the comparator: equal level and equal repository count. */
  predicate SameRank(a: SkillData, b: SkillData)
  {
    a.level == b.level && a.repos == b.repos
  }

  /** The skills of `s` that tie with `x`, in their order in `s`. */
  function Ties(s: seq<SkillData>, x: SkillData): seq<SkillData>
  {
    if |s| == 0 then []
    else Ties(s[..|s| - 1], x) + (if SameRank(s[|s| - 1], x) then [s[|s| - 1]] else [])
  }

  /** `t` lists every group of tied skills of `s` in the order `s` lists it: what a stable
      sort promises. */
  ghost predicate KeepsTieOrder(s: seq<SkillData>, t: seq<SkillData>)
  {
    forall x :: Ties(t, x) == Ties(s, x)
  }

  lemma {:induction false} TiesConcat(a: seq<SkillData>, b: seq<SkillData>, x: SkillData)
    ensures Ties(a + b, x) == Ties(a, x) + Ties(b, x)
  {
    if |b| == 0 {
      assert a + b == a;
    } else {
      assert (a + b)[..|a + b| - 1] == a + b[..|b| - 1];
      TiesConcat(a, b[..|b| - 1], x);
    }
  }

  /** Every skill in a tie group of `s` is a skill of `s`. */
  lemma {:induction false} TiesMembers(s: seq<SkillData>, x: SkillData)
    ensures forall z :: z in Ties(s, x) ==> z in s
  {
    if |s| > 0 {
      TiesMembers(s[..|s| - 1], x);
    }
  }

  /** Swapping two neighbours that do not tie keeps every tie group's order. */
  lemma SwapKeepsTies(s: seq<SkillData>, j: int)
    requires 0 < j < |s| && !SameRank(s[j - 1], s[j])
    ensures KeepsTieOrder(s, s[j - 1 := s[j]][j := s[j - 1]])
  {
    var t := s[j - 1 := s[j]][j := s[j - 1]];
    var p, u, v, q := s[..j - 1], s[j - 1], s[j], s[j + 1..];
    assert s == p + [u, v] + q;
    assert t == p + [v, u] + q;
    assert [u, v][..1] == [u] && [v, u][..1] == [v];
    forall x ensures Ties(t, x) == Ties(s, x) {
      TiesConcat(p + [u, v], q, x);
      TiesConcat(p, [u, v], x);
      TiesConcat(p + [v, u], q, x);
      TiesConcat(p, [v, u], x);
      assert Ties([u, v], x) == Ties([v, u], x);
    }
  }

  /** `skillsData.sort(...)`, in place and stable: the array ends sorted by the comparator,
      holds the same skills, and skills that tie keep their relative order. */
  method SortSkills(a: array<SkillData>)
    modifies a
    ensures Sorted(a[..])
    ensures multiset(a[..]) == multiset(old(a[..]))
    ensures KeepsTieOrder(old(a[..]), a[..])
  {
    var i := 0;
    while i < a.Length
      invariant 0 <= i <= a.Length
      invariant Sorted(a[..i])
      invariant multiset(a[..]) == multiset(old(a[..]))
      invariant KeepsTieOrder(old(a[..]), a[..])
    {
      InsertAt(a, i);
      i := i + 1;
    }
    assert a[..i] == a[..];
  }

  /** Moves `a[i]` left past every skill that must follow it, extending the sorted prefix
      by one. Only the prefix `a[..i + 1]` is rearranged, and only skills that do not tie
      are swapped. */
  method InsertAt(a: array<SkillData>, i: int)
    requires 0 <= i < a.Length && Sorted(a[..i])
    modifies a
    ensures Sorted(a[..i + 1])
    ensures multiset(a[..i + 1]) == multiset(old(a[..i + 1]))
    ensures a[i + 1..] == old(a[i + 1..])
    ensures multiset(a[..]) == multiset(old(a[..]))
    ensures KeepsTieOrder(old(a[..]), a[..])
  {
    var j := i;
    InsertionStart(a[..], i);
    while j > 0 && !InOrder(a[j - 1], a[j])
      invariant Inserting(a[..], i, j)
      invariant multiset(a[..]) == multiset(old(a[..]))
      invariant a[i + 1..] == old(a[i + 1..])
      invariant KeepsTieOrder(old(a[..]), a[..])
    {
      ghost var before := a[..];
      a[j - 1], a[j] := a[j], a[j - 1];
      assert a[..] == before[j - 1 := before[j]][j := before[j - 1]];
      SwapStep(before, i, j);
      j := j - 1;
    }
    InsertionDone(a[..], i, j);
    SamePrefixElements(old(a[..]), a[..], i + 1);
  }

  /** The state of the insertion of `s[i]` while it stands at `j`: the prefix up to `i`
      without position `j` is in order, and `s[j]` is in order with everything after it. */
  predicate Inserting(s: seq<SkillData>, i: int, j: int)
  {
    && 0 <= j <= i < |s|
    && (forall k, l :: 0 <= k < l <= i && k != j && l != j ==> InOrder(s[k], s[l]))
    && (forall l :: j < l <= i ==> InOrder(s[j], s[l]))
  }

  lemma InsertionStart(s: seq<SkillData>, i: int)
    requires 0 <= i < |s| && Sorted(s[..i])
    ensures Inserting(s, i, i)
  {
    assert forall k :: 0 <= k < i ==> s[..i][k] == s[k];
  }

  /** Once `s[j]` is in order with its left neighbour, or first, the prefix is sorted. */
  lemma InsertionDone(s: seq<SkillData>, i: int, j: int)
    requires Inserting(s, i, j) && (j == 0 || InOrder(s[j - 1], s[j]))
    ensures Sorted(s[..i + 1])
  {
    forall k, l | 0 <= k < l <= i ensures InOrder(s[k], s[l]) {
      if l == j && k < j - 1 {
        ComparatorConsistent(s[k], s[j - 1], s[j]);
      }
    }
  }

  /** Two lists with the same elements and the same suffix from `n` on have the same
      elements before `n`. */
  lemma SamePrefixElements(s: seq<SkillData>, t: seq<SkillData>, n: int)
    requires 0 <= n <= |s| == |t| && multiset(s) == multiset(t) && s[n..] == t[n..]
    ensures multiset(s[..n]) == multiset(t[..n])
  {
    assert s == s[..n] + s[n..] && t == t[..n] + t[n..];
    assert multiset(s) == multiset(s[..n]) + multiset(s[n..]);
    assert multiset(t) == multiset(t[..n]) + multiset(t[n..]);
    assert multiset(s[..n]) == multiset(s) - multiset(s[n..]);
  }

  /** One swap of the insertion, on the array's contents: the skill moving left is in
      order with everything after its new place, the rest of the prefix stays in order,
      and contents, suffix and tie groups are kept. */
  lemma SwapStep(s: seq<SkillData>, i: int, j: int)
    requires Inserting(s, i, j) && 0 < j && !InOrder(s[j - 1], s[j])
    ensures var t := s[j - 1 := s[j]][j := s[j - 1]];
      && Inserting(t, i, j - 1)
      && multiset(t) == multiset(s)
      && t[i + 1..] == s[i + 1..]
      && KeepsTieOrder(s, t)
  {
    var t := s[j - 1 := s[j]][j := s[j - 1]];
    forall l | j - 1 < l <= i ensures InOrder(t[j - 1], t[l]) {
      if l > j {
        ComparatorConsistent(s[j], s[j - 1], s[l]);
      }
    }
    SwapKeepsTies(s, j);
  }

  /** A sorted list is fixed by its tie groups: two sorted lists whose tie groups agree
      are equal. */
  lemma {:induction false} SortedTiesUnique(t: seq<SkillData>, u: seq<SkillData>)
    requires Sorted(t) && Sorted(u) && KeepsTieOrder(t, u)
    ensures t == u
    decreases |t|
  {
    if |u| > 0 {
      var y := u[|u| - 1];
      assert Ties(u, y) == Ties(u[..|u| - 1], y) + [y];
      TiesMembers(t, y);
      assert y in t;
    }
    if |t| > 0 {
      var x := t[|t| - 1];
      assert Ties(t, x) == Ties(t[..|t| - 1], x) + [x];
      TiesMembers(u, x);
      assert x in u;
    }
    if |t| > 0 {
      var t', x := t[..|t| - 1], t[|t| - 1];
      var u', y := u[..|u| - 1], u[|u| - 1];
      assert InOrder(y, x) by {
        var k :| 0 <= k < |t| && t[k] == y;
        assert k == |t| - 1 || InOrder(t[k], t[|t| - 1]);
      }
      assert InOrder(x, y) by {
        var k :| 0 <= k < |u| && u[k] == x;
        assert k == |u| - 1 || InOrder(u[k], u[|u| - 1]);
      }
      assert SameRank(y, x);
      assert Ties(u, x) == Ties(u', x) + [y];
      assert x == y by {
        assert Ties(t, x) == Ties(t', x) + [x];
        assert Ties(t, x)[|Ties(t, x)| - 1] == x;
      }
      forall z ensures Ties(u', z) == Ties(t', z) {
        var e := if SameRank(x, z) then [x] else [];
        assert Ties(t, z) == Ties(t', z) + e;
        assert Ties(u, z) == Ties(u', z) + e;
        assert Ties(t', z) == Ties(t, z)[..|Ties(t, z)| - |e|];
        assert Ties(u', z) == Ties(u, z)[..|Ties(u, z)| - |e|];
      }
      SortedTiesUnique(t', u');
      assert t == t' + [x] && u == u' + [y];
    }
  }

  /** There is exactly one stable sort of a list: any two sorted lists that keep its tie
      order are equal. */
  lemma StableSortUnique(s: seq<SkillData>, t: seq<SkillData>, u: seq<SkillData>)
    requires Sorted(t) && KeepsTieOrder(s, t)
    requires Sorted(u) && KeepsTieOrder(s, u)
    ensures t == u
  {
    SortedTiesUnique(t, u);
  }

  /** The number of skills shown. */
  const MaxDisplayed := 15

  /** `skills.slice(0, 15)`. */
  function Displayed(skills: seq<SkillData>): (shown: seq<SkillData>)
    ensures |shown| == if |skills| < MaxDisplayed then |skills| else MaxDisplayed
    ensures shown == skills[..|shown|]
  {
    if |skills| < MaxDisplayed then skills else skills[..MaxDisplayed]
  }

  /** The shown skills of a sorted list are themselves sorted and rank at least as high as
      every skill left out. */
  lemma DisplayedAreTop(skills: seq<SkillData>)
    requires Sorted(skills)
    ensures Sorted(Displayed(skills))
    ensures forall i, j :: 0 <= i < |Displayed(skills)| <= j < |skills| ==> InOrder(Displayed(skills)[i], skills[j])
  {
  }
}
