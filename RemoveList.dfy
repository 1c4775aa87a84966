/**
 * The schedule of nodes the merge removes once it is done (AddToRemoveListPy).
 * The schedule never holds a node together with one of its ancestors: removing
 * the ancestor removes the descendant as well.
 */
module RemoveList {
  import opened ObjectGraph

  /** No entry of `s` is an ancestor of another entry. */
  ghost predicate NoNesting(t: Tree, s: seq<Node>)
    requires Valid(t)
  {
    forall x, y :: x in s && y in s ==> !IsAncestor(t, x, y)
  }

  /** Removing the entries of `s` removes `x`: it is an entry or lies below one. */
  ghost predicate Covers(t: Tree, s: seq<Node>, x: Node)
    requires Valid(t)
  {
    x in s || exists y :: y in s && IsAncestor(t, y, x)
  }

  /** The entries of `s` that do not lie below `x`, in order. */
  function Survivors(t: Tree, x: Node, s: seq<Node>): (r: seq<Node>)
    requires Valid(t)
    ensures forall y :: y in r <==> y in s && !IsAncestor(t, x, y)
    ensures |r| <= |s|
  {
    if s == [] then []
    else (if IsAncestor(t, x, s[0]) then [] else [s[0]]) + Survivors(t, x, s[1..])
  }

  /** Each entry that does not lie below `x` survives as often as it occurs. */
  lemma {:induction false} SurvivorsCount(t: Tree, x: Node, s: seq<Node>, y: Node)
    requires Valid(t)
    ensures multiset(Survivors(t, x, s))[y] == if IsAncestor(t, x, y) then 0 else multiset(s)[y]
  {
    if s != [] {
      SurvivorsCount(t, x, s[1..], y);
      var head := if IsAncestor(t, x, s[0]) then [] else [s[0]];
      assert multiset(Survivors(t, x, s)) == multiset(head) + multiset(Survivors(t, x, s[1..]));
      assert multiset(s) == multiset{s[0]} + multiset(s[1..]) by {
        assert s == [s[0]] + s[1..];
      }
    }
  }

  /** Overwriting entry j with the last entry and dropping the last one removes exactly entry j. */
  lemma SwapWithBackPop(s: seq<Node>, j: nat)
    requires j < |s|
    ensures multiset(s[j := s[|s| - 1]][..|s| - 1]) + multiset{s[j]} == multiset(s)
  {
    var n := |s|;
    if j == n - 1 {
      assert s == s[..n - 1] + [s[n - 1]];
    } else {
      assert s[j := s[n - 1]][..n - 1] == s[..j] + [s[n - 1]] + s[j + 1..n - 1];
      assert s == s[..j] + [s[j]] + s[j + 1..n - 1] + [s[n - 1]];
    }
  }

  /**
   * What scheduling `toRemove` on top of `list` produces: nothing but old
   * entries and `toRemove`; everything that was covered stays covered, and so
   * is `toRemove`; no nesting is introduced; an already scheduled ancestor
   * leaves the schedule as it was; otherwise exactly the entries below
   * `toRemove` are dropped and `toRemove` comes last.
   */
  ghost predicate ScheduleUpdate(t: Tree, toRemove: Node, list: seq<Node>, r: seq<Node>)
    requires Valid(t)
  {
    && multiset(r) <= multiset(list) + multiset{toRemove}
    && Covers(t, r, toRemove)
    && (forall x :: x in list ==> Covers(t, r, x))
    && (NoNesting(t, list) ==> NoNesting(t, r))
    && (NoNesting(t, list) && (exists y :: y in list && IsAncestor(t, y, toRemove)) ==> r == list)
    && ((forall y :: y in list ==> !IsAncestor(t, y, toRemove)) ==>
          && |r| > 0 && r[|r| - 1] == toRemove
          && multiset(r) == multiset(Survivors(t, toRemove, list)) + multiset{toRemove})
  }

  /** The entries of the list are split between the current list and the removed ones. */
  lemma SplitMembership(list: seq<Node>, r: seq<Node>, removed: multiset<Node>)
    requires multiset(r) + removed == multiset(list)
    ensures forall x :: x in list <==> x in r || x in removed
    ensures multiset(r) <= multiset(list)
  {
    forall x
      ensures x in list <==> x in r || x in removed
    {
      assert x in list <==> x in multiset(list);
      assert x in r <==> x in multiset(r);
    }
  }

  /** The early return: an entry `y` of the current list is an ancestor of `toRemove`. */
  lemma EarlyReturnIsScheduleUpdate(t: Tree, toRemove: Node, list: seq<Node>, r: seq<Node>,
                                    removed: multiset<Node>, y: Node)
    requires Valid(t)
    requires multiset(r) + removed == multiset(list)
    requires forall x :: x in removed ==> IsAncestor(t, toRemove, x)
    requires removed == multiset{} ==> r == list
    requires y in r && IsAncestor(t, y, toRemove)
    ensures ScheduleUpdate(t, toRemove, list, r)
  {
    SplitMembership(list, r, removed);
    forall x | x in removed
      ensures IsAncestor(t, y, x)
    {
      AncestorTransitive(t, y, toRemove, x);
    }
    assert Covers(t, r, toRemove);
    assert forall x :: x in list ==> Covers(t, r, x);
    assert NoNesting(t, list) ==> NoNesting(t, r);
    assert NoNesting(t, list) ==> removed == multiset{};
  }

  /**
   * Appending `toRemove` to the entries unrelated to it covers it and every
   * entry of the old list, and introduces no nesting.
   */
  lemma AppendKeepsCover(t: Tree, toRemove: Node, list: seq<Node>, r: seq<Node>)
    requires Valid(t)
    requires forall x :: x in list ==> x in r || IsAncestor(t, toRemove, x)
    requires forall x :: x in r ==> x in list
    requires forall k :: 0 <= k < |r| ==> !IsAncestor(t, r[k], toRemove) && !IsAncestor(t, toRemove, r[k])
    ensures Covers(t, r + [toRemove], toRemove)
    ensures forall x :: x in list ==> Covers(t, r + [toRemove], x)
    ensures NoNesting(t, list) ==> NoNesting(t, r + [toRemove])
    ensures forall y :: y in list ==> !IsAncestor(t, y, toRemove)
  {
    var r' := r + [toRemove];
    AncestorIrreflexive(t, toRemove);
    assert forall x :: x in r' <==> x in r || x == toRemove;
    forall x | x in list
      ensures Covers(t, r', x) && !IsAncestor(t, x, toRemove)
    {
      if IsAncestor(t, toRemove, x) {
        AncestorAsymmetric(t, toRemove, x);
      }
    }
    if NoNesting(t, list) {
      forall x, y | x in r' && y in r'
        ensures !IsAncestor(t, x, y)
      {
      }
    }
  }

  /** The normal end: every remaining entry is unrelated to `toRemove`, which is appended. */
  lemma AppendIsScheduleUpdate(t: Tree, toRemove: Node, list: seq<Node>, r: seq<Node>,
                               removed: multiset<Node>)
    requires Valid(t)
    requires multiset(r) + removed == multiset(list)
    requires forall x :: x in removed ==> IsAncestor(t, toRemove, x)
    requires forall k :: 0 <= k < |r| ==> !IsAncestor(t, r[k], toRemove) && !IsAncestor(t, toRemove, r[k])
    ensures ScheduleUpdate(t, toRemove, list, r + [toRemove])
  {
    SplitMembership(list, r, removed);
    AppendKeepsCover(t, toRemove, list, r);
    KeptAreSurvivors(t, toRemove, list, r, removed);
    assert multiset(r + [toRemove]) == multiset(r) + multiset{toRemove};
  }

  /** What is left once the entries below `toRemove` are removed are the survivors, as a multiset. */
  lemma KeptAreSurvivors(t: Tree, toRemove: Node, list: seq<Node>, r: seq<Node>, removed: multiset<Node>)
    requires Valid(t)
    requires multiset(r) + removed == multiset(list)
    requires forall x :: x in removed ==> IsAncestor(t, toRemove, x)
    requires forall k :: 0 <= k < |r| ==> !IsAncestor(t, toRemove, r[k])
    ensures multiset(r) == multiset(Survivors(t, toRemove, list))
  {
    forall y
      ensures multiset(r)[y] == multiset(Survivors(t, toRemove, list))[y]
    {
      SurvivorsCount(t, toRemove, list, y);
      if IsAncestor(t, toRemove, y) {
        assert y !in r;
      } else {
        assert y !in removed;
      }
    }
  }

  /**
   * Schedules `toRemove` for removal (AddToRemoveListPy). An entry that is an
   * ancestor of `toRemove` makes the call return at once; an entry that lies
   * below `toRemove` is overwritten by the last entry, which is then dropped;
   * when the scan ends, `toRemove` is appended. The caller's vector is edited
   * in place; here the edited vector is returned.
   */
  method AddToRemoveList(t: Tree, toRemove: Node, list: seq<Node>) returns (r: seq<Node>)
    requires Valid(t)
    ensures ScheduleUpdate(t, toRemove, list, r)
  {
    r := list;
    var count := |r|;
    var j := 0;
    ghost var removed: multiset<Node> := multiset{};
    while j < count
      invariant count == |r| && j <= count
      invariant multiset(r) + removed == multiset(list)
      invariant forall x :: x in removed ==> IsAncestor(t, toRemove, x)
      invariant forall k :: 0 <= k < j ==> !IsAncestor(t, r[k], toRemove) && !IsAncestor(t, toRemove, r[k])
      invariant removed == multiset{} ==> r == list
    {
      if IsAncestor(t, r[j], toRemove) {
        // an ancestor is already scheduled: nothing to do
        EarlyReturnIsScheduleUpdate(t, toRemove, list, r, removed, r[j]);
        return;
      } else if IsAncestor(t, toRemove, r[j]) {
        // the descendant need not be kept
        SwapWithBackPop(r, j);
        removed := removed + multiset{r[j]};
        r := r[j := r[|r| - 1]][..|r| - 1];
        count := count - 1;
      } else {
        j := j + 1;
      }
    }
    AppendIsScheduleUpdate(t, toRemove, list, r, removed);
    r := r + [toRemove];
  }

  /** Every element occurs at most once. */
  ghost predicate NoDuplicates(s: seq<Node>) {
    forall x :: multiset(s)[x] <= 1
  }

  /**
   * Removing the entries of a schedule without nesting or repetition one after
   * the other never meets an entry that an earlier removal already took away.
   */
  lemma RemovalsAreSafe(t: Tree, xs: seq<Node>)
    requires Valid(t) && NoNesting(t, xs) && NoDuplicates(xs)
    ensures forall k :: 0 <= k < |xs| && xs[k] in t.nodes ==> xs[k] in DetachAll(t, xs[..k]).nodes
  {
    forall k | 0 <= k < |xs| && xs[k] in t.nodes
      ensures xs[k] in DetachAll(t, xs[..k]).nodes
    {
      DetachAllKeeps(t, xs[..k]);
      forall x | x in xs[..k]
        ensures Survives(t, x, xs[k])
      {
        NotInPrefix(xs, k);
      }
    }
  }

  /**
   * `isAncestorOf` is strict, so scheduling a node that is already scheduled
   * appends it a second time: the schedule repeats it, and once its first
   * occurrence has been removed it is no longer in the tree when its second
   * turn comes.
   */
  lemma RescheduledTwice(t: Tree, x: Node, r: seq<Node>)
    requires Valid(t) && x in t.nodes && ScheduleUpdate(t, x, [x], r)
    ensures multiset(r)[x] == 2 && !NoDuplicates(r)
    ensures x !in DetachAll(t, [x]).nodes
  {
    AncestorIrreflexive(t, x);
    assert Survivors(t, x, [x]) == [x];
    DetachAllKeeps(t, [x]);
  }

  /**
   * AddToRemoveListPy as evidently intended: a node already scheduled is not
   * scheduled again. A schedule without nesting or repetition keeps both.
   */
  method AddToRemoveListOnce(t: Tree, toRemove: Node, list: seq<Node>) returns (r: seq<Node>)
    requires Valid(t)
    ensures toRemove in list ==> r == list
    ensures toRemove !in list ==> ScheduleUpdate(t, toRemove, list, r)
    ensures Covers(t, r, toRemove) && forall x :: x in list ==> Covers(t, r, x)
    ensures NoNesting(t, list) && NoDuplicates(list) ==> NoNesting(t, r) && NoDuplicates(r)
  {
    if toRemove in list {
      return list;
    }
    r := AddToRemoveList(t, toRemove, list);
    if NoNesting(t, list) && NoDuplicates(list) {
      UpdateKeepsUnique(t, toRemove, list, r);
    }
  }

  /** Scheduling a node not yet in a schedule without nesting or repetition repeats nothing. */
  lemma UpdateKeepsUnique(t: Tree, toRemove: Node, list: seq<Node>, r: seq<Node>)
    requires Valid(t) && toRemove !in list && NoNesting(t, list) && NoDuplicates(list)
    requires ScheduleUpdate(t, toRemove, list, r)
    ensures NoDuplicates(r)
  {
    if forall y :: y in list ==> !IsAncestor(t, y, toRemove) {
      forall y
        ensures multiset(r)[y] <= 1
      {
        SurvivorsCount(t, toRemove, list, y);
      }
    }
  }

  /** An element of a sequence without repetitions does not occur before its position. */
  lemma NotInPrefix(xs: seq<Node>, k: nat)
    requires NoDuplicates(xs) && k < |xs|
    ensures xs[k] !in xs[..k]
  {
    assert xs == xs[..k] + xs[k..];
    assert multiset(xs)[xs[k]] == multiset(xs[..k])[xs[k]] + multiset(xs[k..])[xs[k]];
    assert xs[k..][0] == xs[k];
  }
}
