/**
 The first loop of `resolve_fixes` as a least fixed point: one pass from the
 oldest to the newest commit resolves fix chains of any length.
 */
module PickFixes {
  import opened Common
  import opened Pick

  /** `x` holds every nominated commit, and every fix of something in `x` or in `base`. */
  predicate Closed(cs: seq<Record>, base: set<Sha>, x: set<Sha>) {
    forall i :: 0 <= i < |cs| ==>
      && (cs[i].nominated ==> cs[i].sha in x)
      && (cs[i].nominationType == Some(FIXES) && cs[i].becauseSha.Some? && cs[i].becauseSha.value in base + x ==>
            cs[i].sha in x)
  }

  /** `s` is the least closed set. */
  ghost predicate LeastClosed(cs: seq<Record>, base: set<Sha>, s: set<Sha>) {
    Closed(cs, base, s) && forall x :: Closed(cs, base, x) ==> s <= x
  }

  /** Pending fixes of a commit of the list fix an older one (or themselves). */
  predicate FixesOlder(cs: seq<Record>) {
    forall i, j :: 0 <= i < |cs| && 0 <= j < |cs| && Pending(cs[i]) && cs[i].becauseSha == Some(cs[j].sha) ==> i <= j
  }

  /** Commits of the list, each a pending fix of the next, down to one nominated on its own or fixing `base`. */
  predicate Chain(cs: seq<Record>, base: set<Sha>, path: seq<nat>) {
    && path != []
    && (forall k :: 0 <= k < |path| ==> path[k] < |cs|)
    && (forall k :: 0 <= k < |path| - 1 ==>
          Pending(cs[path[k]]) && cs[path[k]].becauseSha == Some(cs[path[k + 1]].sha))
    && var last := cs[path[|path| - 1]];
       last.nominated || (Pending(last) && Because(last, base))
  }

  /** The commit is to be nominated: a chain of fixes of any length leads to the reason. */
  ghost predicate Due(cs: seq<Record>, base: set<Sha>, i: nat) {
    exists path :: Chain(cs, base, path) && path[0] == i
  }

  /** A pending fix, listed as older, of a commit that is to be nominated and was not nominated before. */
  ghost predicate Backward(cs: seq<Record>, base: set<Sha>, i: nat, j: nat)
    requires j < i < |cs|
  {
    Pending(cs[i]) && cs[i].becauseSha == Some(cs[j].sha) && cs[j].sha !in base && Due(cs, base, j)
  }

  /** What the pass misses: it nominates the newer commit but does not reach the fix. */
  predicate Overlooked(cs: seq<Record>, base: set<Sha>, i: nat)
    requires i < |cs|
  {
    && Pending(cs[i]) && cs[i].sha !in Noms(PassOne(cs, base))
    && exists j :: 0 <= j < i && cs[i].becauseSha == Some(cs[j].sha) && PassOne(cs, base)[j].nominated
  }

  lemma Member(cs: seq<Record>, i: nat)
    requires i < |cs| && cs[i].nominated
    ensures cs[i].sha in Noms(cs)
  {
    assert cs[i] in cs;
  }

  /** The pass never nominates more than it must, in whatever order the list is. */
  lemma {:induction false} PassOneIsSound(cs: seq<Record>, base: set<Sha>, x: set<Sha>)
    requires Closed(cs, base, x)
    ensures Noms(PassOne(cs, base)) <= x
  {
    if cs != [] {
      assert Closed(cs[1..], base, x) by {
        forall i | 0 <= i < |cs| - 1
          ensures cs[1..][i].nominated ==> cs[1..][i].sha in x
          ensures Pending(cs[1..][i]) && Because(cs[1..][i], base + x) ==> cs[1..][i].sha in x
        {
          assert cs[1..][i] == cs[i + 1];
        }
      }
      PassOneIsSound(cs[1..], base, x);
      var older := PassOne(cs[1..], base);
      var first := Promote(cs[0], base + Noms(older));
      NomsConcat([first], older);
      assert PassOne(cs, base) == [first] + older;
    }
  }

  /** The result is closed exactly when nothing is overlooked. */
  lemma PassOneClosedIff(cs: seq<Record>, base: set<Sha>)
    ensures Closed(cs, base, Noms(PassOne(cs, base))) <==>
            forall i :: 0 <= i < |cs| ==> !Overlooked(cs, base, i)
  {
    var r := PassOne(cs, base);
    var s := Noms(r);
    if forall i :: 0 <= i < |cs| ==> !Overlooked(cs, base, i) {
      forall i | 0 <= i < |cs|
        ensures cs[i].nominated ==> cs[i].sha in s
        ensures Pending(cs[i]) && Because(cs[i], base + s) ==> cs[i].sha in s
      {
        ClosedAt(cs, base, i);
      }
    }
    forall i | 0 <= i < |cs| && Overlooked(cs, base, i)
      ensures !Closed(cs, base, s)
    {
      var j :| 0 <= j < i && cs[i].becauseSha == Some(cs[j].sha) && r[j].nominated;
      PassOneAt(cs, base, j);
      Member(r, j);
      assert Because(cs[i], base + s);
    }
  }

  lemma ClosedAt(cs: seq<Record>, base: set<Sha>, i: nat)
    requires i < |cs| && !Overlooked(cs, base, i)
    ensures var s := Noms(PassOne(cs, base));
            && (cs[i].nominated ==> cs[i].sha in s)
            && (Pending(cs[i]) && Because(cs[i], base + s) ==> cs[i].sha in s)
  {
    var r := PassOne(cs, base);
    var s := Noms(r);
    PassOneAt(cs, base, i);
    if Pending(cs[i]) && Because(cs[i], s) {
      var j := NomsIndex(r, cs[i].becauseSha.value);
      PassOneAt(cs, base, j);
      if j > i {
        assert r[i + 1..][j - i - 1] == r[j];
        Member(r[i + 1..], j - i - 1);
      }
    }
    if r[i].nominated {
      Member(r, i);
    }
  }

  // ------------------------------------------------- what has to be nominated

  lemma {:induction false} ChainForces(cs: seq<Record>, base: set<Sha>, path: seq<nat>, x: set<Sha>)
    requires Chain(cs, base, path) && Closed(cs, base, x)
    ensures cs[path[0]].sha in x
    decreases |path|
  {
    if |path| > 1 {
      assert Chain(cs, base, path[1..]) by {
        assert forall k :: 0 <= k < |path| - 1 ==> path[1..][k] == path[k + 1];
      }
      ChainForces(cs, base, path[1..], x);
    }
  }

  lemma DueForced(cs: seq<Record>, base: set<Sha>, i: nat, x: set<Sha>)
    requires i < |cs| && Due(cs, base, i) && Closed(cs, base, x)
    ensures cs[i].sha in x
  {
    var path :| Chain(cs, base, path) && path[0] == i;
    ChainForces(cs, base, path, x);
  }

  ghost function AllDue(cs: seq<Record>, base: set<Sha>): set<Sha> {
    set i | 0 <= i < |cs| && Due(cs, base, i) :: cs[i].sha
  }

  /** A fix of something due is due. */
  lemma {:induction false} ChainExtends(cs: seq<Record>, base: set<Sha>, i: nat, j: nat)
    requires i < |cs| && j < |cs| && Pending(cs[i]) && cs[i].becauseSha == Some(cs[j].sha) && Due(cs, base, j)
    ensures Due(cs, base, i)
  {
    var path :| Chain(cs, base, path) && path[0] == j;
    var longer := [i] + path;
    assert forall k :: 1 <= k < |longer| ==> longer[k] == path[k - 1];
    assert Chain(cs, base, longer) && longer[0] == i;
  }

  /** The commits that are due form the least closed set. */
  lemma DueIsLeast(cs: seq<Record>, base: set<Sha>)
    ensures LeastClosed(cs, base, AllDue(cs, base))
  {
    var due := AllDue(cs, base);
    forall i | 0 <= i < |cs|
      ensures cs[i].nominated ==> cs[i].sha in due
      ensures Pending(cs[i]) && Because(cs[i], base + due) ==> cs[i].sha in due
    {
      if cs[i].nominated || (Pending(cs[i]) && Because(cs[i], base)) {
        assert Chain(cs, base, [i]) && [i][0] == i;
      } else if Pending(cs[i]) && Because(cs[i], due) {
        var j :| 0 <= j < |cs| && Due(cs, base, j) && cs[j].sha == cs[i].becauseSha.value;
        ChainExtends(cs, base, i, j);
      }
    }
    forall x | Closed(cs, base, x) ensures due <= x {
      forall i | 0 <= i < |cs| && Due(cs, base, i) ensures cs[i].sha in x {
        DueForced(cs, base, i, x);
      }
    }
  }

  lemma DistinctIndex(cs: seq<Record>, i: nat, j: nat)
    requires DistinctShas(cs) && i < |cs| && j < |cs| && cs[i].sha == cs[j].sha
    ensures i == j
  {
  }

  /** Whatever the pass nominates is due. */
  lemma NominatedIsDue(cs: seq<Record>, base: set<Sha>, j: nat)
    requires DistinctShas(cs) && j < |cs| && PassOne(cs, base)[j].nominated
    ensures Due(cs, base, j)
  {
    DueIsLeast(cs, base);
    PassOneIsSound(cs, base, AllDue(cs, base));
    PassOneAt(cs, base, j);
    Member(PassOne(cs, base), j);
    var i :| 0 <= i < |cs| && Due(cs, base, i) && cs[i].sha == cs[j].sha;
    DistinctIndex(cs, i, j);
  }

  /** The pass does not nominate a fix of a commit listed as newer, unless that was nominated before. */
  lemma NotReached(cs: seq<Record>, base: set<Sha>, i: nat, j: nat)
    requires DistinctShas(cs) && j < i < |cs|
    requires Pending(cs[i]) && cs[i].becauseSha == Some(cs[j].sha) && cs[j].sha !in base
    ensures cs[i].sha !in Noms(PassOne(cs, base))
  {
    var r := PassOne(cs, base);
    PassOneAt(cs, base, i);
    if cs[j].sha in Noms(r[i + 1..]) {
      var k := NomsIndex(r[i + 1..], cs[j].sha);
      PassOneAt(cs, base, i + 1 + k);
      DistinctIndex(cs, i + 1 + k, j);
      assert false;
    }
    if cs[i].sha in Noms(r) {
      var k := NomsIndex(r, cs[i].sha);
      PassOneAt(cs, base, k);
      DistinctIndex(cs, k, i);
      assert false;
    }
  }

  lemma OverlookedIsBackward(cs: seq<Record>, base: set<Sha>, i: nat) returns (j: nat)
    requires DistinctShas(cs) && i < |cs| && Overlooked(cs, base, i)
    ensures j < i && Backward(cs, base, i, j)
  {
    var r := PassOne(cs, base);
    j :| 0 <= j < i && cs[i].becauseSha == Some(cs[j].sha) && r[j].nominated;
    NominatedIsDue(cs, base, j);
    PassOneAt(cs, base, i);
    if cs[j].sha in base {
      Member(r, i);
      assert false;
    }
  }

  /**
   For lists in any order: the pass computes the least fixed point exactly when no
   commit that is due has a pending fix listed as older than itself.
   */
  lemma PassOneIsLeastIff(cs: seq<Record>, base: set<Sha>)
    requires DistinctShas(cs)
    ensures LeastClosed(cs, base, Noms(PassOne(cs, base))) <==>
            forall i, j :: 0 <= j < i < |cs| ==> !Backward(cs, base, i, j)
  {
    var s := Noms(PassOne(cs, base));
    PassOneClosedIff(cs, base);
    forall x | Closed(cs, base, x) ensures s <= x {
      PassOneIsSound(cs, base, x);
    }
    if i :| 0 <= i < |cs| && Overlooked(cs, base, i) {
      var j := OverlookedIsBackward(cs, base, i);
    }
    forall i, j | 0 <= j < i < |cs| && Backward(cs, base, i, j) ensures !Closed(cs, base, s) {
      NotReached(cs, base, i, j);
      if Closed(cs, base, s) {
        DueForced(cs, base, j, s);
        assert false;
      }
    }
  }

  /** In a history where fixes follow what they fix, one pass computes the least fixed point. */
  lemma SinglePassClosure(cs: seq<Record>, base: set<Sha>)
    requires FixesOlder(cs)
    ensures LeastClosed(cs, base, Noms(PassOne(cs, base)))
    ensures Noms(PassOne(cs, base)) == AllDue(cs, base)
  {
    PassOneClosedIff(cs, base);
    forall x | Closed(cs, base, x) ensures Noms(PassOne(cs, base)) <= x {
      PassOneIsSound(cs, base, x);
    }
    DueIsLeast(cs, base);
  }

  /** Listed the other way round, the same two commits are not resolved. */
  lemma FixListedBeforeItsCause()
    ensures var cause := NewRecord("a", "").(nominated := true, nominationType := Some(CC));
            var fix := NewRecord("b", "").(nominationType := Some(FIXES), becauseSha := Some("a"));
            && Noms(PassOne([fix, cause], {})) == {"a", "b"}
            && Noms(PassOne([cause, fix], {})) == {"a"}
            && !LeastClosed([cause, fix], {}, Noms(PassOne([cause, fix], {})))
  {
    var cause := NewRecord("a", "").(nominated := true, nominationType := Some(CC));
    var fix := NewRecord("b", "").(nominationType := Some(FIXES), becauseSha := Some("a"));
    var fixed := fix.(nominated := true);
    assert [fix, cause][1..] == [cause] && [cause, fix][1..] == [fix] && [cause][1..] == [] && [fix][1..] == [];
    assert PassOne([cause], {}) == [cause] && PassOne([fix], {}) == [fix];
    assert Noms([cause]) == {"a"} by { assert cause in [cause]; }
    assert PassOne([fix, cause], {}) == [fixed, cause];
    assert Noms([fixed, cause]) == {"a", "b"} by { assert fixed in [fixed, cause] && cause in [fixed, cause]; }
    assert PassOne([cause, fix], {}) == [cause, fix];
    assert Noms([cause, fix]) == {"a"} by { assert cause in [cause, fix]; }
    assert Chain([cause, fix], {}, [0]) && [0][0] == 0;
    assert Backward([cause, fix], {}, 1, 0);
    PassOneIsLeastIff([cause, fix], {});
  }
}
