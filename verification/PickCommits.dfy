/**
 The picker's `Commit` objects and the loops that change them in place, proved
 against the functions of module `Pick`.
 */
module PickCommits {
  import opened Common
  import opened Pick

  class Commit {
    const sha: Sha
    const description: string
    var nominated: bool
    var nominationType: Option<NominationType>
    var resolution: Resolution
    var masterSha: Option<Sha>
    var becauseSha: Option<Sha>

    constructor (sha: Sha, description: string)
      ensures Value() == NewRecord(sha, description)
    {
      this.sha, this.description := sha, description;
      nominated, nominationType, resolution := false, None, UNRESOLVED;
      masterSha, becauseSha := None, None;
    }

    ghost function Value(): Record
      reads this
    {
      Record(sha, description, nominated, nominationType, resolution, masterSha, becauseSha)
    }

    /** The body of `resolve_nomination`; its waiting points are the subject of module `PickGather`. */
    method ResolveNomination(git: Git, version: string)
      modifies this
      ensures Value() == Pick.ResolveNomination(git, version, old(Value()))
    {
      var out := git.message(sha);
      if out.fix.Some? {
        var fixed := git.fullSha(out.fix.value);
        if fixed.Some? {
          becauseSha := fixed;
          nominationType := Some(FIXES);
          if git.inBranch(fixed.value) {
            nominated := true;
            return;
          }
        }
      }
      if out.cc.Some? {
        var groups := out.cc.value;
        if groups == (None, None) || Some(version) == groups.0 || Some(version) == groups.1 {
          nominated := true;
          nominationType := Some(CC);
          return;
        }
      }
      if out.revert.Some? {
        var reverted := git.fullSha(out.revert.value);
        if reverted.Some? {
          becauseSha := reverted;
          nominationType := Some(REVERT);
          if git.inBranch(reverted.value) {
            nominated := true;
            return;
          }
        }
      }
    }
  }

  ghost predicate Distinct(cs: seq<Commit>) {
    forall i, j :: 0 <= i < j < |cs| ==> cs[i] != cs[j]
  }

  ghost function Values(cs: seq<Commit>): (r: seq<Record>)
    reads cs
    ensures |r| == |cs| && forall i :: 0 <= i < |cs| ==> r[i] == cs[i].Value()
  {
    seq(|cs|, i requires 0 <= i < |cs| reads cs => cs[i].Value())
  }

  // ---------------------------------------------------------------- the first loop

  /** `shas` at the start: the nominated commits of earlier runs. */
  method NominatedShas(previous: seq<Commit>) returns (shas: set<Sha>)
    ensures shas == Noms(Values(previous))
  {
    shas := {};
    for i := 0 to |previous|
      invariant shas == Noms(Values(previous[..i]))
    {
      var c := previous[i];
      assert Values(previous[..i + 1]) == Values(previous[..i]) + [c.Value()];
      NomsConcat(Values(previous[..i]), [c.Value()]);
      assert Noms([c.Value()]) == if c.nominated then {c.sha} else {} by { assert c.Value() in [c.Value()]; }
      if c.nominated {
        shas := shas + {c.sha};
      }
    }
    assert previous[..|previous|] == previous;
  }

  lemma NomsCons(c: Record, cs: seq<Record>)
    ensures Noms([c] + cs) == Noms(cs) + (if c.nominated then {c.sha} else {})
  {
    NomsConcat([c], cs);
    assert Noms([c]) == if c.nominated then {c.sha} else {} by { assert c in [c]; }
  }

  /** What the turn at `k` has to compute. */
  lemma PassOneStep(before: seq<Record>, base: set<Sha>, k: nat)
    requires k < |before|
    ensures var r := PassOne(before, base);
            && r[k] == Promote(before[k], base + Noms(r[k + 1..]))
            && Noms(r[k..]) == Noms(r[k + 1..]) + (if r[k].nominated then {before[k].sha} else {})
  {
    var r := PassOne(before, base);
    PassOneAt(before, base, k);
    assert r[k..] == [r[k]] + r[k + 1..];
    NomsCons(r[k], r[k + 1..]);
  }

  /** One turn of the first loop. */
  method PromoteOne(commit: Commit, shas: set<Sha>) returns (shas': set<Sha>)
    modifies commit
    ensures commit.Value() == Promote(old(commit.Value()), shas)
    ensures shas' == shas + (if commit.nominated then {commit.sha} else {})
  {
    shas' := shas;
    if !commit.nominated && commit.nominationType == Some(FIXES) {
      commit.nominated := commit.becauseSha.Some? && commit.becauseSha.value in shas;
    }
    if commit.nominated {
      shas' := shas + {commit.sha};
    }
  }

  method PromoteFixes(commits: seq<Commit>, base: set<Sha>) returns (shas: set<Sha>)
    requires Distinct(commits)
    modifies commits
    ensures Values(commits) == PassOne(old(Values(commits)), base)
    ensures shas == base + Noms(Values(commits))
  {
    shas := base;
    ghost var before := Values(commits);
    ghost var result := PassOne(before, base);
    assert result[|commits|..] == [];
    var k := |commits|;
    while k > 0
      invariant 0 <= k <= |commits|
      invariant forall i :: 0 <= i < |commits| ==> commits[i].Value() == if i < k then before[i] else result[i]
      invariant shas == base + Noms(result[k..])
    {
      k := k - 1;
      PassOneStep(before, base, k);
      shas := PromoteOne(commits[k], shas);
    }
    assert Values(commits) == result && result[0..] == result;
  }

  // --------------------------------------------------------------- the second loop

  /** Nominated and reverted by one of the first `k` commits. */
  ghost predicate TargetBefore(ps: seq<Record>, k: nat, i: nat)
    requires i < |ps| && k <= |ps|
  {
    ps[i].nominated && exists j :: 0 <= j < k && Reverts(ps[j], ps[i].sha)
  }

  /** The list after the first `k` commits have been looked at. */
  ghost predicate CancelledUpTo(ps: seq<Record>, now: seq<Record>, k: nat)
    requires k <= |ps|
  {
    && |now| == |ps|
    && forall i :: 0 <= i < |ps| ==>
         now[i] == if TargetBefore(ps, k, i) || (i < k && Cancels(ps, i)) then Denominate(ps[i]) else ps[i]
  }

  /** `shas` has lost exactly the targets met so far. */
  ghost predicate ShasUpTo(ps: seq<Record>, base: set<Sha>, shas: set<Sha>, k: nat)
    requires k <= |ps|
  {
    && shas <= base + Noms(ps)
    && base <= shas
    && forall i :: 0 <= i < |ps| && ps[i].nominated ==> (ps[i].sha in shas <==> !TargetBefore(ps, k, i))
  }

  /** Commit `k` is a revert of the nominated commit `i`, and the first one met. */
  lemma RevertFound(ps: seq<Record>, base: set<Sha>, shas: set<Sha>, now: seq<Record>, k: nat, i: nat)
    requires k < |ps| && i < |ps| && DistinctShas(ps) && (forall j :: 0 <= j < |ps| ==> ps[j].sha !in base)
    requires CancelledUpTo(ps, now, k) && ShasUpTo(ps, base, shas, k)
    requires Reverts(ps[k], ps[i].sha) && ps[i].sha in shas
    ensures ps[i].nominated && Cancels(ps, k) && |now| == |ps|
    ensures var now1 := now[i := Denominate(now[i])];
            CancelledUpTo(ps, now1[k := Denominate(now1[k])], k + 1)
    ensures ShasUpTo(ps, base, shas - {ps[i].sha}, k + 1)
  {
    var j := NomsIndex(ps, ps[i].sha);
    assert j == i;
    forall h | 0 <= h < |ps|
      ensures TargetBefore(ps, k + 1, h) <==> TargetBefore(ps, k, h) || (h == i && ps[i].nominated)
    {
      if TargetBefore(ps, k + 1, h) && !TargetBefore(ps, k, h) {
        assert Reverts(ps[k], ps[h].sha);
      }
    }
  }

  /** Commit `k` reverts nothing that is still in `shas` and in the list. */
  lemma NothingToRevert(ps: seq<Record>, base: set<Sha>, shas: set<Sha>, now: seq<Record>, k: nat)
    requires k < |ps| && CancelledUpTo(ps, now, k) && ShasUpTo(ps, base, shas, k)
    requires forall i :: 0 <= i < |ps| && Reverts(ps[k], ps[i].sha) ==> ps[i].sha !in shas
    ensures CancelledUpTo(ps, now, k + 1) && ShasUpTo(ps, base, shas, k + 1)
  {
    forall h | 0 <= h < |ps|
      ensures TargetBefore(ps, k + 1, h) <==> TargetBefore(ps, k, h)
    {
    }
    if Cancels(ps, k) {
      var i := NomsIndex(ps, ps[k].becauseSha.value);
      assert false;
    }
  }

  lemma AllLookedAt(ps: seq<Record>, now: seq<Record>)
    requires CancelledUpTo(ps, now, |ps|)
    ensures now == Cancel(ps)
  {
    forall i | 0 <= i < |ps| ensures TargetBefore(ps, |ps|, i) == Target(ps, i) {
    }
  }

  /** A commit that has not been applied is reverted: neither is applied. */
  method DenominateBoth(commits: seq<Commit>, i: nat, k: nat)
    requires Distinct(commits) && i < |commits| && k < |commits|
    modifies commits[i], commits[k]
    ensures var now1 := old(Values(commits))[i := Denominate(old(Values(commits))[i])];
            Values(commits) == now1[k := Denominate(now1[k])]
  {
    var oldc, commit := commits[i], commits[k];
    oldc.nominated := false;
    oldc.resolution := DENOMINATED;
    commit.nominated := false;
    commit.resolution := DENOMINATED;
  }

  /** One turn of the outer loop. */
  method LookAt(commits: seq<Commit>, ghost ps: seq<Record>, ghost base: set<Sha>, shas: set<Sha>, k: nat)
    returns (shas': set<Sha>)
    requires Distinct(commits) && |ps| == |commits| && k < |commits| && DistinctShas(ps)
    requires forall i :: 0 <= i < |ps| ==> ps[i].sha !in base
    requires CancelledUpTo(ps, Values(commits), k) && ShasUpTo(ps, base, shas, k)
    modifies commits
    ensures CancelledUpTo(ps, Values(commits), k + 1) && ShasUpTo(ps, base, shas', k + 1)
  {
    var commit := commits[k];
    ghost var now := Values(commits);
    var found := -1;
    if commit.nominationType == Some(REVERT) && commit.becauseSha.Some? && commit.becauseSha.value in shas {
      found := FindOldest(commits, commit.becauseSha.value);
    }
    if found >= 0 {
      RevertFound(ps, base, shas, now, k, found);
      assert commit.becauseSha.value in shas;
      shas' := shas - {commit.becauseSha.value};
      DenominateBoth(commits, found, k);
    } else {
      shas' := shas;
      forall i | 0 <= i < |ps| && Reverts(ps[k], ps[i].sha) ensures ps[i].sha !in shas {
        assert commits[i].sha == now[i].sha == ps[i].sha;
      }
      NothingToRevert(ps, base, shas, now, k);
    }
  }

  lemma NothingLookedAt(ps: seq<Record>, base: set<Sha>)
    ensures CancelledUpTo(ps, ps, 0) && ShasUpTo(ps, base, base + Noms(ps), 0)
  {
    forall i | 0 <= i < |ps| && ps[i].nominated ensures ps[i].sha in Noms(ps) { assert ps[i] in ps; }
  }

  method CancelReverts(commits: seq<Commit>, ghost base: set<Sha>, shas0: set<Sha>) returns (shas: set<Sha>)
    requires Distinct(commits) && DistinctShas(Values(commits))
    requires shas0 == base + Noms(Values(commits))
    requires forall i :: 0 <= i < |commits| ==> commits[i].sha !in base
    modifies commits
    ensures Values(commits) == Cancel(old(Values(commits)))
  {
    shas := shas0;
    ghost var ps := Values(commits);
    NothingLookedAt(ps, base);
    for k := 0 to |commits|
      invariant CancelledUpTo(ps, Values(commits), k) && ShasUpTo(ps, base, shas, k)
    {
      shas := LookAt(commits, ps, base, shas, k);
    }
    AllLookedAt(ps, Values(commits));
  }

  /** The inner loop: the oldest commit with the given sha, or -1. */
  method FindOldest(commits: seq<Commit>, sha: Sha) returns (found: int)
    ensures -1 <= found < |commits|
    ensures found >= 0 ==> commits[found].sha == sha
    ensures forall i :: found < i < |commits| ==> commits[i].sha != sha
  {
    found := |commits| - 1;
    while found >= 0
      invariant -1 <= found < |commits|
      invariant forall i :: found < i < |commits| ==> commits[i].sha != sha
    {
      if commits[found].sha == sha {
        return;
      }
      found := found - 1;
    }
  }

  // ------------------------------------------------------------------- all of it

  method ResolveFixes(commits: seq<Commit>, previous: seq<Commit>)
    requires Distinct(commits) && DistinctShas(Values(commits)) && DisjointShas(Values(commits), Values(previous))
    modifies commits
    ensures Values(commits) == Cancel(PassOne(old(Values(commits)), old(Noms(Values(previous)))))
  {
    var base := NominatedShas(previous);
    ghost var before := Values(commits);
    var shas := PromoteFixes(commits, base);
    forall i | 0 <= i < |commits| ensures Values(commits)[i].sha == before[i].sha && commits[i].sha !in base {
      PassOneAt(before, base, i);
      if commits[i].sha in base {
        var j := NomsIndex(old(Values(previous)), commits[i].sha);
      }
    }
    var _ := CancelReverts(commits, base, shas);
  }

  /** `gather_commits` after all nominations have arrived. */
  method FinishGathering(commits: seq<Commit>, previous: seq<Commit>)
    requires Distinct(commits) && DistinctShas(Values(commits)) && DisjointShas(Values(commits), Values(previous))
    modifies commits
    ensures Values(commits) == Finish(old(Values(commits)), old(Values(previous)))
  {
    ResolveFixes(commits, previous);
    ghost var ps := Values(commits);
    for k := 0 to |commits|
      invariant forall i :: 0 <= i < |commits| ==>
        commits[i].Value() == if i < k then SettleOne(ps[i]) else ps[i]
    {
      var commit := commits[k];
      if commit.resolution == UNRESOLVED && !commit.nominated {
        commit.resolution := NOTNEEDED;
      }
    }
    assert Values(commits) == Settle(ps);
  }
}
