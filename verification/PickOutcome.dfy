/** What a run of the picker decides, and why. */
module PickOutcome {
  import opened Common
  import opened Pick
  import opened PickFixes

  // ------------------------------------------------------- reverts and outcomes

  predicate AllUnresolved(cs: seq<Record>) {
    forall i :: 0 <= i < |cs| ==> cs[i].resolution == UNRESOLVED
  }

  /**
   The denominated commits are exactly the nominated ones some listed commit
   reverts, plus the newest revert of each; nothing is nominated anew.
   */
  lemma {:induction false} RevertsCancelExactly(cs: seq<Record>, previous: seq<Record>, i: nat)
    requires AllUnresolved(cs) && i < |cs|
    ensures var ps, out := PassOne(cs, Noms(previous)), Finish(cs, previous);
            && (out[i].resolution == DENOMINATED <==>
                  || (ps[i].nominated && exists j :: 0 <= j < |cs| && Reverts(cs[j], cs[i].sha))
                  || (exists k :: 0 <= k < |cs| && ps[k].nominated && Reverts(cs[i], cs[k].sha)
                        && forall j :: 0 <= j < i ==> !Reverts(cs[j], cs[k].sha)))
            && (out[i].nominated <==> ps[i].nominated && out[i].resolution != DENOMINATED)
            && out[i] == cs[i].(nominated := out[i].nominated, resolution := out[i].resolution)
  {
    TargetMeans(cs, Noms(previous), i);
    CancelsMeans(cs, Noms(previous), i);
    PassOneAt(cs, Noms(previous), i);
  }

  lemma {:induction false} SameReverts(cs: seq<Record>, base: set<Sha>)
    ensures forall j :: 0 <= j < |cs| ==> PassOne(cs, base)[j].sha == cs[j].sha
    ensures forall j, t :: 0 <= j < |cs| ==> (Reverts(PassOne(cs, base)[j], t) <==> Reverts(cs[j], t))
  {
    forall j | 0 <= j < |cs|
      ensures PassOne(cs, base)[j] == cs[j].(nominated := PassOne(cs, base)[j].nominated)
    {
      PassOneAt(cs, base, j);
    }
  }

  lemma {:induction false} TargetMeans(cs: seq<Record>, base: set<Sha>, i: nat)
    requires i < |cs|
    ensures var ps := PassOne(cs, base);
            Target(ps, i) <==> ps[i].nominated && exists j :: 0 <= j < |cs| && Reverts(cs[j], cs[i].sha)
  {
    SameReverts(cs, base);
    var ps := PassOne(cs, base);
    if j :| 0 <= j < |cs| && Reverts(cs[j], cs[i].sha) {
      assert Reverts(ps[j], ps[i].sha);
    }
  }

  lemma {:induction false} CancelsMeans(cs: seq<Record>, base: set<Sha>, i: nat)
    requires i < |cs|
    ensures var ps := PassOne(cs, base);
            Cancels(ps, i) <==>
            exists k :: 0 <= k < |cs| && ps[k].nominated && Reverts(cs[i], cs[k].sha)
              && forall j :: 0 <= j < i ==> !Reverts(cs[j], cs[k].sha)
  {
    SameReverts(cs, base);
    var ps := PassOne(cs, base);
    if Cancels(ps, i) {
      var k := NomsIndex(ps, ps[i].becauseSha.value);
      assert Reverts(ps[i], ps[k].sha);
    }
    if k :| 0 <= k < |cs| && ps[k].nominated && Reverts(cs[i], cs[k].sha)
            && forall j :: 0 <= j < i ==> !Reverts(cs[j], cs[k].sha) {
      assert Reverts(ps[i], cs[k].sha);
      assert ps[k] in ps;
    }
  }

  /** The tag in the message names the commit `because`. */
  predicate Names(git: Git, tag: Option<string>, because: Option<Sha>) {
    tag.Some? && because.Some? && git.fullSha(tag.value) == because
  }

  /** Why a commit is nominated. */
  predicate Justified(git: Git, version: string, c: Record, staged: set<Sha>) {
    var tags := git.message(c.sha);
    match c.nominationType
    case None => false
    case Some(CC) =>
      && tags.cc.Some?
      && var (a, b) := tags.cc.value;
      (a == None && b == None) || a == Some(version) || b == Some(version)
    case Some(REVERT) => Names(git, tags.revert, c.becauseSha) && git.inBranch(c.becauseSha.value)
    case Some(FIXES) =>
      Names(git, tags.fix, c.becauseSha) && (git.inBranch(c.becauseSha.value) || c.becauseSha.value in staged)
  }

  /** A commit nominated on its own has its reason in its message and in the branch. */
  lemma NominationJustified(git: Git, version: string, c: Record)
    requires !c.nominated && c.nominationType == None
    ensures var r := ResolveNomination(git, version, c);
            && r.sha == c.sha && r.description == c.description && r.resolution == c.resolution
            && r.masterSha == c.masterSha
            && (r.nominated ==> Justified(git, version, r, {}))
            && (Pending(r) ==> Names(git, git.message(c.sha).fix, r.becauseSha))
  {
  }

  /**
   Which commits are nominated on their own, and as what: a fix of something in
   the branch first, then a cc without a version or with this one in either place,
   then a revert of something in the branch.
   A fix or revert that cannot be nominated yet is remembered by its type.
   */
  lemma NominationDecision(git: Git, version: string, c: Record)
    requires !c.nominated && c.nominationType == None && c.becauseSha == None
    ensures var tags, r := git.message(c.sha), ResolveNomination(git, version, c);
            var fixed := if tags.fix.Some? then git.fullSha(tags.fix.value) else None;
            var reverted := if tags.revert.Some? then git.fullSha(tags.revert.value) else None;
            var fixesBranch := fixed.Some? && git.inBranch(fixed.value);
            var revertsBranch := reverted.Some? && git.inBranch(reverted.value);
            var forThisVersion := match tags.cc
              case None => false
              case Some((a, b)) => (a == None && b == None) || a == Some(version) || b == Some(version);
            && (r.nominated <==> fixesBranch || forThisVersion || revertsBranch)
            && (r.nominationType == Some(CC) <==> forThisVersion && !fixesBranch)
            && (r.nominationType == Some(REVERT) <==> reverted.Some? && !fixesBranch && !forThisVersion)
            && (r.nominationType == None <==> fixed.None? && reverted.None? && !forThisVersion)
            && r.becauseSha == (if r.nominationType == Some(REVERT) then reverted else fixed)
  {
  }

  function Nominate(git: Git, version: string, new': seq<(Sha, string)>): (r: seq<Record>)
    ensures |r| == |new'|
    ensures forall i :: 0 <= i < |r| ==> r[i] == ResolveNomination(git, version, NewRecord(new'[i].0, new'[i].1))
  {
    seq(|new'|, i requires 0 <= i < |new'| => ResolveNomination(git, version, NewRecord(new'[i].0, new'[i].1)))
  }

  /** What `gather_commits` returns. */
  function GatherCommits(git: Git, version: string, previous: seq<Record>, new': seq<(Sha, string)>): seq<Record> {
    Finish(Nominate(git, version, new'), previous)
  }

  /** Every commit ends up in one of three states, and every nomination has its reason. */
  lemma OutcomePartition(git: Git, version: string, previous: seq<Record>, new': seq<(Sha, string)>, i: nat)
    requires i < |new'|
    ensures var cs := Nominate(git, version, new');
            var ps := PassOne(cs, Noms(previous));
            var c := GatherCommits(git, version, previous, new')[i];
            && c.sha == new'[i].0 && c.description == new'[i].1
            && (c.resolution == UNRESOLVED <==> c.nominated)
            && c.resolution in {UNRESOLVED, DENOMINATED, NOTNEEDED}
            && (c.nominated ==> Justified(git, version, c, Noms(previous) + Noms(ps[i + 1..])))
  {
    var cs := Nominate(git, version, new');
    var ps := PassOne(cs, Noms(previous));
    NominationJustified(git, version, NewRecord(new'[i].0, new'[i].1));
    PassOneAt(cs, Noms(previous), i);
    assert ps[i].nominated ==> Justified(git, version, ps[i], Noms(previous) + Noms(ps[i + 1..]));
  }

  /** In a history whose fixes name older commits, the first loop nominates exactly what is due. */
  lemma {:induction false} PassOneIsDue(cs: seq<Record>, base: set<Sha>, i: nat)
    requires DistinctShas(cs) && FixesOlder(cs) && i < |cs|
    ensures PassOne(cs, base)[i].nominated <==> Due(cs, base, i)
  {
    var ps := PassOne(cs, base);
    SinglePassClosure(cs, base);
    PassOneAt(cs, base, i);
    if ps[i].nominated {
      NominatedIsDue(cs, base, i);
    }
    if Due(cs, base, i) {
      assert cs[i].sha in AllDue(cs, base);
      var j := NomsIndex(ps, cs[i].sha);
      PassOneAt(cs, base, j);
      DistinctIndex(cs, i, j);
    }
  }

  /**
   All of it: a commit ends up nominated exactly if it is due, no listed commit
   reverts it, and it is not the newest revert of a commit that is due.
   */
  lemma {:induction false} NominatedExactly(cs: seq<Record>, previous: seq<Record>, i: nat)
    requires AllUnresolved(cs) && DistinctShas(cs) && FixesOlder(cs) && i < |cs|
    ensures var base := Noms(previous);
            Finish(cs, previous)[i].nominated <==>
            && Due(cs, base, i)
            && (forall j :: 0 <= j < |cs| ==> !Reverts(cs[j], cs[i].sha))
            && !(exists k :: 0 <= k < |cs| && Due(cs, base, k) && Reverts(cs[i], cs[k].sha)
                   && forall j :: 0 <= j < i ==> !Reverts(cs[j], cs[k].sha))
  {
    var base := Noms(previous);
    RevertsCancelExactly(cs, previous, i);
    forall k | 0 <= k < |cs| ensures PassOne(cs, base)[k].nominated <==> Due(cs, base, k) {
      PassOneIsDue(cs, base, k);
    }
  }
}
