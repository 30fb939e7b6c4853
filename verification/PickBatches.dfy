/**
 How the picker's decisions depend on where a history is cut into runs.  Each run
 is given the saved result of the earlier ones; exactly which cuts change a
 decision is the content of `CutInvisibleIff`.
 */
module PickBatches {
  import opened Common
  import opened Pick
  import opened PickOutcome

  /** A run on `newer` after a run on `older` whose result was saved and loaded again. */
  function TwoRuns(newer: seq<Record>, older: seq<Record>, previous: seq<Record>): seq<Record> {
    var first := Finish(older, previous);
    var loaded := Load(Save(first + previous));
    if loaded.None? then [] else Finish(newer, loaded.value) + first
  }

  lemma TwoRunsLoaded(newer: seq<Record>, older: seq<Record>, previous: seq<Record>)
    ensures TwoRuns(newer, older, previous) ==
            Finish(newer, Finish(older, previous) + previous) + Finish(older, previous)
  {
    LoadSaved(Finish(older, previous) + previous);
  }

  ghost predicate Separate(newer: seq<Record>, older: seq<Record>, previous: seq<Record>) {
    DistinctShas(newer + older) && DisjointShas(newer + older, previous)
  }

  lemma NomsOfFinish(cs: seq<Record>, previous: seq<Record>)
    ensures Noms(Finish(cs, previous)) == Noms(Cancel(PassOne(cs, Noms(previous))))
  {
    var a, b := Finish(cs, previous), Cancel(PassOne(cs, Noms(previous)));
    forall s | s in Noms(a) ensures s in Noms(b) {
      var i := NomsIndex(a, s);
      assert b[i] in b;
    }
    forall s | s in Noms(b) ensures s in Noms(a) {
      var i := NomsIndex(b, s);
      assert a[i] in a;
    }
  }

  /** The first loop looks at its base only through the pending fixes. */
  lemma {:induction false} PassOneSameBase(cs: seq<Record>, a: set<Sha>, b: set<Sha>)
    requires forall i :: 0 <= i < |cs| && Pending(cs[i]) ==> (Because(cs[i], a) <==> Because(cs[i], b))
    ensures PassOne(cs, a) == PassOne(cs, b)
  {
    if cs != [] {
      forall i | 0 <= i < |cs[1..]| && Pending(cs[1..][i])
        ensures Because(cs[1..][i], a) <==> Because(cs[1..][i], b)
      {
        assert cs[1..][i] == cs[i + 1];
      }
      PassOneSameBase(cs[1..], a, b);
    }
  }

  lemma CancelSubset(ps: seq<Record>)
    ensures Noms(Cancel(ps)) <= Noms(ps)
  {
    forall s | s in Noms(Cancel(ps)) ensures s in Noms(ps) {
      var i := NomsIndex(Cancel(ps), s);
      assert ps[i] in ps;
    }
  }

  lemma SettleConcat(a: seq<Record>, b: seq<Record>)
    ensures Settle(a + b) == Settle(a) + Settle(b)
  {
  }

  /** The second loop on a list cut in two: newer part. */  lemma PassOneKeeps(cs: seq<Record>, base: set<Sha>)
    ensures forall i :: 0 <= i < |cs| ==>
              PassOne(cs, base)[i] == cs[i].(nominated := PassOne(cs, base)[i].nominated)
  {
    forall i | 0 <= i < |cs|
      ensures PassOne(cs, base)[i] == cs[i].(nominated := PassOne(cs, base)[i].nominated)
    {
      PassOneAt(cs, base, i);
    }
  }

  ghost function Shas(cs: seq<Record>): set<Sha> {
    set c | c in cs :: c.sha
  }

  lemma NomsWithin(cs: seq<Record>, base: set<Sha>)
    ensures Noms(PassOne(cs, base)) <= Shas(cs)
  {
    var ps := PassOne(cs, base);
    PassOneKeeps(cs, base);
    forall s | s in Noms(ps) ensures s in Shas(cs) {
      var i := NomsIndex(ps, s);
      assert cs[i] in cs;
    }
  }

  lemma NomsSuffix(cs: seq<Record>, k: nat)
    requires k <= |cs|
    ensures Noms(cs[k..]) <= Noms(cs)
  {
    NomsConcat(cs[..k], cs[k..]);
    assert cs[..k] + cs[k..] == cs;
  }
  // ------------------------------------------------- reverts across a cut

  predicate RevertedIn(cs: seq<Record>, t: Sha) {
    exists k :: 0 <= k < |cs| && Reverts(cs[k], t)
  }

  /** Commit `i` is the newest revert in `cs` of a commit nominated in `ds`. */
  predicate NewestRevertOf(cs: seq<Record>, i: nat, ds: seq<Record>)
    requires i < |cs|
  {
    && cs[i].nominationType == Some(REVERT) && Because(cs[i], Noms(ds))
    && forall j :: 0 <= j < i ==> !Reverts(cs[j], cs[i].becauseSha.value)
  }

  /** A newer commit that is nominated and reverted by an older one, or cancels with an older one. */
  predicate TouchedNewer(pn: seq<Record>, po: seq<Record>, i: nat)
    requires i < |pn|
  {
    (pn[i].nominated && RevertedIn(po, pn[i].sha)) || NewestRevertOf(pn, i, po)
  }

  /** An older commit that is nominated and reverted by a newer one, or cancels with a newer one. */
  predicate TouchedOlder(pn: seq<Record>, po: seq<Record>, j: nat)
    requires j < |po|
  {
    || (po[j].nominated && RevertedIn(pn, po[j].sha))
    || (NewestRevertOf(po, j, pn) && !RevertedIn(pn, po[j].becauseSha.value))
  }

  /** An older revert whose target a newer commit reverts too. */
  predicate Released(pn: seq<Record>, po: seq<Record>, j: nat)
    requires j < |po|
  {
    Cancels(po, j) && RevertedIn(pn, po[j].becauseSha.value)
  }

  /**
   Reverts across the cut change nothing: whatever they touch is denominated by its
   own part, and a revert relieved of its target is itself reverted.
   */
  predicate RevertsHarmless(pn: seq<Record>, po: seq<Record>) {
    && (forall i :: 0 <= i < |pn| && TouchedNewer(pn, po, i) ==> Denominated(pn, i))
    && (forall j :: 0 <= j < |po| && TouchedOlder(pn, po, j) ==> Denominated(po, j))
    && (forall j :: 0 <= j < |po| && Released(pn, po, j) ==>
          po[j].nominated && (RevertedIn(pn, po[j].sha) || RevertedIn(po, po[j].sha)))
  }

  /** No newer fix waits for a commit that the older run denominates. */
  predicate FixesHarmless(newer: seq<Record>, po: seq<Record>) {
    forall i :: 0 <= i < |newer| && Pending(newer[i]) ==> !Because(newer[i], Noms(po) - Noms(Cancel(po)))
  }

  lemma {:induction false} RevertedInConcat(a: seq<Record>, b: seq<Record>, t: Sha)
    ensures RevertedIn(a + b, t) <==> RevertedIn(a, t) || RevertedIn(b, t)
  {
    if k :| 0 <= k < |a| && Reverts(a[k], t) {
      assert Reverts((a + b)[k], t);
    }
    if k :| 0 <= k < |b| && Reverts(b[k], t) {
      assert Reverts((a + b)[|a| + k], t);
    }
  }

  /** What the second loop does to the newer part of a list. */
  lemma {:induction false} NewerPart(pn: seq<Record>, po: seq<Record>, i: nat)
    requires i < |pn|
    ensures Denominated(pn + po, i) <==> Denominated(pn, i) || TouchedNewer(pn, po, i)
  {
    var ps := pn + po;
    NomsConcat(pn, po);
    RevertedInConcat(pn, po, pn[i].sha);
    assert Target(ps, i) <==> ps[i].nominated && RevertedIn(ps, ps[i].sha);
    assert Target(pn, i) <==> pn[i].nominated && RevertedIn(pn, pn[i].sha);
    assert forall j :: 0 <= j < i ==> ps[j] == pn[j];
  }

  /** And to the older part. */
  lemma {:induction false} OlderPart(pn: seq<Record>, po: seq<Record>, j: nat)
    requires j < |po| && DistinctShas(pn + po)
    ensures Denominated(pn + po, |pn| + j) <==>
            Target(po, j) || TouchedOlder(pn, po, j) || (Cancels(po, j) && !Released(pn, po, j))
  {
    var ps := pn + po;
    NomsConcat(pn, po);
    RevertedInConcat(pn, po, po[j].sha);
    assert Target(ps, |pn| + j) <==> po[j].nominated && RevertedIn(ps, po[j].sha);
    assert Target(po, j) <==> po[j].nominated && RevertedIn(po, po[j].sha);
    if po[j].becauseSha.Some? {
      NoneBefore(pn, po, j, po[j].becauseSha.value);
    }
  }

  lemma {:induction false} NoneBefore(pn: seq<Record>, po: seq<Record>, j: nat, t: Sha)
    requires j < |po|
    ensures (forall k :: 0 <= k < |pn| + j ==> !Reverts((pn + po)[k], t)) <==>
            !RevertedIn(pn, t) && forall k :: 0 <= k < j ==> !Reverts(po[k], t)
  {
    var ps := pn + po;
    assert forall k :: 0 <= k < |pn| ==> ps[k] == pn[k];
    assert forall k :: 0 <= k < j ==> ps[|pn| + k] == po[k];
    if !RevertedIn(pn, t) && forall k :: 0 <= k < j ==> !Reverts(po[k], t) {
      forall k | 0 <= k < |pn| + j ensures !Reverts(ps[k], t) {
        if k >= |pn| {
          assert !Reverts(po[k - |pn|], t);
        }
      }
    }
    if forall k :: 0 <= k < |pn| + j ==> !Reverts(ps[k], t) {
      forall k | 0 <= k < j ensures !Reverts(po[k], t) {
        assert !Reverts(ps[|pn| + k], t);
      }
    }
  }

  /** The second loop denominates in the whole list what it denominates in the two parts. */
  predicate CancelledApart(pn: seq<Record>, po: seq<Record>) {
    && (forall i :: 0 <= i < |pn| ==> (Denominated(pn + po, i) <==> Denominated(pn, i)))
    && (forall j :: 0 <= j < |po| ==> (Denominated(pn + po, |pn| + j) <==> Denominated(po, j)))
  }

  lemma {:induction false} CancelConcat(pn: seq<Record>, po: seq<Record>)
    requires CancelledApart(pn, po)
    ensures Cancel(pn + po) == Cancel(pn) + Cancel(po)
  {
    forall k | 0 <= k < |pn + po| ensures Cancel(pn + po)[k] == (Cancel(pn) + Cancel(po))[k] {
      if k >= |pn| {
        assert Denominated(pn + po, |pn| + (k - |pn|)) <==> Denominated(po, k - |pn|);
      }
    }
  }

  /** The two parts are cancelled independently exactly if the reverts across the cut are harmless. */
  lemma {:induction false} CancelledApartIff(pn: seq<Record>, po: seq<Record>)
    requires DistinctShas(pn + po)
    ensures RevertsHarmless(pn, po) <==> CancelledApart(pn, po)
  {
    forall i | 0 <= i < |pn|
      ensures (Denominated(pn + po, i) <==> Denominated(pn, i)) <==>
              (TouchedNewer(pn, po, i) ==> Denominated(pn, i))
    {
      NewerPart(pn, po, i);
    }
    forall j | 0 <= j < |po|
      ensures (Denominated(pn + po, |pn| + j) <==> Denominated(po, j)) <==>
              && (TouchedOlder(pn, po, j) ==> Denominated(po, j))
              && (Released(pn, po, j) ==>
                    po[j].nominated && (RevertedIn(pn, po[j].sha) || RevertedIn(po, po[j].sha)))
    {
      OlderPart(pn, po, j);
      NomsApart(pn, po, po[j]);
      assert Target(po, j) <==> po[j].nominated && RevertedIn(po, po[j].sha);
    }
  }

  /** With distinct shas, nothing is nominated in both parts. */
  lemma {:induction false} NomsApart(pn: seq<Record>, po: seq<Record>, c: Record)
    requires DistinctShas(pn + po)
    ensures !(Because(c, Noms(pn)) && Because(c, Noms(po)))
  {
    if Because(c, Noms(pn)) && Because(c, Noms(po)) {
      var i := NomsIndex(pn, c.becauseSha.value);
      var j := NomsIndex(po, c.becauseSha.value);
      NotInNewer(pn, po, j);
    }
  }

  // ------------------------------------------------------ when a cut is invisible

  /** The base the second run sees decides the pending fixes as the whole run would. */
  lemma SecondRunPassOne(newer: seq<Record>, older: seq<Record>, previous: seq<Record>)
    requires FixesHarmless(newer, PassOne(older, Noms(previous)))
    ensures var base := Noms(previous); var po := PassOne(older, base);
            PassOne(newer, Noms(Finish(older, previous) + previous)) == PassOne(newer, base + Noms(po))
  {
    var base := Noms(previous);
    var po := PassOne(older, base);
    NomsConcat(Finish(older, previous), previous);
    NomsOfFinish(older, previous);
    CancelSubset(po);
    PassOneSameBase(newer, Noms(Finish(older, previous) + previous), base + Noms(po));
  }

  lemma PassOneDistinct(newer: seq<Record>, older: seq<Record>, base: set<Sha>)
    requires DistinctShas(newer + older)
    ensures var po := PassOne(older, base); DistinctShas(PassOne(newer, base + Noms(po)) + po)
  {
    var po := PassOne(older, base);
    var pn := PassOne(newer, base + Noms(po));
    PassOneKeeps(newer, base + Noms(po));
    PassOneKeeps(older, base);
    assert forall i :: 0 <= i < |pn + po| ==> (pn + po)[i].sha == (newer + older)[i].sha;
  }

  lemma StillUnresolved(cs: seq<Record>, base: set<Sha>)
    requires AllUnresolved(cs)
    ensures AllUnresolved(PassOne(cs, base))
  {
    PassOneKeeps(cs, base);
  }

  /** What each part decides, with both first loops done. */
  lemma BothWays(newer: seq<Record>, older: seq<Record>, previous: seq<Record>)
    requires FixesHarmless(newer, PassOne(older, Noms(previous)))
    ensures var base := Noms(previous); var po := PassOne(older, base); var pn := PassOne(newer, base + Noms(po));
            && TwoRuns(newer, older, previous) == Settle(Cancel(pn)) + Settle(Cancel(po))
            && Finish(newer + older, previous) == Settle(Cancel(pn + po))
  {
    var base := Noms(previous);
    var po := PassOne(older, base);
    TwoRunsLoaded(newer, older, previous);
    SecondRunPassOne(newer, older, previous);
    PassOneConcat(newer, older, base);
  }

  /** Settling keeps the difference between denominated and not. */
  lemma {:induction false} SettledAlike(ps: seq<Record>, k: nat, part: seq<Record>, i: nat)
    requires k < |ps| && i < |part| && ps[k] == part[i] && part[i].resolution == UNRESOLVED
    ensures SettleOne(Cancel(ps)[k]) == SettleOne(Cancel(part)[i]) <==>
            (Denominated(ps, k) <==> Denominated(part, i))
  {
  }

  lemma {:induction false} SettledAlikeIff(pn: seq<Record>, po: seq<Record>)
    requires AllUnresolved(pn) && AllUnresolved(po)
    ensures Settle(Cancel(pn + po)) == Settle(Cancel(pn)) + Settle(Cancel(po)) <==>
            CancelledApart(pn, po)
  {
    var ps := pn + po;
    forall i | 0 <= i < |pn|
      ensures Settle(Cancel(ps))[i] == Settle(Cancel(pn))[i] <==> (Denominated(ps, i) <==> Denominated(pn, i))
    {
      SettledAlike(ps, i, pn, i);
    }
    forall j | 0 <= j < |po|
      ensures Settle(Cancel(ps))[|pn| + j] == Settle(Cancel(po))[j] <==>
              (Denominated(ps, |pn| + j) <==> Denominated(po, j))
    {
      SettledAlike(ps, |pn| + j, po, j);
    }
    SamePartsIff(Settle(Cancel(ps)), Settle(Cancel(pn)), Settle(Cancel(po)));
  }

  lemma {:induction false} SamePartsIff(whole: seq<Record>, a: seq<Record>, b: seq<Record>)
    requires |whole| == |a| + |b|
    ensures whole == a + b <==>
            && (forall i :: 0 <= i < |a| ==> whole[i] == a[i])
            && (forall j :: 0 <= j < |b| ==> whole[|a| + j] == b[j])
  {
    if whole == a + b {
      forall j | 0 <= j < |b| ensures whole[|a| + j] == b[j] {
        assert (a + b)[|a| + j] == b[j];
      }
    } else {
      var k :| 0 <= k < |whole| && whole[k] != (a + b)[k];
      assert k >= |a| ==> whole[|a| + (k - |a|)] != b[k - |a|];
    }
  }

  /** A commit that the first loop nominates ends up nominated or denominated. */
  lemma {:induction false} NominatedShows(cs: seq<Record>, previous: seq<Record>, i: nat)
    requires i < |cs| && PassOne(cs, Noms(previous))[i].nominated
    ensures Finish(cs, previous)[i].nominated || Finish(cs, previous)[i].resolution == DENOMINATED
  {
  }

  /** A newer fix of a commit the older run denominated is nominated only in the whole run. */
  lemma LostFixShows(newer: seq<Record>, older: seq<Record>, previous: seq<Record>, i: nat)
    requires Separate(newer, older, previous) && AllUnresolved(newer) && AllUnresolved(older)
    requires i < |newer| && Pending(newer[i])
    requires var po := PassOne(older, Noms(previous)); Because(newer[i], Noms(po) - Noms(Cancel(po)))
    ensures TwoRuns(newer, older, previous) != Finish(newer + older, previous)
  {
    var base := Noms(previous);
    var po := PassOne(older, base);
    PassOneConcat(newer, older, base);
    PassOneAt(newer, base + Noms(po), i);
    NominatedShows(newer + older, previous, i);
    NotNominatedLater(newer, older, previous, i);
    TwoRunsLoaded(newer, older, previous);
  }

  /** The second run leaves that fix alone. */
  lemma NotNominatedLater(newer: seq<Record>, older: seq<Record>, previous: seq<Record>, i: nat)
    requires Separate(newer, older, previous) && AllUnresolved(newer)
    requires i < |newer| && Pending(newer[i])
    requires var po := PassOne(older, Noms(previous)); Because(newer[i], Noms(po) - Noms(Cancel(po)))
    ensures Finish(newer, Finish(older, previous) + previous)[i] == newer[i].(resolution := NOTNEEDED)
  {
    var base := Noms(previous);
    var po := PassOne(older, base);
    var j := NomsIndex(po, newer[i].becauseSha.value);
    PassOneKeeps(older, base);
    NotInNewer(newer, older, j);
    var seen := Finish(older, previous) + previous;
    NomsConcat(Finish(older, previous), previous);
    NomsOfFinish(older, previous);
    PassOneAt(newer, Noms(seen), i);
    NotInPrevious(newer, older, previous, j);
    NomsSuffix(PassOne(newer, Noms(seen)), i + 1);
    NomsWithin(newer, Noms(seen));
  }

  lemma NotInNewer(newer: seq<Record>, older: seq<Record>, j: nat)
    requires DistinctShas(newer + older) && j < |older|
    ensures older[j].sha !in Shas(newer)
  {
    forall i | 0 <= i < |newer| ensures newer[i].sha != older[j].sha {
      assert (newer + older)[i].sha != (newer + older)[|newer| + j].sha;
    }
  }

  lemma NotInPrevious(newer: seq<Record>, older: seq<Record>, previous: seq<Record>, j: nat)
    requires DisjointShas(newer + older, previous) && j < |older|
    ensures older[j].sha !in Noms(previous)
  {
    forall h | 0 <= h < |previous| ensures previous[h].sha != older[j].sha {
      assert (newer + older)[|newer| + j].sha != previous[h].sha;
    }
  }

  /**
   Cutting a run in two, with the state saved and loaded in between, is invisible
   exactly when fixes and reverts across the cut are harmless.
   */
  lemma CutInvisibleIff(newer: seq<Record>, older: seq<Record>, previous: seq<Record>)
    requires Separate(newer, older, previous) && AllUnresolved(newer) && AllUnresolved(older)
    ensures var base := Noms(previous); var po := PassOne(older, base); var pn := PassOne(newer, base + Noms(po));
            TwoRuns(newer, older, previous) == Finish(newer + older, previous) <==>
            FixesHarmless(newer, po) && RevertsHarmless(pn, po)
  {
    var base := Noms(previous);
    var po := PassOne(older, base);
    var pn := PassOne(newer, base + Noms(po));
    if FixesHarmless(newer, po) {
      BothWays(newer, older, previous);
      PassOneDistinct(newer, older, base);
      StillUnresolved(newer, base + Noms(po));
      StillUnresolved(older, base);
      CancelledApartIff(pn, po);
      SettledAlikeIff(pn, po);
    } else {
      var i :| 0 <= i < |newer| && Pending(newer[i]) && Because(newer[i], Noms(po) - Noms(Cancel(po)));
      LostFixShows(newer, older, previous, i);
    }
  }

  /** Cutting between `newer` and `older` separates no revert and no fix from what it acts on. */
  ghost predicate CutSafe(newer: seq<Record>, older: seq<Record>, base: set<Sha>) {
    var po := PassOne(older, base);
    var pn := PassOne(newer, base + Noms(po));
    && FixesHarmless(newer, po)
    // no newer commit reverts a nominated older one
    && (forall i :: 0 <= i < |newer| && newer[i].nominationType == Some(REVERT) ==> !Because(newer[i], Noms(po)))
    // an older commit reverts a nominated newer one only if a newer commit does too
    && (forall i :: 0 <= i < |newer| && pn[i].nominated && RevertedIn(older, newer[i].sha) ==>
          RevertedIn(newer, newer[i].sha))
  }

  lemma {:induction false} SameRevertedIn(cs: seq<Record>, base: set<Sha>, t: Sha)
    ensures RevertedIn(PassOne(cs, base), t) <==> RevertedIn(cs, t)
  {
    var ps := PassOne(cs, base);
    PassOneKeeps(cs, base);
    if k :| 0 <= k < |cs| && Reverts(cs[k], t) {
      assert Reverts(ps[k], t);
    }
    if k :| 0 <= k < |ps| && Reverts(ps[k], t) {
      assert Reverts(cs[k], t);
    }
  }

  lemma {:induction false} SafeIsHarmless(newer: seq<Record>, older: seq<Record>, base: set<Sha>)
    requires CutSafe(newer, older, base)
    ensures var po := PassOne(older, base); RevertsHarmless(PassOne(newer, base + Noms(po)), po)
  {
    var po := PassOne(older, base);
    var pn := PassOne(newer, base + Noms(po));
    PassOneKeeps(newer, base + Noms(po));
    forall t | t in Noms(po) ensures !RevertedIn(pn, t) {
      if k :| 0 <= k < |pn| && Reverts(pn[k], t) {
        assert Because(newer[k], Noms(po));
        assert false;
      }
    }
    forall i | 0 <= i < |pn| && pn[i].nominated && RevertedIn(po, pn[i].sha) ensures Target(pn, i) {
      SameRevertedIn(older, base, pn[i].sha);
      SameRevertedIn(newer, base + Noms(po), pn[i].sha);
    }
    forall j | 0 <= j < |po| ensures !TouchedOlder(pn, po, j) {
      assert po[j] in po;
      if NewestRevertOf(po, j, pn) {
        var i := NomsIndex(pn, po[j].becauseSha.value);
        assert Reverts(po[j], pn[i].sha);
      }
    }
  }

  /** A safe cut changes no decision. */
  lemma SafeCutIsInvisible(newer: seq<Record>, older: seq<Record>, previous: seq<Record>)
    requires Separate(newer, older, previous) && CutSafe(newer, older, Noms(previous))
    ensures TwoRuns(newer, older, previous) == Finish(newer + older, previous)
  {
    var base := Noms(previous);
    var po := PassOne(older, base);
    var pn := PassOne(newer, base + Noms(po));
    BothWays(newer, older, previous);
    SafeIsHarmless(newer, older, base);
    PassOneDistinct(newer, older, base);
    CancelledApartIff(pn, po);
    CancelConcat(pn, po);
    SettleConcat(Cancel(pn), Cancel(po));
  }

  // ------------------------------------------------------------------ many batches

  predicate NoReverts(cs: seq<Record>) {
    forall i :: 0 <= i < |cs| ==> cs[i].nominationType != Some(REVERT)
  }

  /** The batches, newest first, joined to one history. */
  function History(batches: seq<seq<Record>>): seq<Record> {
    if batches == [] then [] else batches[0] + History(batches[1..])
  }

  /** One run per batch, oldest first, each fed the saved result of the earlier ones. */
  function RunBatches(batches: seq<seq<Record>>, previous: seq<Record>): seq<Record> {
    if batches == [] then []
    else
      var first := RunBatches(batches[1..], previous);
      var loaded := Load(Save(first + previous));
      if loaded.None? then [] else Finish(batches[0], loaded.value) + first
  }

  lemma NoRevertsCutSafe(newer: seq<Record>, older: seq<Record>, base: set<Sha>)
    requires NoReverts(newer + older)
    ensures CutSafe(newer, older, base)
  {
    var po := PassOne(older, base);
    PassOneKeeps(older, base);
    assert forall i :: 0 <= i < |newer| ==> newer[i] == (newer + older)[i];
    forall i | 0 <= i < |older| ensures older[i].nominationType != Some(REVERT) {
      assert older[i] == (newer + older)[|newer| + i];
    }
    assert Cancel(po) == po;
  }

  /** Histories without reverts may be cut anywhere, any number of times: on nominated records. */
  lemma {:induction false} RecordsIndependent(batches: seq<seq<Record>>, previous: seq<Record>)
    requires DistinctShas(History(batches)) && DisjointShas(History(batches), previous) && NoReverts(History(batches))
    ensures RunBatches(batches, previous) == Finish(History(batches), previous)
    decreases |batches|
  {
    if batches != [] {
      var newer, older := batches[0], History(batches[1..]);
      assert forall i :: 0 <= i < |older| ==> older[i] == (newer + older)[|newer| + i];
      RecordsIndependent(batches[1..], previous);
      NoRevertsCutSafe(newer, older, Noms(previous));
      SafeCutIsInvisible(newer, older, previous);
    }
  }

  /** The log, newest first, from its batches. */
  function Log(batches: seq<seq<(Sha, string)>>): seq<(Sha, string)> {
    if batches == [] then [] else batches[0] + Log(batches[1..])
  }

  /** `gather_commits` once per batch, oldest first, each fed the saved result of the earlier calls. */
  function GatherBatches(git: Git, version: string, batches: seq<seq<(Sha, string)>>,
                         previous: seq<Record>): seq<Record>
  {
    if batches == [] then []
    else
      var first := GatherBatches(git, version, batches[1..], previous);
      var loaded := Load(Save(first + previous));
      if loaded.None? then [] else GatherCommits(git, version, loaded.value, batches[0]) + first
  }

  function NominateAll(git: Git, version: string, batches: seq<seq<(Sha, string)>>): seq<seq<Record>> {
    if batches == [] then [] else [Nominate(git, version, batches[0])] + NominateAll(git, version, batches[1..])
  }

  /** Nominations are made commit by commit, so cutting the log cuts them alike. */
  lemma {:induction false} NominationsConcatenate(git: Git, version: string, batches: seq<seq<(Sha, string)>>)
    ensures Nominate(git, version, Log(batches)) == History(NominateAll(git, version, batches))
  {
    if batches != [] {
      NominationsConcatenate(git, version, batches[1..]);
      var all := NominateAll(git, version, batches);
      assert all[1..] == NominateAll(git, version, batches[1..]);
      NominateConcat(git, version, batches[0], Log(batches[1..]));
    }
  }

  lemma NominateConcat(git: Git, version: string, newer: seq<(Sha, string)>, older: seq<(Sha, string)>)
    ensures Nominate(git, version, newer + older) == Nominate(git, version, newer) + Nominate(git, version, older)
  {
    var whole := Nominate(git, version, newer + older);
    var parts := Nominate(git, version, newer) + Nominate(git, version, older);
    forall i | 0 <= i < |whole| ensures whole[i] == parts[i] {
      assert i < |newer| ==> (newer + older)[i] == newer[i];
      assert i >= |newer| ==> (newer + older)[i] == older[i - |newer|];
    }
  }

  lemma {:induction false} GatherBatchesRuns(git: Git, version: string, batches: seq<seq<(Sha, string)>>,
                                             previous: seq<Record>)
    ensures GatherBatches(git, version, batches, previous) == RunBatches(NominateAll(git, version, batches), previous)
  {
    if batches != [] {
      GatherBatchesRuns(git, version, batches[1..], previous);
      assert NominateAll(git, version, batches)[1..] == NominateAll(git, version, batches[1..]);
    }
  }

  /** Whatever the answers of git, a log without reverts may be cut anywhere, any number of times. */
  lemma BatchIndependence(git: Git, version: string, batches: seq<seq<(Sha, string)>>, previous: seq<Record>)
    requires forall i, j :: 0 <= i < j < |Log(batches)| ==> Log(batches)[i].0 != Log(batches)[j].0
    requires forall i, j :: 0 <= i < |Log(batches)| && 0 <= j < |previous| ==> Log(batches)[i].0 != previous[j].sha
    requires NoReverts(Nominate(git, version, Log(batches)))
    ensures GatherBatches(git, version, batches, previous) == GatherCommits(git, version, previous, Log(batches))
  {
    var cs := Nominate(git, version, Log(batches));
    forall i | 0 <= i < |cs| ensures cs[i].sha == Log(batches)[i].0 {
      NominationJustified(git, version, NewRecord(Log(batches)[i].0, Log(batches)[i].1));
    }
    NominationsConcatenate(git, version, batches);
    GatherBatchesRuns(git, version, batches, previous);
    RecordsIndependent(NominateAll(git, version, batches), previous);
  }

  // ------------------------------------------------------------------- examples

  const COMMIT := NewRecord("a", "").(nominated := true, nominationType := Some(CC))
  const ITS_REVERT := NewRecord("b", "").(nominationType := Some(REVERT), becauseSha := Some("a"))

  /** A commit and its revert: cancelled in one run, both kept if a run ends between them. */
  lemma RevertAcrossRuns()
    ensures TwoRuns([ITS_REVERT], [COMMIT], []) == [ITS_REVERT.(resolution := NOTNEEDED), COMMIT]
    ensures TwoRuns([ITS_REVERT], [COMMIT], []) != Finish([ITS_REVERT, COMMIT], [])
  {
    var c, r := [COMMIT], [ITS_REVERT];
    RevertPair(ITS_REVERT, COMMIT, []);
    TwoRunsLoaded(r, c, []);
    assert c[1..] == [] && r[1..] == [];
    assert PassOne(c, {}) == c;
    assert !Denominated(c, 0);
    assert Finish(c, []) == c;
    var base := Noms(c + []);
    assert PassOne(r, base) == r && Noms(r) == {};
    assert !Denominated(r, 0);
    assert Cancel(r) == r;
  }

  /**
   Four commits, each the revert of the next: all are denominated, in one run and
   in two, although the cut in the middle separates a revert from its target.
   */
  lemma {:induction false} RevertedRevertsHideTheCut(d: Record, c: Record, b: Record, a: Record)
    requires Reverts(d, c.sha) && Reverts(c, b.sha) && Reverts(b, a.sha)
    requires c.nominated && b.nominated && a.nominated
    ensures !CutSafe([d, c], [b, a], {})
    ensures TwoRuns([d, c], [b, a], []) == Finish([d, c] + [b, a], [])
  {
    PairsInTwoRuns(d, c, b, a);
    RevertChain([d, c] + [b, a], []);
    CrossingIsUnsafe([d, c], [b, a], 1, 0);
  }

  lemma {:induction false} PairsInTwoRuns(d: Record, c: Record, b: Record, a: Record)
    requires Reverts(d, c.sha) && c.nominated && Reverts(b, a.sha) && a.nominated
    ensures TwoRuns([d, c], [b, a], []) == [Denominate(d), Denominate(c)] + [Denominate(b), Denominate(a)]
  {
    TwoRunsLoaded([d, c], [b, a], []);
    RevertPair(b, a, []);
    RevertPair(d, c, Finish([b, a], []) + []);
  }

  lemma {:induction false} CrossingIsUnsafe(newer: seq<Record>, older: seq<Record>, i: nat, j: nat)
    requires i < |newer| && j < |older| && Reverts(newer[i], older[j].sha) && older[j].nominated
    ensures !CutSafe(newer, older, {})
  {
    var po := PassOne(older, {});
    PassOneAt(older, {}, j);
    assert po[j] in po;
    assert Because(newer[i], Noms(po));
  }

  lemma {:induction false} PassOneUnchanged(cs: seq<Record>, base: set<Sha>)
    requires forall i :: 0 <= i < |cs| ==> !Pending(cs[i])
    ensures PassOne(cs, base) == cs
  {
    if cs != [] {
      PassOneUnchanged(cs[1..], base);
    }
  }

  lemma {:induction false} AllCancelled(cs: seq<Record>, previous: seq<Record>)
    requires forall i :: 0 <= i < |cs| ==> !Pending(cs[i]) && Denominated(cs, i)
    ensures forall i :: 0 <= i < |cs| ==> Finish(cs, previous)[i] == Denominate(cs[i])
  {
    PassOneUnchanged(cs, Noms(previous));
  }

  lemma {:induction false} RevertPair(r: Record, c: Record, previous: seq<Record>)
    requires Reverts(r, c.sha) && c.nominated
    ensures Finish([r, c], previous) == [Denominate(r), Denominate(c)]
  {
    var ps := [r, c];
    assert ps[1] in ps;
    assert Cancels(ps, 0);
    assert Target(ps, 1) by { assert Reverts(ps[0], ps[1].sha); }
    AllCancelled(ps, previous);
  }

  /** In a row of commits each of which reverts the next, all but the newest nominated, all are denominated. */
  lemma {:induction false} RevertChain(cs: seq<Record>, previous: seq<Record>)
    requires |cs| > 1 && forall i :: 0 <= i < |cs| - 1 ==> Reverts(cs[i], cs[i + 1].sha)
    requires forall i :: 1 <= i < |cs| ==> cs[i].nominated
    ensures forall i :: 0 <= i < |cs| ==> Finish(cs, previous)[i] == Denominate(cs[i])
  {
    assert cs[1] in cs;
    assert Reverts(cs[0], cs[1].sha);
    assert Cancels(cs, 0);
    forall i | 1 <= i < |cs| ensures Target(cs, i) && !Pending(cs[i]) {
      assert Reverts(cs[i - 1], cs[i - 1 + 1].sha);
    }
    AllCancelled(cs, previous);
  }
}
