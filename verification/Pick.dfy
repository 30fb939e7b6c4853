/**
 The stable-branch picker: commits, how one is nominated, how fixes and reverts
 within a list are resolved, and what is written to disk between runs.  Lists
 run from the newest commit to the oldest.
 */
module Pick {
  import opened Common

  type Sha = string

  datatype NominationType = CC | FIXES | REVERT

  datatype Resolution = UNRESOLVED | MERGED | DENOMINATED | BACKPORTED | NOTNEEDED

  datatype Record = Record(
    sha: Sha, description: string, nominated: bool, nominationType: Option<NominationType>,
    resolution: Resolution, masterSha: Option<Sha>, becauseSha: Option<Sha>)

  function NewRecord(sha: Sha, description: string): Record {
    Record(sha, description, false, None, UNRESOLVED, None, None)
  }

  // ----------------------------------------------------------------- persistence

  /** The dictionary stored for a commit: enumerations become their numbers. */
  datatype CommitDict = CommitDict(
    sha: Sha, description: string, nominated: bool, nominationType: Option<int>,
    resolution: Option<int>, masterSha: Option<Sha>, becauseSha: Option<Sha>)

  function TypeValue(n: NominationType): int {
    match n case CC => 0 case FIXES => 1 case REVERT => 2
  }

  function TypeOf(v: int): Option<NominationType> {
    if v == 0 then Some(CC) else if v == 1 then Some(FIXES) else if v == 2 then Some(REVERT) else None
  }

  function ResolutionValue(r: Resolution): int {
    match r case UNRESOLVED => 0 case MERGED => 1 case DENOMINATED => 2 case BACKPORTED => 3 case NOTNEEDED => 4
  }

  function ResolutionOf(v: int): Option<Resolution> {
    if v == 0 then Some(UNRESOLVED) else if v == 1 then Some(MERGED) else if v == 2 then Some(DENOMINATED)
    else if v == 3 then Some(BACKPORTED) else if v == 4 then Some(NOTNEEDED) else None
  }

  /** Whatever is saved is loaded back unchanged. */
  function ToJson(c: Record): (d: CommitDict)
    ensures FromJson(d) == Some(c)
  {
    CommitDict(c.sha, c.description, c.nominated,
               if c.nominationType.Some? then Some(TypeValue(c.nominationType.value)) else None,
               Some(ResolutionValue(c.resolution)), c.masterSha, c.becauseSha)
  }

  /** None stands for the `ValueError` of an unknown number. */
  function FromJson(d: CommitDict): Option<Record> {
    var n := if d.nominationType.Some? then TypeOf(d.nominationType.value) else None;
    var r := if d.resolution.Some? then ResolutionOf(d.resolution.value) else Some(UNRESOLVED);
    if (d.nominationType.Some? && n == None) || r == None then None
    else Some(Record(d.sha, d.description, d.nominated, n, r.value, d.masterSha, d.becauseSha))
  }

  /** How a stored dictionary is read: the numbers of the enumerations, and the defaults for missing ones. */
  lemma LoadedCommit(d: CommitDict)
    ensures FromJson(d).Some? <==>
            && (d.nominationType.Some? ==> 0 <= d.nominationType.value <= 2)
            && (d.resolution.Some? ==> 0 <= d.resolution.value <= 4)
    ensures FromJson(d).Some? ==>
              var c := FromJson(d).value;
              && c.sha == d.sha && c.description == d.description && c.nominated == d.nominated
              && c.masterSha == d.masterSha && c.becauseSha == d.becauseSha
              && c.nominationType == (if d.nominationType.None? then None
                                      else Some([CC, FIXES, REVERT][d.nominationType.value]))
              && c.resolution == (if d.resolution.None? then UNRESOLVED
                                  else [UNRESOLVED, MERGED, DENOMINATED, BACKPORTED, NOTNEEDED][d.resolution.value])
  {
  }

  function Save(cs: seq<Record>): (saved: seq<CommitDict>)
    ensures |saved| == |cs| && forall i :: 0 <= i < |cs| ==> saved[i] == ToJson(cs[i])
  {
    seq(|cs|, i requires 0 <= i < |cs| => ToJson(cs[i]))
  }

  /** None stands for a file that cannot be loaded. */
  function Load(saved: seq<CommitDict>): Option<seq<Record>> {
    if saved == [] then Some([])
    else
      var first, rest := FromJson(saved[0]), Load(saved[1..]);
      if first.None? || rest.None? then None else Some([first.value] + rest.value)
  }

  lemma {:induction false} LoadSaved(cs: seq<Record>)
    ensures Load(Save(cs)) == Some(cs)
  {
    if cs != [] {
      assert Save(cs)[1..] == Save(cs[1..]);
      LoadSaved(cs[1..]);
      assert FromJson(ToJson(cs[0])) == Some(cs[0]);
      assert [cs[0]] + cs[1..] == cs;
    }
  }

  // ------------------------------------------------------------------ nomination

  /** What the regular expressions find in a commit message. */
  datatype Tags = Tags(fix: Option<string>, cc: Option<(Option<string>, Option<string>)>, revert: Option<string>)

  /** The answers of git. */
  datatype Git = Git(message: Sha -> Tags, fullSha: string -> Option<Sha>, inBranch: Sha -> bool)

  predicate CcMatches(tags: Tags, version: string) {
    && tags.cc.Some?
    && (tags.cc.value == (None, None) || tags.cc.value.0 == Some(version) || tags.cc.value.1 == Some(version))
  }

  /** Fixes and cc tags take precedence over revert tags. */
  function ResolveNomination(git: Git, version: string, c: Record): Record {
    var tags := git.message(c.sha);
    var fixed := if tags.fix.Some? then git.fullSha(tags.fix.value) else None;
    var c1 := if fixed.Some? then c.(becauseSha := fixed, nominationType := Some(FIXES)) else c;
    if fixed.Some? && git.inBranch(fixed.value) then c1.(nominated := true)
    else AfterFix(git, version, c1)
  }

  function AfterFix(git: Git, version: string, c: Record): Record {
    var tags := git.message(c.sha);
    if CcMatches(tags, version) then c.(nominated := true, nominationType := Some(CC))
    else
      var reverted := if tags.revert.Some? then git.fullSha(tags.revert.value) else None;
      if reverted.None? then c
      else AfterRevertSha(git, c, reverted.value)
  }

  function AfterRevertSha(git: Git, c: Record, reverted: Sha): Record {
    var c1 := c.(becauseSha := Some(reverted), nominationType := Some(REVERT));
    if git.inBranch(reverted) then c1.(nominated := true) else c1
  }

  // ------------------------------------------------- fixes within a list: first loop

  /** The shas of the nominated commits. */
  function Noms(cs: seq<Record>): set<Sha> {
    set c | c in cs && c.nominated :: c.sha
  }

  /** A fix that has not been nominated on its own. */
  predicate Pending(c: Record) {
    !c.nominated && c.nominationType == Some(FIXES)
  }

  predicate Because(c: Record, shas: set<Sha>) {
    c.becauseSha.Some? && c.becauseSha.value in shas
  }

  function Promote(c: Record, shas: set<Sha>): Record {
    if Pending(c) then c.(nominated := Because(c, shas)) else c
  }

  /** Oldest to newest: a pending fix is nominated if it fixes something nominated before it. */
  function PassOne(cs: seq<Record>, base: set<Sha>): (r: seq<Record>)
    ensures |r| == |cs|
  {
    if cs == [] then []
    else
      var older := PassOne(cs[1..], base);
      [Promote(cs[0], base + Noms(older))] + older
  }

  // ------------------------------------------------ reverts within a list: second loop

  predicate Reverts(c: Record, t: Sha) {
    c.nominationType == Some(REVERT) && c.becauseSha == Some(t)
  }

  /** Nominated and reverted by a commit of the list. */
  predicate Target(ps: seq<Record>, i: nat)
    requires i < |ps|
  {
    ps[i].nominated && exists j :: 0 <= j < |ps| && Reverts(ps[j], ps[i].sha)
  }

  /** The newest revert of a nominated commit of the list. */
  predicate Cancels(ps: seq<Record>, i: nat)
    requires i < |ps|
  {
    && ps[i].nominationType == Some(REVERT) && Because(ps[i], Noms(ps))
    && forall j :: 0 <= j < i ==> !Reverts(ps[j], ps[i].becauseSha.value)
  }

  predicate Denominated(ps: seq<Record>, i: nat)
    requires i < |ps|
  {
    Target(ps, i) || Cancels(ps, i)
  }

  function Denominate(c: Record): Record { c.(nominated := false, resolution := DENOMINATED) }

  function Cancel(ps: seq<Record>): (r: seq<Record>)
    ensures |r| == |ps|
    ensures forall i :: 0 <= i < |ps| ==> r[i] == if Denominated(ps, i) then Denominate(ps[i]) else ps[i]
  {
    seq(|ps|, i requires 0 <= i < |ps| => if Denominated(ps, i) then Denominate(ps[i]) else ps[i])
  }

  // ------------------------------------------------------------------- the last loop

  function SettleOne(c: Record): Record {
    if c.resolution == UNRESOLVED && !c.nominated then c.(resolution := NOTNEEDED) else c
  }

  function Settle(cs: seq<Record>): (r: seq<Record>)
    ensures |r| == |cs| && forall i :: 0 <= i < |cs| ==> r[i] == SettleOne(cs[i])
  {
    seq(|cs|, i requires 0 <= i < |cs| => SettleOne(cs[i]))
  }

  /** Everything that follows the gathering of the individual nominations. */
  function Finish(cs: seq<Record>, previous: seq<Record>): (r: seq<Record>)
    ensures |r| == |cs|
  {
    Settle(Cancel(PassOne(cs, Noms(previous))))
  }

  // ------------------------------------------------------------------ shared lemmas

  predicate DistinctShas(cs: seq<Record>) {
    forall i, j :: 0 <= i < j < |cs| ==> cs[i].sha != cs[j].sha
  }

  predicate DisjointShas(cs: seq<Record>, ds: seq<Record>) {
    forall i, j :: 0 <= i < |cs| && 0 <= j < |ds| ==> cs[i].sha != ds[j].sha
  }

  /** The first loop changes nothing but `nominated`, and only of pending fixes. */
  lemma {:induction false} PassOneAt(cs: seq<Record>, base: set<Sha>, i: nat)
    requires i < |cs|
    ensures PassOne(cs, base)[i..] == PassOne(cs[i..], base)
    ensures PassOne(cs, base)[i] == Promote(cs[i], base + Noms(PassOne(cs, base)[i + 1..]))
    ensures PassOne(cs, base)[i] == cs[i].(nominated := PassOne(cs, base)[i].nominated)
  {
    var r := PassOne(cs, base);
    if i == 0 {
      assert cs[0..] == cs && r[0..] == r && r[1..] == PassOne(cs[1..], base);
    } else {
      PassOneAt(cs[1..], base, i - 1);
      assert r[1..] == PassOne(cs[1..], base);
      assert r[i..] == r[1..][i - 1..] && cs[i..] == cs[1..][i - 1..];
      assert r[i + 1..] == r[1..][i..];
    }
  }

  lemma {:induction false} PassOneConcat(newer: seq<Record>, older: seq<Record>, base: set<Sha>)
    ensures PassOne(newer + older, base) ==
            PassOne(newer, base + Noms(PassOne(older, base))) + PassOne(older, base)
  {
    var po := PassOne(older, base);
    if newer == [] {
      assert newer + older == older;
    } else {
      assert (newer + older)[1..] == newer[1..] + older;
      PassOneConcat(newer[1..], older, base);
      var rest := PassOne(newer[1..], base + Noms(po));
      NomsConcat(rest, po);
      assert base + Noms(rest + po) == base + Noms(po) + Noms(rest);
    }
  }

  lemma NomsConcat(a: seq<Record>, b: seq<Record>)
    ensures Noms(a + b) == Noms(a) + Noms(b)
  {
    forall s | s in Noms(a) + Noms(b) ensures s in Noms(a + b) {
      var c :| c in a + b && c.nominated && c.sha == s;
    }
  }

  /** The sha of a nominated commit, and back. */
  lemma NomsIndex(cs: seq<Record>, s: Sha) returns (i: nat)
    requires s in Noms(cs)
    ensures i < |cs| && cs[i].nominated && cs[i].sha == s
  {
    var c :| c in cs && c.nominated && c.sha == s;
    i :| 0 <= i < |cs| && cs[i] == c;
  }
}
