/** The pull-request readiness rule of the maintainer script, and the partition of a
    repository's open pull requests into mergeable and failed ones. */
module Maintainer {
  import opened Text
  import opened Lists

  /** A legacy commit status: its state and the context that names it. */
  datatype CommitStatus = CommitStatus(state: string, context: string)

  /** A check run: its status, its name and its conclusion (None while not concluded). */
  datatype CheckRun = CheckRun(status: string, name: string, conclusion: Option<string>)

  datatype Commit = Commit(statuses: seq<CommitStatus>, checkRuns: seq<CheckRun>)

  /** The fields of an open pull request the script reads. `mergeable` is None while
      GitHub has not computed it. */
  datatype PullRequest = PullRequest(number: int, title: string, draft: bool, mergeable: Option<bool>,
                                     mergeableState: Option<string>, commits: seq<Commit>)

  /** The `(status, reason)` pair `check_pr_status` returns. */
  datatype PrStatus = Success | Failed(reason: string)

  // ---------------------------------------------------------------------------
  // Legacy statuses

  predicate StatusBlocks(s: CommitStatus) {
    s.state == "error" || s.state == "failure" || s.state == "pending"
  }

  function StatusMessage(s: CommitStatus): (m: string)
    ensures m != ""
  {
    if s.state == "pending" then "Check pending: " + s.context else "Check failed: " + s.context
  }

  /** The reason given by the first legacy status that is an error, a failure or pending. */
  function FirstStatusFailure(ss: seq<CommitStatus>): (r: Option<string>)
    ensures r.None? <==> forall i :: 0 <= i < |ss| ==> !StatusBlocks(ss[i])
    ensures r.Some? ==> StartsWith(r.value, "Check ")
  {
    if ss == [] then None
    else if ss[0].state == "error" || ss[0].state == "failure" then
      var m := "Check failed: " + ss[0].context;
      assert m[..6] == "Check ";
      Some(m)
    else if ss[0].state == "pending" then
      var m := "Check pending: " + ss[0].context;
      assert m[..6] == "Check ";
      Some(m)
    else
      var r := FirstStatusFailure(ss[1..]);
      assert forall i :: 1 <= i < |ss| ==> ss[i] == ss[1..][i - 1];
      r
  }

  /** The first blocking status decides, whatever follows it. */
  lemma {:induction false} FirstStatusFailureAt(ss: seq<CommitStatus>, i: nat)
    requires i < |ss| && StatusBlocks(ss[i])
    requires forall j :: 0 <= j < i ==> !StatusBlocks(ss[j])
    ensures FirstStatusFailure(ss) == Some(StatusMessage(ss[i]))
  {
    if i > 0 {
      assert !StatusBlocks(ss[0]);
      FirstStatusFailureAt(ss[1..], i - 1);
    }
  }

  // ---------------------------------------------------------------------------
  // Check runs

  predicate RunPasses(r: CheckRun) {
    r.status == "completed" && r.conclusion.Some?
    && (r.conclusion.value == "success" || r.conclusion.value == "neutral" || r.conclusion.value == "skipped")
  }

  /** `str()` of a conclusion, `None` included. */
  function ConclusionText(c: Option<string>): string {
    match c
    case None => "None"
    case Some(s) => s
  }

  function RunMessage(r: CheckRun): (m: string)
    ensures m != ""
  {
    if r.status != "completed" then "Check not completed: " + r.name
    else "Check failed: " + r.name + " (" + ConclusionText(r.conclusion) + ")"
  }

  /** The reason given by the first check run that is not completed or did not pass. */
  function FirstRunFailure(rs: seq<CheckRun>): (r: Option<string>)
    ensures r.None? <==> forall i :: 0 <= i < |rs| ==> RunPasses(rs[i])
    ensures r.Some? ==> StartsWith(r.value, "Check ")
  {
    if rs == [] then None
    else if rs[0].status != "completed" then
      var m := "Check not completed: " + rs[0].name;
      assert m[..6] == "Check ";
      Some(m)
    else if !RunPasses(rs[0]) then
      var m := "Check failed: " + rs[0].name + " (" + ConclusionText(rs[0].conclusion) + ")";
      assert m[..6] == "Check ";
      Some(m)
    else
      var r := FirstRunFailure(rs[1..]);
      assert forall i :: 1 <= i < |rs| ==> rs[i] == rs[1..][i - 1];
      r
  }

  /** The first check run that does not pass decides, whatever follows it. */
  lemma {:induction false} FirstRunFailureAt(rs: seq<CheckRun>, i: nat)
    requires i < |rs| && !RunPasses(rs[i])
    requires forall j :: 0 <= j < i ==> RunPasses(rs[j])
    ensures FirstRunFailure(rs) == Some(RunMessage(rs[i]))
  {
    if i > 0 {
      assert RunPasses(rs[0]);
      FirstRunFailureAt(rs[1..], i - 1);
    }
  }

  // ---------------------------------------------------------------------------
  // check_pr_status

  predicate HasConflicts(pr: PullRequest) {
    pr.mergeable == Some(false) || pr.mergeableState == Some("dirty")
  }

  /** `check_pr_status`: the first rule that fires decides; every failure has a reason. */
  function CheckPrStatus(pr: PullRequest): (r: PrStatus)
    ensures r.Failed? ==> r.reason != ""
  {
    if HasConflicts(pr) then Failed("Has merge conflicts")
    else if pr.commits == [] then Failed("No commits found")
    else
      var latest := pr.commits[|pr.commits| - 1];
      if latest.statuses == [] && latest.checkRuns == [] then Failed("No CI checks found")
      else match FirstStatusFailure(latest.statuses)
        case Some(reason) => Failed(reason)
        case None =>
          match FirstRunFailure(latest.checkRuns)
          case Some(reason) => Failed(reason)
          case None => Success
  }

  /** What "ready to merge" means, rule by rule. */
  predicate Ready(pr: PullRequest) {
    !HasConflicts(pr) && pr.commits != []
    && var latest := pr.commits[|pr.commits| - 1];
       (latest.statuses != [] || latest.checkRuns != [])
       && (forall i :: 0 <= i < |latest.statuses| ==> !StatusBlocks(latest.statuses[i]))
       && (forall i :: 0 <= i < |latest.checkRuns| ==> RunPasses(latest.checkRuns[i]))
  }

  /** A pull request is reported as a success exactly when it is ready. */
  lemma SuccessIffReady(pr: PullRequest)
    ensures CheckPrStatus(pr) == Success <==> Ready(pr)
  {
  }

  /** Merge conflicts are reported exactly for `mergeable is False` or a dirty merge
      state; an unknown `mergeable` is not a conflict. */
  lemma ConflictsIffReported(pr: PullRequest)
    ensures CheckPrStatus(pr) == Failed("Has merge conflicts") <==> HasConflicts(pr)
  {
    if !HasConflicts(pr) && pr.commits != [] {
      var latest := pr.commits[|pr.commits| - 1];
      assert !StartsWith("Has merge conflicts", "Check ") by { assert "Has merge conflicts"[0] == 'H'; }
    }
  }

  /** Without conflicts, a pull request with no commits, or whose latest commit has neither
      a legacy status nor a check run, fails with the fixed reason for that step. */
  lemma EarlyFailures(pr: PullRequest)
    requires !HasConflicts(pr)
    ensures pr.commits == [] ==> CheckPrStatus(pr) == Failed("No commits found")
    ensures pr.commits != [] && pr.commits[|pr.commits| - 1].statuses == [] && pr.commits[|pr.commits| - 1].checkRuns == []
            ==> CheckPrStatus(pr) == Failed("No CI checks found")
  {
  }

  /** Only the latest commit is consulted: earlier commits never matter. */
  lemma OnlyLatestCommit(pr: PullRequest, earlier: seq<Commit>)
    requires pr.commits != []
    ensures CheckPrStatus(pr) == CheckPrStatus(pr.(commits := earlier + [pr.commits[|pr.commits| - 1]]))
  {
  }

  /** Legacy statuses are scanned first: a blocking status decides over every check run. */
  lemma LegacyStatusDecides(pr: PullRequest, i: nat)
    requires !HasConflicts(pr) && pr.commits != []
    requires var latest := pr.commits[|pr.commits| - 1];
             i < |latest.statuses| && StatusBlocks(latest.statuses[i])
             && forall j :: 0 <= j < i ==> !StatusBlocks(latest.statuses[j])
    ensures CheckPrStatus(pr) == Failed(StatusMessage(pr.commits[|pr.commits| - 1].statuses[i]))
  {
    FirstStatusFailureAt(pr.commits[|pr.commits| - 1].statuses, i);
  }

  /** With no blocking status, the first check run that does not pass decides. */
  lemma CheckRunDecides(pr: PullRequest, i: nat)
    requires !HasConflicts(pr) && pr.commits != []
    requires var latest := pr.commits[|pr.commits| - 1];
             (forall j :: 0 <= j < |latest.statuses| ==> !StatusBlocks(latest.statuses[j]))
             && i < |latest.checkRuns| && !RunPasses(latest.checkRuns[i])
             && forall j :: 0 <= j < i ==> RunPasses(latest.checkRuns[j])
    ensures CheckPrStatus(pr) == Failed(RunMessage(pr.commits[|pr.commits| - 1].checkRuns[i]))
  {
    FirstRunFailureAt(pr.commits[|pr.commits| - 1].checkRuns, i);
  }

  // ---------------------------------------------------------------------------
  // scan_single_repository

  /** `f"#{pr.number} {pr.title}"` */
  function Title(pr: PullRequest): string {
    "#" + IntToString(pr.number) + " " + pr.title
  }

  function MergeableOf(repoName: string): PullRequest -> Option<(string, PullRequest)> {
    (pr: PullRequest) => if !pr.draft && CheckPrStatus(pr) == Success then Some((repoName, pr)) else None
  }

  function FailedOf(repoName: string): PullRequest -> Option<(string, PullRequest, string)> {
    (pr: PullRequest) => if !pr.draft && CheckPrStatus(pr).Failed? then Some((repoName, pr, CheckPrStatus(pr).reason)) else None
  }

  function TitleOf(pr: PullRequest): Option<string> {
    if pr.draft then None else Some(Title(pr))
  }

  /** The loop of `scan_single_repository` over the open pull requests, oldest first:
      drafts are skipped, every other one goes to exactly one of the two lists, and
      every one is titled. */
  method ScanSingleRepository(repoName: string, prs: seq<PullRequest>)
    returns (mergeable: seq<(string, PullRequest)>, failed: seq<(string, PullRequest, string)>, titles: seq<string>)
    ensures mergeable == FilterMap(prs, MergeableOf(repoName))
    ensures failed == FilterMap(prs, FailedOf(repoName))
    ensures titles == FilterMap(prs, TitleOf)
    ensures |titles| == |mergeable| + |failed|
  {
    mergeable, failed, titles := [], [], [];
    var i := 0;
    while i < |prs|
      invariant 0 <= i <= |prs|
      invariant mergeable == FilterMap(prs[..i], MergeableOf(repoName))
      invariant failed == FilterMap(prs[..i], FailedOf(repoName))
      invariant titles == FilterMap(prs[..i], TitleOf)
      invariant |titles| == |mergeable| + |failed|
    {
      FilterMapStep(prs, i, MergeableOf(repoName));
      FilterMapStep(prs, i, FailedOf(repoName));
      FilterMapStep(prs, i, TitleOf);
      var pr := prs[i];
      if !pr.draft {
        var status := CheckPrStatus(pr);
        if status == Success {
          assert MergeableOf(repoName)(pr) == Some((repoName, pr)) && FailedOf(repoName)(pr) == None;
          mergeable := mergeable + [(repoName, pr)];
        } else {
          assert MergeableOf(repoName)(pr) == None && FailedOf(repoName)(pr) == Some((repoName, pr, status.reason));
          failed := failed + [(repoName, pr, status.reason)];
        }
        titles := titles + [Title(pr)];
      } else {
        assert MergeableOf(repoName)(pr) == None && FailedOf(repoName)(pr) == None && TitleOf(pr) == None;
      }
      i := i + 1;
    }
    assert prs[..i] == prs;
  }

  /** A non-draft pull request is mergeable exactly when its status is a success and
      failed, with its reason, exactly when it is not; a draft is in neither list. */
  lemma PartitionMember(repoName: string, prs: seq<PullRequest>, pr: PullRequest, reason: string)
    requires pr in prs
    ensures (repoName, pr) in FilterMap(prs, MergeableOf(repoName)) <==> !pr.draft && CheckPrStatus(pr) == Success
    ensures (repoName, pr, reason) in FilterMap(prs, FailedOf(repoName)) <==> !pr.draft && CheckPrStatus(pr) == Failed(reason)
  {
    FilterMapMember(prs, MergeableOf(repoName), (repoName, pr));
    FilterMapMember(prs, FailedOf(repoName), (repoName, pr, reason));
  }
}
