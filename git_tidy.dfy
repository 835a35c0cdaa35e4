/** The branch classifier and deletion planner of the git housekeeping script.
    Every git command's output is an input here, as the lines of its stdout. */
module GitTidy {
  import opened Text
  import opened Lists

  // ---------------------------------------------------------------------------
  // Reading `git branch`: the local branch names

  /** `b.strip().lstrip("*").strip()`: a `git branch` line without the current-branch marker. */
  function BranchName(line: string): string {
    Strip(LStripChar(Strip(line), '*'))
  }

  /** The local branch names of `get_remote_only_branches`, a set. */
  function LocalBranchSet(lines: seq<string>): set<string> {
    set line | line in lines && Strip(line) != "" :: BranchName(line)
  }

  /** One `git branch` line's contribution to the list `load_all_data` hands to the
      merged-branch lookup: non-blank, non-empty once cleaned, not the default branch. */
  function LocalBranch(line: string, defaultBranch: string): (b: Option<string>)
    ensures b.Some? <==> Strip(line) != "" && BranchName(line) != "" && BranchName(line) != defaultBranch
    ensures b.Some? ==> b.value == BranchName(line)
  {
    if Strip(line) != "" && BranchName(line) != "" && BranchName(line) != defaultBranch
    then Some(BranchName(line)) else None
  }

  function LocalBranchList(lines: seq<string>, defaultBranch: string): seq<string> {
    FilterMap(lines, line => LocalBranch(line, defaultBranch))
  }

  /** The list holds exactly the cleaned names of the non-blank lines, less the
      empty name and the default branch. */
  lemma LocalBranchListMember(lines: seq<string>, defaultBranch: string, b: string)
    ensures b in LocalBranchList(lines, defaultBranch) <==>
            b != "" && b != defaultBranch && exists line :: line in lines && Strip(line) != "" && BranchName(line) == b
  {
    FilterMapMember(lines, line => LocalBranch(line, defaultBranch), b);
  }

  // ---------------------------------------------------------------------------
  // Remote-only branches: `git branch -r` lines naming branches that are not local

  /** The two remotes the script looks at; it keeps one list for each. */
  datatype RemoteOnly = RemoteOnly(origin: seq<string>, upstream: seq<string>)

  /** One `git branch -r` line, split at its first `/` into (remote, branch), or
      None when the line is skipped: blank, a `HEAD ->` pointer, no `/`, or the
      branch is the default branch or `HEAD`. */
  function RemoteEntry(raw: string, defaultBranch: string): (e: Option<(string, string)>)
    ensures e.Some? ==> Strip(raw) == e.value.0 + "/" + e.value.1 && '/' !in e.value.0
    ensures e.Some? ==> e.value.1 != defaultBranch && e.value.1 != "HEAD"
    ensures e.Some? ==> !Contains(Strip(raw), "HEAD ->")
  {
    var line := Strip(raw);
    if line == "" || Contains(line, "HEAD ->") || '/' !in line then None
    else
      var remote := BeforeFirst(line, '/');
      var branch := line[|remote| + 1..];
      if branch == defaultBranch || branch == "HEAD" then None else Some((remote, branch))
  }

  /** A well-formed line is split at its FIRST slash: the branch part may hold more. */
  lemma RemoteEntryOfLine(raw: string, remote: string, branch: string, defaultBranch: string)
    requires Strip(raw) == remote + "/" + branch && '/' !in remote
    requires !Contains(Strip(raw), "HEAD ->")
    requires branch != defaultBranch && branch != "HEAD"
    ensures RemoteEntry(raw, defaultBranch) == Some((remote, branch))
  {
    var line := Strip(raw);
    BeforeFirstConcat(remote, '/', branch);
    assert line[|remote| + 1..] == branch;
  }

  /** What one `git branch -r` line adds to `remote`'s list. */
  function RemoteOnlyOn(line: string, remote: string, defaultBranch: string, local: set<string>): Option<string> {
    var entry := RemoteEntry(line, defaultBranch);
    if entry.Some? && entry.value.0 == remote && entry.value.1 !in local then Some(entry.value.1) else None
  }

  /** The names `get_remote_only_branches` appends to `remote`'s list, in line order. */
  function RemoteOnlyFor(lines: seq<string>, remote: string, defaultBranch: string, local: set<string>)
    : seq<string>
  {
    FilterMap(lines, line => RemoteOnlyOn(line, remote, defaultBranch, local))
  }

  /** A name is on `remote`'s list iff some line names it on that remote and it is not local. */
  lemma RemoteOnlyForMember(lines: seq<string>, remote: string, defaultBranch: string, local: set<string>, b: string)
    ensures b in RemoteOnlyFor(lines, remote, defaultBranch, local) <==>
            b !in local && exists line :: line in lines && RemoteEntry(line, defaultBranch) == Some((remote, b))
  {
    FilterMapMember(lines, line => RemoteOnlyOn(line, remote, defaultBranch, local), b);
  }

  /** Neither list ever holds the default branch, `HEAD`, or a local branch. */
  lemma RemoteOnlyForExcludes(lines: seq<string>, remote: string, defaultBranch: string, local: set<string>, b: string)
    requires b == defaultBranch || b == "HEAD" || b in local
    ensures b !in RemoteOnlyFor(lines, remote, defaultBranch, local)
  {
    RemoteOnlyForMember(lines, remote, defaultBranch, local, b);
  }

  /** `get_remote_only_branches`. */
  method GetRemoteOnlyBranches(defaultBranch: string, localLines: seq<string>, remoteLines: seq<string>)
    returns (r: RemoteOnly)
    ensures r.origin == RemoteOnlyFor(remoteLines, "origin", defaultBranch, LocalBranchSet(localLines))
    ensures r.upstream == RemoteOnlyFor(remoteLines, "upstream", defaultBranch, LocalBranchSet(localLines))
  {
    r := CollectRemoteOnly(defaultBranch, LocalBranchSet(localLines), remoteLines);
  }

  /** The loop of `get_remote_only_branches` over the `git branch -r` lines, appending
      to the list of each line's remote. */
  method CollectRemoteOnly(defaultBranch: string, local: set<string>, remoteLines: seq<string>)
    returns (r: RemoteOnly)
    ensures r.origin == RemoteOnlyFor(remoteLines, "origin", defaultBranch, local)
    ensures r.upstream == RemoteOnlyFor(remoteLines, "upstream", defaultBranch, local)
  {
    var origin: seq<string> := [];
    var upstream: seq<string> := [];
    var i := 0;
    while i < |remoteLines|
      invariant 0 <= i <= |remoteLines|
      invariant origin == RemoteOnlyFor(remoteLines[..i], "origin", defaultBranch, local)
      invariant upstream == RemoteOnlyFor(remoteLines[..i], "upstream", defaultBranch, local)
    {
      FilterMapStep(remoteLines, i, line => RemoteOnlyOn(line, "origin", defaultBranch, local));
      FilterMapStep(remoteLines, i, line => RemoteOnlyOn(line, "upstream", defaultBranch, local));
      var entry := RemoteEntry(remoteLines[i], defaultBranch);
      if entry.Some? && entry.value.1 !in local {
        var (remote, branch) := entry.value;
        if remote == "origin" {
          origin := origin + [branch];
        } else if remote == "upstream" {
          upstream := upstream + [branch];
        }
      }
      i := i + 1;
    }
    assert remoteLines[..i] == remoteLines;
    r := RemoteOnly(origin, upstream);
  }

  // ---------------------------------------------------------------------------
  // Gone branches: `git branch -vv` lines containing `[gone]`

  /** The branch a `git branch -vv` line reports as gone: for a line containing
      `[gone]`, its first word with leading `*` removed, unless that is empty. */
  function GoneEntry(line: string): (e: Option<string>)
    ensures e.Some? ==> Contains(line, "[gone]") && e.value != ""
  {
    if Contains(line, "[gone]") then
      var b := Strip(LStripChar(FirstWord(Strip(line)), '*'));
      if b != "" then Some(b) else None
    else None
  }

  /** The gone list, in output order. */
  function GoneSpec(lines: seq<string>): seq<string> {
    FilterMap(lines, GoneEntry)
  }

  /** A name is gone iff a line containing `[gone]` gives it; the empty name never is. */
  lemma GoneSpecMember(lines: seq<string>, b: string)
    ensures b in GoneSpec(lines) <==> exists line :: line in lines && GoneEntry(line) == Some(b)
    ensures b in GoneSpec(lines) ==> b != "" && exists line :: line in lines && Contains(line, "[gone]")
  {
    FilterMapMember(lines, GoneEntry, b);
  }

  /** The first word of a stripped `* name ...` line is the marker `*` itself. */
  lemma StarLineFirstWord(rest: string)
    requires rest == [] || IsSpace(rest[0])
    ensures FirstWord(Strip("*" + rest)) == "*"
  {
    StripStarLine(rest);
    var u := RStrip(rest);
    assert u == [] || u[0] == rest[0];
    FirstWordOf("*", u);
  }

  lemma StripStarLine(rest: string)
    ensures Strip("*" + rest) == "*" + RStrip(rest)
  {
    assert "*" + rest == "" + "*" + rest;
    StripPadded("", "*", rest);
  }

  /** A line `<spaces><name> <rest>` whose `rest` contains `[gone]` reports `name`, for a
      name without spaces that does not start with the marker `*`. */
  lemma GoneEntryFinds(lead: string, b: string, rest: string)
    requires forall i :: 0 <= i < |lead| ==> IsSpace(lead[i])
    requires b != [] && b[0] != '*' && forall i :: 0 <= i < |b| ==> !IsSpace(b[i])
    requires Contains(rest, "[gone]")
    ensures GoneEntry(lead + b + " " + rest) == Some(b)
  {
    var t := " " + rest;
    var line := lead + b + " " + rest;
    ContainsAppend(lead + b + " ", rest, "[gone]");
    ConcatAssoc(lead + b, " ", rest);
    StripPadded(lead, b, t);
    var u := RStrip(t);
    RStripAgain(t);
    FirstWordOf(b, u);
    assert LStripChar(b, '*') == b;
    StripNoEdgeSpace(b);
  }

  /** The checked-out branch is printed as `* name ...`, so it is never reported as gone. */
  lemma CurrentBranchNeverGone(rest: string)
    requires rest == [] || IsSpace(rest[0])
    ensures GoneEntry("*" + rest) == None
  {
    StarLineFirstWord(rest);
    assert LStripChar("*", '*') == [];
  }

  /** The gone loop of `load_all_data`. */
  method GoneBranches(lines: seq<string>) returns (gone: seq<string>)
    ensures gone == GoneSpec(lines)
  {
    gone := [];
    var i := 0;
    while i < |lines|
      invariant 0 <= i <= |lines|
      invariant gone == GoneSpec(lines[..i])
    {
      match GoneEntry(lines[i]) {
        case Some(branch) => gone := gone + [branch];
        case None =>
      }
      FilterMapStep(lines, i, GoneEntry);
      i := i + 1;
    }
    assert lines[..i] == lines;
  }

  // ---------------------------------------------------------------------------
  // Merged branches: names that are the head of a merged pull request

  /** A closed pull request as `get_pulls(state="closed")` lists it. */
  datatype ClosedPull = ClosedPull(merged: bool, headRef: string)

  function MergedHeadRefs(pulls: seq<ClosedPull>): set<string> {
    set pr | pr in pulls && pr.merged && pr.headRef != "" :: pr.headRef
  }

  /** `find_merged_branches`: the branches, in their order, that are the head of
      some merged pull request; None stands for a GitHub API error. */
  function FindMergedBranches(branches: seq<string>, pulls: Option<seq<ClosedPull>>): (r: seq<string>)
    ensures IsSubsequence(r, branches)
    ensures pulls.None? ==> r == []
  {
    match pulls
    case None => []
    case Some(prs) =>
      var heads := MergedHeadRefs(prs);
      FilterIsSubsequence(branches, b => b in heads);
      Filter(branches, b => b in heads)
  }

  /** A branch is reported merged iff it is in the input, and some merged pull request
      has it as its non-empty head ref. */
  lemma FindMergedBranchesMember(branches: seq<string>, pulls: Option<seq<ClosedPull>>, b: string)
    ensures b in FindMergedBranches(branches, pulls) <==>
            pulls.Some? && b in branches && b != "" && exists pr :: pr in pulls.value && pr.merged && pr.headRef == b
  {
    if pulls.Some? {
      var heads := MergedHeadRefs(pulls.value);
      FilterMember(branches, b => b in heads, b);
    }
  }

  /** The remote-only lists cut down to the names that are merged pull-request
      heads; one lookup covers both remotes. */
  function MergedRemoteOnly(ro: RemoteOnly, pulls: Option<seq<ClosedPull>>): (r: RemoteOnly)
    ensures IsSubsequence(r.origin, ro.origin) && IsSubsequence(r.upstream, ro.upstream)
  {
    var merged := FindMergedBranches(ro.origin + ro.upstream, pulls);
    FilterIsSubsequence(ro.origin, b => b in merged);
    FilterIsSubsequence(ro.upstream, b => b in merged);
    RemoteOnly(Filter(ro.origin, b => b in merged), Filter(ro.upstream, b => b in merged))
  }

  /** Each remote keeps exactly its names that are merged pull-request heads. */
  lemma MergedRemoteOnlyMember(ro: RemoteOnly, pulls: Option<seq<ClosedPull>>, b: string)
    ensures b in MergedRemoteOnly(ro, pulls).origin <==>
            b in ro.origin && pulls.Some? && b in MergedHeadRefs(pulls.value)
    ensures b in MergedRemoteOnly(ro, pulls).upstream <==>
            b in ro.upstream && pulls.Some? && b in MergedHeadRefs(pulls.value)
  {
    var merged := FindMergedBranches(ro.origin + ro.upstream, pulls);
    FilterMember(ro.origin, b => b in merged, b);
    FilterMember(ro.upstream, b => b in merged, b);
    FindMergedBranchesMember(ro.origin + ro.upstream, pulls, b);
  }

  // ---------------------------------------------------------------------------
  // Stale branches: `for-each-ref` lines `name|date` older than the cutoff

  const SecondsPerDay := 86400

  /** One `for-each-ref` line as (branch, days inactive), or None when the line has
      no `|`, names the default branch, or is not older than the cutoff. Times are
      seconds; `parseDate` stands for `datetime.fromisoformat`. */
  function StaleEntry(line: string, defaultBranch: string, staleDays: int, now: int,
                      parseDate: string -> int): (e: Option<(string, int)>)
    ensures e.Some? ==> '|' in line && e.value.0 == BeforeFirst(line, '|') && e.value.0 != defaultBranch
    ensures e.Some? ==> parseDate(line[|e.value.0| + 1..]) < now - staleDays * SecondsPerDay
    ensures e.Some? ==> e.value.1 >= staleDays
    ensures e.Some? ==> e.value.1 == (now - parseDate(line[|e.value.0| + 1..])) / SecondsPerDay
    ensures ('|' in line && BeforeFirst(line, '|') != defaultBranch
             && parseDate(line[|BeforeFirst(line, '|')| + 1..]) < now - staleDays * SecondsPerDay) ==> e.Some?
  {
    if '|' !in line || BeforeFirst(line, '|') == defaultBranch then None
    else
      var branch := BeforeFirst(line, '|');
      var commitDate := parseDate(line[|branch| + 1..]);
      if commitDate < now - staleDays * SecondsPerDay
      then Some((branch, (now - commitDate) / SecondsPerDay))
      else None
  }

  /** The stale list of `get_stale_branches`, in line order. */
  function StaleSpec(lines: seq<string>, defaultBranch: string, staleDays: int, now: int,
                     parseDate: string -> int): seq<(string, int)>
  {
    FilterMap(lines, line => StaleEntry(line, defaultBranch, staleDays, now, parseDate))
  }

  /** An entry is stale iff some line gives it: a `name|date` line whose name is not
      the default branch and whose date is strictly before the cutoff. */
  lemma StaleSpecMember(lines: seq<string>, defaultBranch: string, staleDays: int, now: int,
                        parseDate: string -> int, e: (string, int))
    ensures e in StaleSpec(lines, defaultBranch, staleDays, now, parseDate) <==>
            exists line :: line in lines && StaleEntry(line, defaultBranch, staleDays, now, parseDate) == Some(e)
    ensures e in StaleSpec(lines, defaultBranch, staleDays, now, parseDate) ==> e.0 != defaultBranch && e.1 >= staleDays
  {
    FilterMapMember(lines, line => StaleEntry(line, defaultBranch, staleDays, now, parseDate), e);
  }

  /** `get_stale_branches`: one pass over the `for-each-ref` lines. */
  method GetStaleBranches(lines: seq<string>, defaultBranch: string, staleDays: int, now: int,
                          parseDate: string -> int) returns (stale: seq<(string, int)>)
    ensures stale == StaleSpec(lines, defaultBranch, staleDays, now, parseDate)
  {
    stale := [];
    var i := 0;
    while i < |lines|
      invariant 0 <= i <= |lines|
      invariant stale == StaleSpec(lines[..i], defaultBranch, staleDays, now, parseDate)
    {
      match StaleEntry(lines[i], defaultBranch, staleDays, now, parseDate) {
        case Some(e) => stale := stale + [e];
        case None =>
      }
      FilterMapStep(lines, i, line => StaleEntry(line, defaultBranch, staleDays, now, parseDate));
      i := i + 1;
    }
    assert lines[..i] == lines;
  }

  /** The stale list without the branches already listed as gone or merged. */
  function ExcludeGoneAndMerged(stale: seq<(string, int)>, gone: seq<string>, merged: seq<string>)
    : (r: seq<(string, int)>)
    ensures IsSubsequence(r, stale)
  {
    FilterIsSubsequence(stale, (e: (string, int)) => e.0 !in gone && e.0 !in merged);
    Filter(stale, (e: (string, int)) => e.0 !in gone && e.0 !in merged)
  }

  /** An entry survives iff its branch is neither gone nor merged. */
  lemma ExcludeGoneAndMergedMember(stale: seq<(string, int)>, gone: seq<string>, merged: seq<string>,
                                   e: (string, int))
    ensures e in ExcludeGoneAndMerged(stale, gone, merged) <==> e in stale && e.0 !in gone && e.0 !in merged
  {
    FilterMember(stale, (e: (string, int)) => e.0 !in gone && e.0 !in merged, e);
  }

  predicate SortedByDays(s: seq<(string, int)>) {
    forall i, j :: 0 <= i < j < |s| ==> s[i].1 <= s[j].1
  }

  /** Puts `e` after every entry with at most its days, keeping equal entries in order. */
  function InsertByDays(e: (string, int), s: seq<(string, int)>): (r: seq<(string, int)>)
    requires SortedByDays(s)
    ensures SortedByDays(r)
    ensures multiset(r) == multiset(s) + multiset{e}
    ensures forall x :: x in r ==> x == e || x in s
  {
    if s == [] then [e]
    else if e.1 < s[0].1 then [e] + s
    else
      var rest := InsertByDays(e, s[1..]);
      SortedAfterHead(e, s, rest);
      [s[0]] + rest
  }

  /** Putting the head of `s` back in front of `e` inserted into its tail. */
  lemma SortedAfterHead(e: (string, int), s: seq<(string, int)>, rest: seq<(string, int)>)
    requires s != [] && SortedByDays(s) && s[0].1 <= e.1 && SortedByDays(rest)
    requires forall x :: x in rest ==> x == e || x in s[1..]
    requires multiset(rest) == multiset(s[1..]) + multiset{e}
    ensures SortedByDays([s[0]] + rest)
    ensures multiset([s[0]] + rest) == multiset(s) + multiset{e}
    ensures forall x :: x in [s[0]] + rest ==> x == e || x in s
  {
    assert s == [s[0]] + s[1..];
    forall k | 0 <= k < |rest| ensures s[0].1 <= rest[k].1 {
      assert rest[k] in rest;
      if rest[k] != e {
        var m :| 0 <= m < |s[1..]| && s[1..][m] == rest[k];
        assert s[m + 1] == rest[k];
      }
    }
    var r := [s[0]] + rest;
    forall i, j | 0 <= i < j < |r| ensures r[i].1 <= r[j].1 {
      if i > 0 {
        assert r[i] == rest[i - 1] && r[j] == rest[j - 1];
      } else {
        assert r[j] == rest[j - 1];
      }
    }
  }

  /** `sorted(stale, key=lambda x: x[1])` */
  function SortByDays(s: seq<(string, int)>): (r: seq<(string, int)>)
    ensures SortedByDays(r)
    ensures multiset(r) == multiset(s)
  {
    if s == [] then []
    else
      assert s == s[..|s| - 1] + [s[|s| - 1]];
      InsertByDays(s[|s| - 1], SortByDays(s[..|s| - 1]))
  }

  /** A stale branch with the details gathered for the prompt. */
  datatype StaleBranch = StaleBranch(branch: string, daysAgo: int, commits: string, hasOrigin: bool, hasUpstream: bool)

  /** The (branch, days) pairs a list of stale details was built from. */
  function Pairs(r: seq<StaleBranch>): (p: seq<(string, int)>)
    ensures |p| == |r|
    ensures forall i :: 0 <= i < |r| ==> p[i] == (r[i].branch, r[i].daysAgo)
  {
    seq(|r|, i requires 0 <= i < |r| => (r[i].branch, r[i].daysAgo))
  }

  /** `prepare_stale_branch_data`: sort by days, then attach the recent commits and the
      remote presence (`commitsOf`, `remotesOf` stand for the git queries). */
  function PrepareStaleBranchData(stale: seq<(string, int)>, commitsOf: string -> string,
                                  remotesOf: string -> (bool, bool)): (r: seq<StaleBranch>)
    ensures Pairs(r) == SortByDays(stale)
    ensures forall i, j :: 0 <= i < j < |r| ==> r[i].daysAgo <= r[j].daysAgo
    ensures multiset(Pairs(r)) == multiset(stale)
    ensures forall i :: 0 <= i < |r| ==>
              r[i].commits == commitsOf(r[i].branch) && (r[i].hasOrigin, r[i].hasUpstream) == remotesOf(r[i].branch)
  {
    var sorted := SortByDays(stale);
    var r := seq(|sorted|, i requires 0 <= i < |sorted| =>
      StaleBranch(sorted[i].0, sorted[i].1, commitsOf(sorted[i].0),
                  remotesOf(sorted[i].0).0, remotesOf(sorted[i].0).1));
    assert Pairs(r) == sorted;
    r
  }

  /** Every stale detail comes from an entry of the list it was prepared from. */
  lemma PrepareStaleBranchDataFrom(stale: seq<(string, int)>, commitsOf: string -> string,
                                   remotesOf: string -> (bool, bool), e: StaleBranch)
    requires e in PrepareStaleBranchData(stale, commitsOf, remotesOf)
    ensures (e.branch, e.daysAgo) in stale
  {
    var r := PrepareStaleBranchData(stale, commitsOf, remotesOf);
    var i :| 0 <= i < |r| && r[i] == e;
    assert Pairs(r)[i] in multiset(Pairs(r));
  }

  // ---------------------------------------------------------------------------
  // load_all_data

  datatype BranchData = BranchData(gone: seq<string>, merged: seq<string>, stale: seq<StaleBranch>,
                                   remoteOnly: RemoteOnly)

  /** What the two `get_pulls` calls returned when a GitHub repository is known
      (None for a call that raised a GitHub API error). */
  datatype GithubPulls = GithubPulls(forLocal: Option<seq<ClosedPull>>, forRemote: Option<seq<ClosedPull>>)

  /** `load_all_data`: all four categories, from the outputs of `git branch -vv`,
      `git branch`, `git for-each-ref` and `git branch -r`. */
  method LoadAllData(defaultBranch: string, staleDays: int, now: int, github: Option<GithubPulls>,
                     verboseLines: seq<string>, branchLines: seq<string>, refLines: seq<string>,
                     remoteLines: seq<string>, parseDate: string -> int, commitsOf: string -> string,
                     remotesOf: string -> (bool, bool))
    returns (data: BranchData)
    ensures data.gone == GoneSpec(verboseLines)
    ensures github.None? ==> data.merged == []
    ensures github.Some? ==>
              data.merged == FindMergedBranches(LocalBranchList(branchLines, defaultBranch), github.value.forLocal)
    ensures data.stale == PrepareStaleBranchData(
              ExcludeGoneAndMerged(StaleSpec(refLines, defaultBranch, staleDays, now, parseDate), data.gone, data.merged),
              commitsOf, remotesOf)
    ensures var ro := RemoteOnly(
              RemoteOnlyFor(remoteLines, "origin", defaultBranch, LocalBranchSet(branchLines)),
              RemoteOnlyFor(remoteLines, "upstream", defaultBranch, LocalBranchSet(branchLines)));
            data.remoteOnly == if github.None? then ro else MergedRemoteOnly(ro, github.value.forRemote)
    // what the categories promise
    ensures defaultBranch !in data.merged
    ensures defaultBranch !in data.remoteOnly.origin && defaultBranch !in data.remoteOnly.upstream
    ensures forall e :: e in data.stale ==> e.branch != defaultBranch && e.branch !in data.gone && e.branch !in data.merged
  {
    var gone := GoneBranches(verboseLines);
    var merged: seq<string> := [];
    if github.Some? {
      merged := FindMergedBranches(LocalBranchList(branchLines, defaultBranch), github.value.forLocal);
      FindMergedBranchesMember(LocalBranchList(branchLines, defaultBranch), github.value.forLocal, defaultBranch);
      LocalBranchListMember(branchLines, defaultBranch, defaultBranch);
    }
    var stale := GetStaleBranches(refLines, defaultBranch, staleDays, now, parseDate);
    var staleData := PrepareStaleBranchData(ExcludeGoneAndMerged(stale, gone, merged), commitsOf, remotesOf);
    var remoteOnly := GetRemoteOnlyBranches(defaultBranch, branchLines, remoteLines);
    RemoteOnlyForExcludes(remoteLines, "origin", defaultBranch, LocalBranchSet(branchLines), defaultBranch);
    RemoteOnlyForExcludes(remoteLines, "upstream", defaultBranch, LocalBranchSet(branchLines), defaultBranch);
    if github.Some? {
      MergedRemoteOnlyMember(remoteOnly, github.value.forRemote, defaultBranch);
      remoteOnly := MergedRemoteOnly(remoteOnly, github.value.forRemote);
    }
    data := BranchData(gone, merged, staleData, remoteOnly);
    StaleDataExcludes(refLines, defaultBranch, staleDays, now, parseDate, gone, merged, commitsOf, remotesOf);
  }

  /** The stale details never name the default branch, a gone branch or a merged one. */
  lemma StaleDataExcludes(refLines: seq<string>, defaultBranch: string, staleDays: int, now: int,
                          parseDate: string -> int, gone: seq<string>, merged: seq<string>,
                          commitsOf: string -> string, remotesOf: string -> (bool, bool))
    ensures forall e :: e in PrepareStaleBranchData(
                          ExcludeGoneAndMerged(StaleSpec(refLines, defaultBranch, staleDays, now, parseDate), gone, merged),
                          commitsOf, remotesOf)
                        ==> e.branch != defaultBranch && e.branch !in gone && e.branch !in merged
  {
    var stale := StaleSpec(refLines, defaultBranch, staleDays, now, parseDate);
    var kept := ExcludeGoneAndMerged(stale, gone, merged);
    forall e | e in PrepareStaleBranchData(kept, commitsOf, remotesOf)
      ensures e.branch != defaultBranch && e.branch !in gone && e.branch !in merged
    {
      PrepareStaleBranchDataFrom(kept, commitsOf, remotesOf, e);
      ExcludeGoneAndMergedMember(stale, gone, merged, (e.branch, e.daysAgo));
      StaleSpecMember(refLines, defaultBranch, staleDays, now, parseDate, (e.branch, e.daysAgo));
    }
  }

  /** Gone and merged are not exclusive: a gone branch whose pull request was merged
      is on both lists, since only the stale list has exclusions. */
  lemma GoneAndMergedCanOverlap(defaultBranch: string, pulls: seq<ClosedPull>, verboseLines: seq<string>,
                                branchLines: seq<string>, b: string)
    requires b in GoneSpec(verboseLines)
    requires b in LocalBranchList(branchLines, defaultBranch)
    requires ClosedPull(true, b) in pulls
    ensures b in FindMergedBranches(LocalBranchList(branchLines, defaultBranch), Some(pulls))
    ensures b in GoneSpec(verboseLines)
  {
    LocalBranchListMember(branchLines, defaultBranch, b);
    FindMergedBranchesMember(LocalBranchList(branchLines, defaultBranch), Some(pulls), b);
  }

  // ---------------------------------------------------------------------------
  // Deletion decisions

  datatype Category = Gone | Merged | RemoteOnlyBranch | Stale

  /** Position of a category in the decision list and in the summary. */
  function Rank(c: Category): nat {
    match c
    case Gone => 0
    case Merged => 1
    case RemoteOnlyBranch => 2
    case Stale => 3
  }

  /** (branch, category, has_origin, has_upstream) */
  datatype Decision = Decision(branch: string, category: Category, hasOrigin: bool, hasUpstream: bool)

  /** `collect_gone_branches` and `collect_merged_branches`: one decision per name,
      with the remote presence that `remotesOf` reports. */
  function CollectCategory(names: seq<string>, category: Category, remotesOf: string -> (bool, bool))
    : (r: seq<Decision>)
    ensures |r| == |names|
    ensures forall i :: 0 <= i < |r| ==>
              r[i] == Decision(names[i], category, remotesOf(names[i]).0, remotesOf(names[i]).1)
  {
    seq(|names|, i requires 0 <= i < |names| =>
      Decision(names[i], category, remotesOf(names[i]).0, remotesOf(names[i]).1))
  }

  /** The decisions for one remote's names: each is to be deleted on that remote only. */
  function RemoteDecisions(remote: string, branches: seq<string>): (ds: seq<Decision>)
    ensures |ds| == |branches|
    ensures forall i :: 0 <= i < |ds| ==>
              ds[i] == Decision(branches[i], RemoteOnlyBranch, remote == "origin", remote == "upstream")
  {
    seq(|branches|, i requires 0 <= i < |branches| =>
      Decision(branches[i], RemoteOnlyBranch, remote == "origin", remote == "upstream"))
  }

  /** The remote-only lists as the script's dictionary iterates them. */
  function Items(ro: RemoteOnly): seq<(string, seq<string>)> {
    [("origin", ro.origin), ("upstream", ro.upstream)]
  }

  /** The decisions for the first entries of the dictionary, in iteration order. */
  function ItemsDecisions(items: seq<(string, seq<string>)>): seq<Decision> {
    if items == [] then []
    else
      var last := items[|items| - 1];
      ItemsDecisions(items[..|items| - 1]) + RemoteDecisions(last.0, last.1)
  }

  /** `collect_remote_only_branches`: origin's names then upstream's, each flagged
      for deletion on its own remote only. */
  method CollectRemoteOnlyBranches(ro: RemoteOnly) returns (ds: seq<Decision>)
    ensures ds == RemoteDecisions("origin", ro.origin) + RemoteDecisions("upstream", ro.upstream)
    ensures |ds| == |ro.origin| + |ro.upstream|
    ensures forall i :: 0 <= i < |ds| ==> ds[i].category == RemoteOnlyBranch && ds[i].hasOrigin != ds[i].hasUpstream
  {
    var items := Items(ro);
    ds := [];
    var r := 0;
    while r < |items|
      invariant 0 <= r <= |items|
      invariant ds == ItemsDecisions(items[..r])
    {
      var (remote, branches) := items[r];
      ghost var before := ds;
      var k := 0;
      while k < |branches|
        invariant 0 <= k <= |branches|
        invariant |ds| == |before| + k && ds[..|before|] == before
        invariant forall i :: 0 <= i < k ==>
                    ds[|before| + i] == Decision(branches[i], RemoteOnlyBranch, remote == "origin", remote == "upstream")
      {
        var hasOrigin := remote == "origin";
        var hasUpstream := remote == "upstream";
        ds := ds + [Decision(branches[k], RemoteOnlyBranch, hasOrigin, hasUpstream)];
        k := k + 1;
      }
      assert ds == before + RemoteDecisions(remote, branches);
      assert items[..r + 1][..r] == items[..r];
      r := r + 1;
    }
    assert items[..r] == items;
    assert items[..1] == [items[0]];
  }


  /** What the stale prompt contributes: the branches the user confirmed, with their
      remote presence. `answers[i]` is the reply to the prompt for `stale[i]`. */
  function StaleChoice(entry: (StaleBranch, bool)): Option<Decision> {
    var (b, yes) := entry;
    if yes then Some(Decision(b.branch, Stale, b.hasOrigin, b.hasUpstream)) else None
  }

  function Zip<A, B>(a: seq<A>, b: seq<B>): (z: seq<(A, B)>)
    requires |a| == |b|
    ensures |z| == |a| && forall i :: 0 <= i < |z| ==> z[i] == (a[i], b[i])
  {
    seq(|a|, i requires 0 <= i < |a| => (a[i], b[i]))
  }

  /** `collect_stale_branches`: one prompt per stale branch, in order. */
  method CollectStaleBranches(stale: seq<StaleBranch>, answers: seq<bool>) returns (ds: seq<Decision>)
    requires |answers| == |stale|
    ensures ds == FilterMap(Zip(stale, answers), StaleChoice)
  {
    ds := [];
    if stale == [] {
      return;
    }
    var z := Zip(stale, answers);
    var i := 0;
    while i < |stale|
      invariant 0 <= i <= |stale|
      invariant ds == FilterMap(z[..i], StaleChoice)
    {
      FilterMapStep(z, i, StaleChoice);
      var b := stale[i];
      if answers[i] {
        ds := ds + [Decision(b.branch, Stale, b.hasOrigin, b.hasUpstream)];
      }
      i := i + 1;
    }
    assert z[..i] == z;
  }

  /** A stale decision is made exactly for a confirmed stale branch. */
  lemma StaleDecisionsMember(stale: seq<StaleBranch>, answers: seq<bool>, d: Decision)
    requires |answers| == |stale|
    ensures d in FilterMap(Zip(stale, answers), StaleChoice) <==>
            exists i :: 0 <= i < |stale| && answers[i] && d == Decision(stale[i].branch, Stale, stale[i].hasOrigin, stale[i].hasUpstream)
  {
    var z := Zip(stale, answers);
    FilterMapMember(z, StaleChoice, d);
    if exists i :: 0 <= i < |stale| && answers[i] && d == Decision(stale[i].branch, Stale, stale[i].hasOrigin, stale[i].hasUpstream) {
      var i :| 0 <= i < |stale| && answers[i] && d == Decision(stale[i].branch, Stale, stale[i].hasOrigin, stale[i].hasUpstream);
      assert z[i] in z && StaleChoice(z[i]) == Some(d);
    }
  }

  /** The decision list is ordered by category: gone, merged, remote-only, stale. */
  predicate OrderedByCategory(ds: seq<Decision>) {
    forall i, j :: 0 <= i < j < |ds| ==> Rank(ds[i].category) <= Rank(ds[j].category)
  }

  predicate AllIn(ds: seq<Decision>, c: Category) {
    forall i :: 0 <= i < |ds| ==> ds[i].category == c
  }

  /** `collect_all_deletion_decisions`: the four collections, concatenated. */
  method CollectAllDeletionDecisions(data: BranchData, answers: seq<bool>, remotesOf: string -> (bool, bool))
    returns (ds: seq<Decision>)
    requires |answers| == |data.stale|
    ensures ds == CollectCategory(data.gone, Gone, remotesOf) + CollectCategory(data.merged, Merged, remotesOf)
                  + RemoteDecisions("origin", data.remoteOnly.origin) + RemoteDecisions("upstream", data.remoteOnly.upstream)
                  + FilterMap(Zip(data.stale, answers), StaleChoice)
    ensures OrderedByCategory(ds)
  {
    var gone := CollectCategory(data.gone, Gone, remotesOf);
    var merged := CollectCategory(data.merged, Merged, remotesOf);
    var remoteOnly := CollectRemoteOnlyBranches(data.remoteOnly);
    var stale := CollectStaleBranches(data.stale, answers);
    ds := [];
    ds := ds + gone;
    ds := ds + merged;
    ds := ds + remoteOnly;
    ds := ds + stale;
    StaleChoicesAreStale(Zip(data.stale, answers));
    ConcatOrdered(gone, merged, remoteOnly, stale);
  }

  lemma {:induction false} StaleChoicesAreStale(z: seq<(StaleBranch, bool)>)
    ensures AllIn(FilterMap(z, StaleChoice), Stale)
  {
    if z != [] {
      StaleChoicesAreStale(z[..|z| - 1]);
    }
  }

  lemma ConcatOrdered(a: seq<Decision>, b: seq<Decision>, c: seq<Decision>, d: seq<Decision>)
    requires AllIn(a, Gone) && AllIn(b, Merged) && AllIn(c, RemoteOnlyBranch) && AllIn(d, Stale)
    ensures OrderedByCategory(a + b + c + d)
  {
    var s := a + b + c + d;
    forall i | 0 <= i < |s| ensures Rank(s[i].category) == if i < |a| then 0 else if i < |a| + |b| then 1
                                                     else if i < |a| + |b| + |c| then 2 else 3 {
      if i < |a| { assert s[i] == a[i]; }
      else if i < |a| + |b| { assert s[i] == b[i - |a|]; }
      else if i < |a| + |b| + |c| { assert s[i] == c[i - |a| - |b|]; }
      else { assert s[i] == d[i - |a| - |b| - |c|]; }
    }
  }

  // ---------------------------------------------------------------------------
  // show_deletion_summary: the decisions grouped by category

  /** (branch, has_origin, has_upstream) as the summary lists it. */
  type SummaryEntry = (string, bool, bool)

  function SummaryOf(c: Category): Decision -> Option<SummaryEntry> {
    (d: Decision) => if d.category == c then Some((d.branch, d.hasOrigin, d.hasUpstream)) else None
  }

  /** The entries listed under category `c`, in decision order. */
  function ByCategory(ds: seq<Decision>, c: Category): seq<SummaryEntry> {
    FilterMap(ds, SummaryOf(c))
  }

  /** The grouping loop of `show_deletion_summary`: a dictionary with one list per
      category, each decision appended to its category's list. */
  method GroupByCategory(ds: seq<Decision>) returns (groups: map<Category, seq<SummaryEntry>>)
    ensures groups.Keys == {Gone, Merged, RemoteOnlyBranch, Stale}
    ensures forall c :: c in groups ==> groups[c] == ByCategory(ds, c)
  {
    groups := map[Gone := [], Merged := [], RemoteOnlyBranch := [], Stale := []];
    var i := 0;
    while i < |ds|
      invariant 0 <= i <= |ds|
      invariant groups.Keys == {Gone, Merged, RemoteOnlyBranch, Stale}
      invariant forall c :: c in groups ==> groups[c] == ByCategory(ds[..i], c)
    {
      var d := ds[i];
      forall c | c in groups ensures ByCategory(ds[..i + 1], c) == ByCategory(ds[..i], c)
                                       + if d.category == c then [(d.branch, d.hasOrigin, d.hasUpstream)] else [] {
        FilterMapStep(ds, i, SummaryOf(c));
      }
      groups := groups[d.category := groups[d.category] + [(d.branch, d.hasOrigin, d.hasUpstream)]];
      i := i + 1;
    }
    assert ds[..i] == ds;
  }

  /** Every decision is listed under exactly one category: the group sizes add up to
      the count in the summary's heading. */
  lemma {:induction false} GroupSizes(ds: seq<Decision>)
    ensures |ByCategory(ds, Gone)| + |ByCategory(ds, Merged)| + |ByCategory(ds, RemoteOnlyBranch)|
            + |ByCategory(ds, Stale)| == |ds|
  {
    if ds != [] {
      GroupSizes(ds[..|ds| - 1]);
    }
  }

  // ---------------------------------------------------------------------------
  // execute_all_deletions

  /** A git command the deletion phase runs, and whether a failure raises. */
  datatype GitCall = GitCall(args: seq<string>, check: bool)

  /** What the deletion phase depends on: the checked-out branch and the local branches. */
  datatype Repo = Repo(current: string, local: set<string>)

  /** The state after some decisions, the commands run so far, and whether a checked
      command failed (which raises out of the script). `calls` lists only the commands
      run without capture: the captured `git rev-parse --abbrev-ref HEAD` probe that
      `switch_if_current_branch` makes before each deletion is not in it. */
  datatype Run = Run(repo: Repo, calls: seq<GitCall>, aborted: bool)

  function Push(remote: string, branch: string): GitCall {
    GitCall(["git", "push", remote, "--delete", branch], false)
  }

  /** The pushes of `delete_remote_only_branch` and of the tail of
      `delete_branch_and_remotes`. */
  function Pushes(d: Decision): seq<GitCall> {
    (if d.hasOrigin then [Push("origin", d.branch)] else [])
    + (if d.hasUpstream then [Push("upstream", d.branch)] else [])
  }

  /** One decision: a remote-only branch gets its pushes; any other first switches to
      the default branch when it is the checked-out one, then `git branch -D`, then its
      pushes. `git branch -D` fails, and the run stops, when the branch does not exist
      or is checked out. */
  function Dispatch(defaultBranch: string, repo: Repo, d: Decision): (r: Run)
    ensures d.category == RemoteOnlyBranch ==> r == Run(repo, Pushes(d), false)
  {
    if d.category == RemoteOnlyBranch then Run(repo, Pushes(d), false)
    else
      var switch := if d.branch == repo.current then [GitCall(["git", "checkout", defaultBranch], true)] else [];
      var current := if d.branch == repo.current then defaultBranch else repo.current;
      var delete := GitCall(["git", "branch", "-D", d.branch], true);
      if d.branch !in repo.local || d.branch == current then Run(Repo(current, repo.local), switch + [delete], true)
      else Run(Repo(current, repo.local - {d.branch}), switch + [delete] + Pushes(d), false)
  }

  /** The run over the decisions in order, stopping at the first failure. */
  function RunSpec(defaultBranch: string, repo: Repo, ds: seq<Decision>): Run {
    if ds == [] then Run(repo, [], false)
    else
      var before := RunSpec(defaultBranch, repo, ds[..|ds| - 1]);
      if before.aborted then before
      else
        var step := Dispatch(defaultBranch, before.repo, ds[|ds| - 1]);
        Run(step.repo, before.calls + step.calls, step.aborted)
  }

  /** `execute_all_deletions`: dispatch each decision to its delete routine. */
  method ExecuteAllDeletions(defaultBranch: string, repo0: Repo, ds: seq<Decision>) returns (r: Run)
    ensures r == RunSpec(defaultBranch, repo0, ds)
  {
    var repo := repo0;
    var calls: seq<GitCall> := [];
    var i := 0;
    while i < |ds|
      invariant 0 <= i <= |ds|
      invariant RunSpec(defaultBranch, repo0, ds[..i]) == Run(repo, calls, false)
    {
      assert ds[..i + 1][..i] == ds[..i];
      var d := ds[i];
      var step := Dispatch(defaultBranch, repo, d);
      calls := calls + step.calls;
      if step.aborted {
        r := Run(step.repo, calls, true);
        AbortedStaysAborted(defaultBranch, repo0, ds, i + 1);
        return;
      }
      repo := step.repo;
      i := i + 1;
    }
    assert ds[..i] == ds;
    r := Run(repo, calls, false);
  }

  /** Once a run has stopped, later decisions change nothing. */
  lemma {:induction false} AbortedStaysAborted(defaultBranch: string, repo: Repo, ds: seq<Decision>, n: nat)
    requires n <= |ds| && RunSpec(defaultBranch, repo, ds[..n]).aborted
    ensures RunSpec(defaultBranch, repo, ds) == RunSpec(defaultBranch, repo, ds[..n])
    decreases |ds| - n
  {
    if n < |ds| {
      assert ds[..n + 1][..n] == ds[..n];
      AbortedStaysAborted(defaultBranch, repo, ds, n + 1);
    } else {
      assert ds[..n] == ds;
    }
  }

  /** No remote-only decision ever runs `git branch -D` or `git checkout`: its calls are
      pushes to the remotes it is flagged for. */
  lemma RemoteOnlyNeverDeletesLocally(defaultBranch: string, repo: Repo, d: Decision)
    requires d.category == RemoteOnlyBranch
    ensures forall c :: c in Dispatch(defaultBranch, repo, d).calls ==> c.args[1] == "push" && !c.check
    ensures Dispatch(defaultBranch, repo, d).repo == repo
  {
  }

  /** Deleting the checked-out branch first switches to the default branch. */
  lemma SwitchesBeforeDeletingCurrent(defaultBranch: string, repo: Repo, d: Decision)
    requires d.category != RemoteOnlyBranch && d.branch == repo.current
    ensures Dispatch(defaultBranch, repo, d).calls[0] == GitCall(["git", "checkout", defaultBranch], true)
    ensures Dispatch(defaultBranch, repo, d).calls[1] == GitCall(["git", "branch", "-D", d.branch], true)
  {
  }

  // ---------------------------------------------------------------------------
  // run_git: what `--dry-run` suppresses

  /** The subcommands that still run under `--dry-run`. */
  const ReadOnly: set<string> := {"rev-parse", "symbolic-ref", "branch", "remote", "for-each-ref", "ls-remote",
                                  "log", "merge-base"}

  /** `run_git` returns "" without running `cmd` exactly when this holds. */
  predicate DryRunSkips(cmd: seq<string>, dryRun: bool, capture: bool)
    requires dryRun && !capture ==> |cmd| >= 2
    ensures DryRunSkips(cmd, dryRun, capture) ==> dryRun && !capture
    ensures dryRun && !capture ==> (DryRunSkips(cmd, dryRun, capture) <==> cmd[1] !in ReadOnly)
  {
    dryRun && !capture && cmd[1] !in ReadOnly
  }

  /** Captured commands always run; without `--dry-run` every command runs. */
  lemma CapturedAlwaysRuns(cmd: seq<string>, dryRun: bool)
    ensures !DryRunSkips(cmd, dryRun, true)
    ensures !DryRunSkips(cmd, false, true) && (|cmd| >= 2 ==> !DryRunSkips(cmd, false, false))
  {
  }

  /** Under `--dry-run` the fetch, checkouts and pushes are suppressed; `git branch -D`
      would not be, as `branch` is one of the read-only subcommands, but a dry run
      returns before the deletion phase. */
  lemma DryRunGate(b: string)
    ensures DryRunSkips(["git", "fetch", "--all", "--prune"], true, false)
    ensures DryRunSkips(["git", "checkout", b], true, false)
    ensures DryRunSkips(Push("origin", b).args, true, false)
    ensures !DryRunSkips(["git", "branch", "-D", b], true, false)
  {
    assert "fetch" !in ReadOnly;
    assert "checkout" !in ReadOnly;
    assert "push" !in ReadOnly;
  }

  // ---------------------------------------------------------------------------
  // get_github_repo and get_default_branch

  /** `"/".join(parts[-2:])` */
  function LastTwo(parts: seq<string>): seq<string> {
    if |parts| <= 2 then parts else parts[|parts| - 2..]
  }

  /** The `owner/repo` part of a remote URL. */
  function RepoPath(url: string): string {
    if StartsWith(url, "git@") then RemoveSuffix(Split(url, ':')[|Split(url, ':')| - 1], ".git")
    else RemoveSuffix(Join(LastTwo(Split(url, '/')), "/"), ".git")
  }

  predicate IsGithubUrl(url: string) {
    Contains(url, "github.com") || Contains(url, "GITHUB_ENTERPRISE_HOST")
  }

  /** The URL `get_github_repo` looks at: the upstream URL if there is one, else the
      origin URL (`originOut` is None when `git remote get-url origin` fails). */
  function RemoteUrl(upstreamOut: string, originOut: Option<string>): (url: Option<string>)
    ensures Strip(upstreamOut) != "" ==> url == Some(Strip(upstreamOut))
    ensures Strip(upstreamOut) == "" ==> url == if originOut.Some? then Some(Strip(originOut.value)) else None
  {
    if Strip(upstreamOut) != "" then Some(Strip(upstreamOut))
    else if originOut.Some? then Some(Strip(originOut.value))
    else None
  }

  /** The repository path `get_github_repo` resolves, or None where it gives up: no
      URL, a URL naming neither GitHub host, or no token for the host it names
      (`enterpriseToken` and `githubToken` say whether GITHUB_ENTERPRISE_TOKEN and
      GITHUB_TOKEN are set). */
  function GithubRepoPath(upstreamOut: string, originOut: Option<string>, enterpriseToken: bool, githubToken: bool)
    : (r: Option<string>)
    ensures r.Some? <==> var url := RemoteUrl(upstreamOut, originOut);
                         url.Some? && IsGithubUrl(url.value)
                         && (if Contains(url.value, "GITHUB_ENTERPRISE_HOST") then enterpriseToken else githubToken)
    ensures r.Some? ==> r.value == RepoPath(RemoteUrl(upstreamOut, originOut).value)
  {
    match RemoteUrl(upstreamOut, originOut)
    case None => None
    case Some(url) =>
      if !IsGithubUrl(url) then None
      else if Contains(url, "GITHUB_ENTERPRISE_HOST") && !enterpriseToken then None
      else if !Contains(url, "GITHUB_ENTERPRISE_HOST") && !githubToken then None
      else Some(RepoPath(url))
  }

  /** `git@github.com:owner/repo.git` gives `owner/repo`. */
  lemma RepoPathSsh(host: string, owner: string, repo: string)
    requires ':' !in host && ':' !in owner && ':' !in repo && !EndsWith(repo, ".git")
    ensures RepoPath("git@" + host + ":" + owner + "/" + repo + ".git") == owner + "/" + repo
  {
    var url := "git@" + host + ":" + owner + "/" + repo + ".git";
    var tail := owner + "/" + repo + ".git";
    assert url == ("git@" + host) + [':'] + tail;
    assert ':' !in tail;
    assert StartsWith(url, "git@") by { assert url[..4] == "git@"; }
    RepoPathOfSsh(url, "git@" + host, tail);
    assert EndsWith(tail, ".git") by { assert tail[|tail| - 4..] == ".git"; }
    assert tail[..|tail| - 4] == owner + "/" + repo;
  }

  /** An SSH URL's path is what follows its last `:`, less a `.git` suffix. */
  lemma RepoPathOfSsh(url: string, before: string, tail: string)
    requires url == before + [':'] + tail && ':' !in tail && StartsWith(url, "git@")
    ensures RepoPath(url) == RemoveSuffix(tail, ".git")
  {
    SplitLast(before, ':', tail);
  }

  /** `https://github.com/owner/repo.git` gives `owner/repo`. */
  lemma RepoPathHttps(prefix: string, owner: string, repo: string)
    requires '/' !in owner && '/' !in repo && !StartsWith(prefix + "/", "git@") && !EndsWith(repo, ".git")
    ensures RepoPath(prefix + "/" + owner + "/" + repo + ".git") == owner + "/" + repo
  {
    var url := prefix + "/" + owner + "/" + repo + ".git";
    var joined := owner + "/" + (repo + ".git");
    HttpsSegments(prefix, owner, repo);
    HttpsNotSsh(prefix, owner, repo);
    assert EndsWith(joined, ".git") && joined[..|joined| - 4] == owner + "/" + repo by {
      assert joined[|joined| - 4..] == ".git";
    }
    RepoPathOfHttps(url, joined, owner + "/" + repo);
  }

  lemma HttpsSegments(prefix: string, owner: string, repo: string)
    requires '/' !in owner && '/' !in repo
    ensures Join(LastTwo(Split(prefix + "/" + owner + "/" + repo + ".git", '/')), "/") == owner + "/" + (repo + ".git")
  {
    LastTwoSegments(prefix, owner, repo + ".git");
    assert prefix + "/" + owner + "/" + repo + ".git" == prefix + "/" + owner + "/" + (repo + ".git");
  }

  lemma HttpsNotSsh(prefix: string, owner: string, repo: string)
    requires !StartsWith(prefix + "/", "git@")
    ensures !StartsWith(prefix + "/" + owner + "/" + repo + ".git", "git@")
  {
    var url := prefix + "/" + owner + "/" + repo + ".git";
    assert StartsWith(url, prefix + "/") by { assert url[..|prefix| + 1] == prefix + "/"; }
    NotSshPrefix(prefix + "/", url);
  }

  lemma RepoPathOfHttps(url: string, joined: string, path: string)
    requires !StartsWith(url, "git@") && Join(LastTwo(Split(url, '/')), "/") == joined
    requires EndsWith(joined, ".git") && joined[..|joined| - 4] == path
    ensures RepoPath(url) == path
  {
  }

  /** The last two `/` segments of `prefix/owner/last`, joined again. */
  lemma LastTwoSegments(prefix: string, owner: string, last: string)
    requires '/' !in owner && '/' !in last
    ensures Join(LastTwo(Split(prefix + "/" + owner + "/" + last, '/')), "/") == owner + "/" + last
  {
    var url := prefix + "/" + owner + "/" + last;
    assert url == (prefix + "/" + owner) + ['/'] + last;
    SplitLast(prefix + "/" + owner, '/', last);
    assert prefix + "/" + owner == prefix + ['/'] + owner;
    SplitLast(prefix, '/', owner);
    var parts := Split(url, '/');
    assert parts == Split(prefix, '/') + [owner] + [last];
    assert LastTwo(parts) == [owner, last];
    assert [owner, last][..1] == [owner];
  }

  /** A URL that starts with a prefix other than `git@` does not start with `git@`
      either, once the prefix is at least as long or is not a prefix of it. */
  lemma NotSshPrefix(p: string, url: string)
    requires StartsWith(url, p) && !StartsWith(p, "git@") && p != [] && p[|p| - 1] == '/'
    ensures !StartsWith(url, "git@")
  {
  }

  /** `get_default_branch`: the last `/` segment of `git symbolic-ref` output, or
      `main` when the output is empty. */
  function DefaultBranch(out: string): (b: string)
    ensures '/' !in b
    ensures out == "" ==> b == "main"
  {
    if out == "" then "main"
    else
      var parts := Split(Strip(out), '/');
      parts[|parts| - 1]
  }

  /** `<prefix>/<b>` followed by a newline names `<b>`, as `refs/remotes/origin/<b>` does. */
  lemma DefaultBranchOfRef(prefix: string, b: string)
    requires prefix != [] && !IsSpace(prefix[0])
    requires '/' !in b && b != [] && !IsSpace(b[|b| - 1])
    ensures DefaultBranch(prefix + "/" + b + "\n") == b
  {
    var ref := prefix + "/" + b;
    var out := ref + "\n";
    assert out[..|out| - 1] == ref;
    assert IsSpace(out[|out| - 1]);
    assert ref[|ref| - 1] == b[|b| - 1];
    assert RStrip(out) == ref;
    assert ref[0] == prefix[0];
    assert LStrip(ref) == ref;
    assert ref == prefix + ['/'] + b;
    SplitLast(prefix, '/', b);
  }


  // ---------------------------------------------------------------------------
  // A branch both gone and merged is deleted twice

  /** The branches given to `git branch -D`, in order. */
  function LocalDeletions(ds: seq<Decision>): set<string> {
    set i | 0 <= i < |ds| && ds[i].category != RemoteOnlyBranch :: ds[i].branch
  }

  /** Decisions whose local deletions all name distinct, existing, non-default branches. */
  predicate DeletableOnce(defaultBranch: string, local: set<string>, ds: seq<Decision>) {
    (forall i :: 0 <= i < |ds| && ds[i].category != RemoteOnlyBranch ==> ds[i].branch in local && ds[i].branch != defaultBranch)
    && (forall i, j :: 0 <= i < j < |ds| && ds[i].category != RemoteOnlyBranch && ds[j].category != RemoteOnlyBranch
          ==> ds[i].branch != ds[j].branch)
  }

  /** With each local branch deleted at most once, the run never stops early and
      removes exactly the decided local branches. */
  lemma {:induction false} DeletableOnceNeverAborts(defaultBranch: string, repo: Repo, ds: seq<Decision>)
    requires DeletableOnce(defaultBranch, repo.local, ds)
    ensures !RunSpec(defaultBranch, repo, ds).aborted
    ensures RunSpec(defaultBranch, repo, ds).repo.local == repo.local - LocalDeletions(ds)
  {
    if ds != [] {
      var front, d := ds[..|ds| - 1], ds[|ds| - 1];
      assert DeletableOnce(defaultBranch, repo.local, front);
      DeletableOnceNeverAborts(defaultBranch, repo, front);
      var before := RunSpec(defaultBranch, repo, front);
      if d.category != RemoteOnlyBranch {
        assert d.branch !in LocalDeletions(front);
        assert d.branch in before.repo.local;
      }
      assert LocalDeletions(ds) == LocalDeletions(front) + (if d.category != RemoteOnlyBranch then {d.branch} else {}) by {
        forall b | b in LocalDeletions(ds) ensures b in LocalDeletions(front) || (d.category != RemoteOnlyBranch && b == d.branch) {
          var i :| 0 <= i < |ds| && ds[i].category != RemoteOnlyBranch && ds[i].branch == b;
          if i < |front| {
            assert front[i] == ds[i];
          }
        }
        forall b | b in LocalDeletions(front) ensures b in LocalDeletions(ds) {
          var i :| 0 <= i < |front| && front[i].category != RemoteOnlyBranch && front[i].branch == b;
          assert ds[i] == front[i];
        }
        if d.category != RemoteOnlyBranch {
          assert ds[|ds| - 1] == d;
        }
      }
    }
  }

  /** As written: a branch that is both gone and merged gets two gone/merged decisions;
      the second `git branch -D` fails and, being checked, stops the script before the
      remaining deletions. */
  lemma GoneAndMergedAborts(cur: string, b: string, later: string)
    requires b != cur && later != cur && later != b
    ensures var ds := [Decision(b, Gone, false, false), Decision(b, Merged, false, false),
                       Decision(later, Stale, false, false)];
            var r := RunSpec(cur, Repo(cur, {cur, b, later}), ds);
            r.aborted && later in r.repo.local
  {
    var ds := [Decision(b, Gone, false, false), Decision(b, Merged, false, false),
               Decision(later, Stale, false, false)];
    var repo := Repo(cur, {cur, b, later});
    var r0 := RunSpec(cur, repo, ds[..0]);
    assert r0 == Run(repo, [], false);
    assert ds[..1][..0] == ds[..0];
    var s1 := Dispatch(cur, repo, ds[0]);
    assert s1.repo == Repo(cur, {cur, b, later} - {b}) && !s1.aborted;
    var r1 := RunSpec(cur, repo, ds[..1]);
    assert r1.repo == s1.repo && !r1.aborted;
    assert ds[..2][..1] == ds[..1];
    var s2 := Dispatch(cur, r1.repo, ds[1]);
    assert s2.aborted;
    assert RunSpec(cur, repo, ds[..2]).aborted;
    AbortedStaysAborted(cur, repo, ds, 2);
  }

  /** Remote presence for branches with neither an `origin` nor an `upstream` copy. */
  function NoRemotes(branch: string): (bool, bool) {
    (false, false)
  }

  /** A branch name as `git branch` prints it: non-empty, without whitespace, and not
      starting with the current-branch marker. */
  predicate PlainName(b: string) {
    b != [] && b[0] != '*' && forall i :: 0 <= i < |b| ==> !IsSpace(b[i])
  }

  /** The same run from the commands' own output: `git branch -vv` prints the branch `b`
      on a line whose rest holds a literal `[gone]` (a subject `Drop [gone] marker`
      after `[origin/b: gone]`, say), `git branch` prints the checked-out `cur` and the
      branches `b` and `later`, and a merged pull request has `b` as its head. */
  lemma GoneAndMergedFromOutput(cur: string, b: string, later: string, rest: string)
    requires PlainName(cur) && PlainName(b) && PlainName(later)
    requires b != cur && later != cur && later != b
    requires Contains(rest, "[gone]")
    ensures var verbose := ["  " + b + " " + rest];
            var branches := ["* " + cur, "  " + b, "  " + later];
            var ds := CollectCategory(GoneSpec(verbose), Gone, NoRemotes)
                      + CollectCategory(FindMergedBranches(LocalBranchList(branches, cur), Some([ClosedPull(true, b)])),
                                        Merged, NoRemotes)
                      + [Decision(later, Stale, false, false)];
            var r := RunSpec(cur, Repo(cur, {cur, b, later}), ds);
            r.aborted && later in r.repo.local
  {
    OneGoneLine(b, rest);
    ThreeBranches(cur, b, later);
    MergedFirstOfTwo(b, later);
    AbortsFromLists(cur, b, later, GoneSpec(["  " + b + " " + rest]),
                    FindMergedBranches(LocalBranchList(["* " + cur, "  " + b, "  " + later], cur), Some([ClosedPull(true, b)])));
  }

  /** Gone and merged lists that both hold exactly `b`, then a confirmed stale `later`. */
  lemma AbortsFromLists(cur: string, b: string, later: string, gone: seq<string>, merged: seq<string>)
    requires b != cur && later != cur && later != b
    requires gone == [b] && merged == [b]
    ensures var ds := CollectCategory(gone, Gone, NoRemotes) + CollectCategory(merged, Merged, NoRemotes)
                      + [Decision(later, Stale, false, false)];
            var r := RunSpec(cur, Repo(cur, {cur, b, later}), ds);
            r.aborted && later in r.repo.local
  {
    assert CollectCategory(gone, Gone, NoRemotes) == [Decision(b, Gone, false, false)];
    assert CollectCategory(merged, Merged, NoRemotes) == [Decision(b, Merged, false, false)];
    var ds := CollectCategory(gone, Gone, NoRemotes) + CollectCategory(merged, Merged, NoRemotes)
              + [Decision(later, Stale, false, false)];
    assert ds == [Decision(b, Gone, false, false), Decision(b, Merged, false, false),
                  Decision(later, Stale, false, false)];
    GoneAndMergedAborts(cur, b, later);
  }

  /** Of two local branches, only the head of the one merged pull request is merged. */
  lemma MergedFirstOfTwo(b: string, later: string)
    requires b != "" && later != b
    ensures FindMergedBranches([b, later], Some([ClosedPull(true, b)])) == [b]
  {
    var p := (n: string) => n in MergedHeadRefs([ClosedPull(true, b)]);
    assert MergedHeadRefs([ClosedPull(true, b)]) == {b};
    assert [b, later][..1] == [b] && [b][..0] == [];
    assert Filter([b, later], p) == Filter([b], p) + [];
  }

  /** A single `-vv` line `  b <rest>` with `[gone]` in its rest makes `b` the gone list. */
  lemma OneGoneLine(b: string, rest: string)
    requires PlainName(b) && Contains(rest, "[gone]")
    ensures GoneSpec(["  " + b + " " + rest]) == [b]
  {
    var verbose := ["  " + b + " " + rest];
    GoneEntryFinds("  ", b, rest);
    FilterMapStep(verbose, 0, GoneEntry);
    assert verbose[..1] == verbose;
  }

  /** `git branch` printing the checked-out `cur` and two other branches. */
  lemma ThreeBranches(cur: string, b: string, later: string)
    requires PlainName(cur) && PlainName(b) && PlainName(later)
    requires b != cur && later != cur
    ensures LocalBranchList(["* " + cur, "  " + b, "  " + later], cur) == [b, later]
  {
    MarkedBranchName(cur);
    IndentedBranchName(b);
    IndentedBranchName(later);
    ThreeLines("* " + cur, "  " + b, "  " + later, cur, b, later);
  }

  /** The same, for any three lines that clean to `cur`, `b` and `later`. */
  lemma ThreeLines(l0: string, l1: string, l2: string, cur: string, b: string, later: string)
    requires Strip(l0) != "" && Strip(l1) != "" && Strip(l2) != ""
    requires BranchName(l0) == cur && BranchName(l1) == b && BranchName(l2) == later
    requires b != "" && later != "" && b != cur && later != cur
    ensures LocalBranchList([l0, l1, l2], cur) == [b, later]
  {
    assert LocalBranch(l0, cur) == None;
    assert LocalBranch(l1, cur) == Some(b) && LocalBranch(l2, cur) == Some(later);
    ThreeLinesList(l0, l1, l2, cur, b, later);
  }

  lemma ThreeLinesList(l0: string, l1: string, l2: string, cur: string, b: string, later: string)
    requires LocalBranch(l0, cur) == None && LocalBranch(l1, cur) == Some(b) && LocalBranch(l2, cur) == Some(later)
    ensures LocalBranchList([l0, l1, l2], cur) == [b, later]
  {
    var f := line => LocalBranch(line, cur);
    assert LocalBranchList([l0, l1, l2], cur) == FilterMap([l0, l1, l2], f);
    FilterMapOfThree(l0, l1, l2, f);
  }

  /** The name on the checked-out branch's `git branch` line. */
  lemma MarkedBranchName(cur: string)
    requires PlainName(cur)
    ensures Strip("* " + cur) != "" && BranchName("* " + cur) == cur
  {
    var line := "* " + cur;
    assert line[|line| - 1] == cur[|cur| - 1];
    StripNoEdgeSpace(line);
    BranchNameOfMarked(line, cur);
  }

  /** The name on a `git branch` line for a branch that is not checked out. */
  lemma IndentedBranchName(b: string)
    requires PlainName(b)
    ensures Strip("  " + b) == b && BranchName("  " + b) == b
  {
    assert "  " + b == "  " + b + "";
    StripPadded("  ", b, "");
    assert b + RStrip("") == b;
    assert LStripChar(b, '*') == b;
    StripNoEdgeSpace(b);
  }

  /** Corrected: the merged list leaves out the branches already listed as gone. */
  function MergedNotGone(gone: seq<string>, merged: seq<string>): (r: seq<string>)
    ensures IsSubsequence(r, merged)
    ensures forall b :: b in r <==> b in merged && b !in gone
  {
    var r := Filter(merged, b => b !in gone);
    FilterIsSubsequence(merged, b => b !in gone);
    forall b ensures b in r <==> b in merged && b !in gone {
      FilterMember(merged, b => b !in gone, b);
    }
    r
  }

  /** With the merged list corrected, no branch gets both a gone and a merged decision. */
  lemma GoneMergedDisjoint(gone: seq<string>, merged: seq<string>, remotesOf: string -> (bool, bool), i: int, j: int)
    requires 0 <= i < |gone| && 0 <= j < |MergedNotGone(gone, merged)|
    ensures CollectCategory(gone, Gone, remotesOf)[i].branch != CollectCategory(MergedNotGone(gone, merged), Merged, remotesOf)[j].branch
  {
    var m := MergedNotGone(gone, merged);
    assert m[j] in m;
    assert gone[i] in gone;
  }

  // ---------------------------------------------------------------------------
  // The `[gone]` test against what `git branch -vv` prints

  /** As written: git marks a branch whose upstream was deleted by a tracking field
      `[<upstream>: gone]` (`  feature 1a2b3c4 [origin/feature: gone] Fix`), and a line
      whose only `[` opens that field does not contain `[gone]`. */
  lemma UpstreamGoneMissed(a: string, upstream: string, rest: string)
    requires '[' !in a && '[' !in upstream && ']' !in upstream && upstream != [] && '[' !in rest
    ensures GoneEntry(a + "[" + upstream + ": gone]" + rest) == None
  {
    var marker := "[gone]";
    var t := upstream + ": gone]" + rest;
    var line := a + ("[" + t);
    assert a + "[" + upstream + ": gone]" + rest == line;
    assert !Contains(line, marker) by {
      assert '[' !in t;
      ContainsAfter(t, [], marker);
      assert t + [] == t;
      assert t[4] != ']' by {
        if |upstream| > 4 {
          assert t[4] == upstream[4];
        } else {
          assert t[4] == (": gone]")[4 - |upstream|];
        }
      }
      assert ("[" + t)[5] == t[4];
      assert !StartsWith("[" + t, marker);
      assert ("[" + t)[1..] == t;
      ContainsAfter(a, "[" + t, marker);
    }
  }

  /** Corrected: a line is gone when its tracking information ends in `: gone]`, and the
      branch is the first word after the `*` marker. */
  function GoneEntryFixed(line: string): (e: Option<string>)
    ensures e.Some? ==> Contains(line, ": gone]") && e.value != "" && forall i :: 0 <= i < |e.value| ==> !IsSpace(e.value[i])
  {
    if Contains(line, ": gone]") then
      var b := FirstWord(BranchName(line));
      if b != "" then Some(b) else None
    else None
  }

  /** A gone line whose branch part, after the marker, is the word `b` names `b`. */
  lemma GoneEntryFixedOf(line: string, b: string, u: string)
    requires Contains(line, ": gone]")
    requires b != [] && forall i :: 0 <= i < |b| ==> !IsSpace(b[i])
    requires u == [] || IsSpace(u[0])
    requires BranchName(line) == b + u
    ensures GoneEntryFixed(line) == Some(b)
  {
    FirstWordOf(b, u);
  }

  /** Corrected: every gone line names its branch... */
  lemma GoneEntryFixedFinds(lead: string, b: string, rest: string)
    requires forall i :: 0 <= i < |lead| ==> IsSpace(lead[i])
    requires b != [] && b[0] != '*' && forall i :: 0 <= i < |b| ==> !IsSpace(b[i])
    requires Contains(rest, ": gone]")
    ensures GoneEntryFixed(lead + b + " " + rest) == Some(b)
  {
    var t := " " + rest;
    var line := lead + b + " " + rest;
    ContainsAppend(lead + b + " ", rest, ": gone]");
    ConcatAssoc(lead + b, " ", rest);
    StripPadded(lead, b, t);
    var u := RStrip(t);
    RStripAgain(t);
    StripNoEdgeSpace(b + u);
    GoneEntryFixedOf(line, b, u);
  }

  /** The branch name of a line that strips to `* v`. */
  lemma BranchNameOfMarked(line: string, v: string)
    requires Strip(line) == "* " + v
    requires v != [] && !IsSpace(v[0]) && !IsSpace(v[|v| - 1])
    ensures BranchName(line) == v
  {
    MarkDropped(v);
    SpaceThenWord(v);
  }

  /** Dropping the `*` of `* v` leaves ` v`. */
  lemma MarkDropped(v: string)
    requires v != [] && !IsSpace(v[0])
    ensures LStripChar("* " + v, '*') == " " + v
  {
    assert "* " + v == ['*'] + (" " + v);
    LStripCharOne('*', " " + v);
  }

  /** ` v` strips to `v` when `v` has no edge spaces. */
  lemma SpaceThenWord(v: string)
    requires v != [] && !IsSpace(v[0]) && !IsSpace(v[|v| - 1])
    ensures Strip(" " + v) == v
  {
    StripPadded(" ", v, "");
    assert " " + v + "" == " " + v;
  }

  /** ... the checked-out one, marked `*`, included. */
  lemma GoneEntryFixedFindsCurrent(lead: string, b: string, rest: string)
    requires forall i :: 0 <= i < |lead| ==> IsSpace(lead[i])
    requires b != [] && b[0] != '*' && forall i :: 0 <= i < |b| ==> !IsSpace(b[i])
    requires Contains(rest, ": gone]")
    ensures GoneEntryFixed(lead + "* " + b + " " + rest) == Some(b)
  {
    var t := " " + rest;
    var line := lead + "* " + b + " " + rest;
    ContainsAppend(lead + "* " + b + " ", rest, ": gone]");
    ConcatAssoc(lead + "* " + b, " ", rest);
    StripMarkedLine(lead, b, t);
    var u := RStrip(t);
    RStripAgain(t);
    BranchNameOfMarked(line, b + u);
    GoneEntryFixedOf(line, b, u);
  }

  /** A line `<spaces>* b<t>` strips to `* b` followed by `t` stripped on the right. */
  lemma StripMarkedLine(lead: string, b: string, t: string)
    requires forall i :: 0 <= i < |lead| ==> IsSpace(lead[i])
    requires b != [] && forall i :: 0 <= i < |b| ==> !IsSpace(b[i])
    ensures Strip(lead + "* " + b + t) == "* " + (b + RStrip(t))
  {
    var w := "* " + b;
    assert w[|w| - 1] == b[|b| - 1];
    ConcatAssoc(lead, "* ", b);
    StripPadded(lead, w, t);
    ConcatAssoc("* ", b, RStrip(t));
  }

}
