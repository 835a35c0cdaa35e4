# Dotfiles maintenance scripts — a Dafny model

The repository holds personal command-line scripts. Each one shells out to git, docker,
uv or the GitHub API, then applies a small piece of deterministic logic to what came
back. This project models that logic for six scripts under `dot_local/scripts/src/`.
It proves what each piece promises.

- `git-tidy` (module `GitTidy`, `git_tidy.dfy`) cleans up the branches of a git
  repository.
  - It classifies branches into four categories:
    - gone: the upstream was deleted;
    - merged: there is a merged pull request;
    - stale: older than a cutoff;
    - remote-only: on `origin`/`upstream` but not local.
  - It collects the deletion decisions in a fixed category order.
  - It groups them for the summary and dispatches each one to the right delete routine.
  - It decides which git commands `--dry-run` suppresses.
  - It extracts `owner/repo` from a remote URL.
- `maintainer` (module `Maintainer`, `maintainer.dfy`) has two pieces.
  - The readiness rule for an open pull request is a first-failure-wins chain over:
    - merge state;
    - commits;
    - legacy statuses;
    - check runs.
  - The scan splits a repository's non-draft pull requests into mergeable and failed.
- `update_python` (module `UpdatePython`, `update_python.dfy`) keeps a fixed list of
  CPython minors current with uv. The model covers:
  - the list itself;
  - the newest patch per minor and variant;
  - the installed patches per minor;
  - the install, tool-upgrade and uninstall commands.
- `ndjson_table` (module `NdjsonTable`, `ndjson_table.dfy`) shows newline-delimited
  JSON as a table. The model covers:
  - dotted-key flattening;
  - the row search filter;
  - elimination of empty columns;
  - value formatting;
  - the plain and pivoted layouts.
- `update_docker_images` (module `DockerImages`, `docker_images.dfy`) pulls every
  local image that has a remote registry. The model covers:
  - the private-registry rule;
  - the image filter;
  - the per-image status;
  - the summary, sorted by image name and numbered from 1.
- `_regen_venv` (module `RegenVenv`, `regen_venv.dfy`) rebuilds the scripts' virtual
  environment. Its dependencies come from two places:
  - each script's PEP 723 ("Inline script metadata") block, read by a two-flag line
    scanner;
  - the `dependency-groups` of `pyproject.toml`.

Two support modules serve the six:
- `Text` (`text.dfy`) holds the Python string operations the code relies on: `strip`,
  `split`, `join`, `startswith`, `in`, `removesuffix` and `str(int)`.
- `Lists` (`lists.dfy`) holds the list-comprehension shapes: filter, filter-map, map
  and flat-map, with their membership lemmas.

How the model is built:
- Most loops of the source are a `method`.
  - Its `ensures` ties the result to a specification function built from `Lists` or
    declared beside it.
  - Five loops are modelled as functions only, with no `method` for the loop itself:
    - the pull-request loop of `find_merged_branches`, as `GitTidy.FindMergedBranches`;
    - the loop of `prepare_stale_branch_data`, as `GitTidy.PrepareStaleBranchData`;
    - the loops of `collect_gone_branches` and `collect_merged_branches`, as
      `GitTidy.CollectCategory`;
    - the two first-failure scans of `check_pr_status`, as
      `Maintainer.FirstStatusFailure` and `Maintainer.FirstRunFailure`.
  - Lemmas then state what that function means: membership, order, exclusions, and
    first-match results.
- The docker summary sorts an `array` in place, as `results.sort` does.
- Everything a subprocess, the GitHub API, a prompt or the clock would supply is a
  parameter:
  - command output lines and return codes;
  - closed pull requests;
  - `Confirm.ask` answers as a sequence of booleans;
  - the current time and ISO-8601 parsing as an integer and a `string -> int` function.

The main operations model the code as written, including five defects described under
"## Findings". For each defect there is a corrected member beside the as-written one,
and the intended property is proved about the corrected member.

## Model

| member | source | states |
|---|---|---|
| GitTidy.LocalBranch | dot_local/scripts/src/private_git-tidy.py:130-131 | A `git branch` line yields a branch iff it is not blank and its name (stripped, `*` removed) is non-empty and not the default branch; the branch is that name |
| GitTidy.LocalBranchListMember | dot_local/scripts/src/private_git-tidy.py:129-131 | A name is in the local list iff it is non-empty, not the default branch, and some non-blank line carries it |
| GitTidy.RemoteEntry | dot_local/scripts/src/private_git-tidy.py:85-96 | An accepted `git branch -r` line is `remote/branch` split at its first `/`; it contains no `HEAD ->`; the branch is neither the default branch nor `HEAD` |
| GitTidy.RemoteEntryOfLine | dot_local/scripts/src/private_git-tidy.py:86-96 | Conversely, every stripped line `remote/branch` with a slash-free remote, no `HEAD ->` and an allowed branch is accepted with exactly that split |
| GitTidy.RemoteOnlyForMember | dot_local/scripts/src/private_git-tidy.py:94-100 | A branch is in a remote's list iff it is not local and some line is that remote followed by the branch |
| GitTidy.RemoteOnlyForExcludes | dot_local/scripts/src/private_git-tidy.py:95-100 | The default branch, `HEAD` and local branches never appear in a remote-only list |
| GitTidy.GetRemoteOnlyBranches | dot_local/scripts/src/private_git-tidy.py:75-102 | The result has exactly the `origin` and `upstream` lists: each holds, in output order, that remote's branches which are absent from the local set built from `git branch` |
| GitTidy.CollectRemoteOnly | dot_local/scripts/src/private_git-tidy.py:83-100 | The loop over `git branch -r` appends each accepted branch to its remote's list, in line order |
| GitTidy.GoneEntry | dot_local/scripts/src/private_git-tidy.py:118-123 | A line is reported as gone only if it contains `[gone]`, and the name taken from it is non-empty |
| GitTidy.GoneEntryFinds | dot_local/scripts/src/private_git-tidy.py:118-123 | Conversely, a line of leading spaces, a space-free name not starting with `*`, a space and a rest containing `[gone]` reports exactly that name |
| GitTidy.GoneSpecMember | dot_local/scripts/src/private_git-tidy.py:116-123 | A branch is in the gone list iff some `git branch -vv` line yields it; every member is non-empty and comes from a line containing `[gone]` |
| GitTidy.GoneBranches | dot_local/scripts/src/private_git-tidy.py:116-123 | The loop computes the gone list, in output order |
| GitTidy.StarLineFirstWord | dot_local/scripts/src/private_git-tidy.py:120-121 | `split()` makes the marker `*` the whole first word of a `* name …` line |
| GitTidy.CurrentBranchNeverGone | dot_local/scripts/src/private_git-tidy.py:118-123 | As written, the checked-out branch's line (`* name …`) never yields a gone branch |
| GitTidy.FindMergedBranches | dot_local/scripts/src/private_git-tidy.py:370-403 | The result is an order-preserving sublist of the branches, and it is empty when the pull-request listing raised an API error |
| GitTidy.FindMergedBranchesMember | dot_local/scripts/src/private_git-tidy.py:392-399 | A branch is returned iff the listing succeeded, the branch is in the input, it is non-empty, and some merged pull request has it as `head.ref` |
| GitTidy.MergedRemoteOnly | dot_local/scripts/src/private_git-tidy.py:147-155 | Each remote's filtered list is an order-preserving sublist of its unfiltered list |
| GitTidy.MergedRemoteOnlyMember | dot_local/scripts/src/private_git-tidy.py:149-154 | A branch stays in a remote's list iff it was in it, the listing succeeded, and it is the head of a merged pull request |
| GitTidy.StaleEntry | dot_local/scripts/src/private_git-tidy.py:422-431 | A `for-each-ref` line yields a stale entry only if it has a pipe character, its name before the first pipe is not the default branch, and its date is strictly before the cutoff, and every such line yields one; the days count is the floor of the age in days, at least the stale threshold |
| GitTidy.StaleSpecMember | dot_local/scripts/src/private_git-tidy.py:419-431 | An entry is stale iff some line yields it; no stale entry is the default branch, and none is younger than the threshold |
| GitTidy.GetStaleBranches | dot_local/scripts/src/private_git-tidy.py:412-433 | The loop computes the stale list, in line order |
| GitTidy.ExcludeGoneAndMerged | dot_local/scripts/src/private_git-tidy.py:138-139 | The filtered stale list is an order-preserving sublist of the stale list |
| GitTidy.ExcludeGoneAndMergedMember | dot_local/scripts/src/private_git-tidy.py:138-139 | An entry survives iff it was stale and its branch is neither gone nor merged |
| GitTidy.InsertByDays | dot_local/scripts/src/private_git-tidy.py:477 | Inserting into a list sorted by days keeps it sorted, adds exactly that entry, and adds nothing else |
| GitTidy.SortByDays | dot_local/scripts/src/private_git-tidy.py:477 | `sorted(…, key=days)` is ascending in days and a permutation of its input |
| GitTidy.PrepareStaleBranchData | dot_local/scripts/src/private_git-tidy.py:468-482 | The details list follows the days-sorted order and is a permutation of the stale pairs; every entry carries its own branch's commits and remote presence |
| GitTidy.PrepareStaleBranchDataFrom | dot_local/scripts/src/private_git-tidy.py:475-481 | Every prepared entry comes from a stale pair |
| GitTidy.LoadAllData | dot_local/scripts/src/private_git-tidy.py:105-157 | The four categories are assembled as the code does: gone from `-vv`; merged only with a GitHub repository; stale excluding gone and merged, then sorted; remote-only filtered to merged names only with a repository. The default branch is never merged, stale or remote-only, and no stale branch is gone or merged |
| GitTidy.StaleDataExcludes | dot_local/scripts/src/private_git-tidy.py:136-140 | No prepared stale entry is the default branch, a gone branch or a merged branch |
| GitTidy.GoneAndMergedCanOverlap | dot_local/scripts/src/private_git-tidy.py:115-132 | A gone local branch whose merged pull request is listed appears in both the gone and the merged list: the two are not disjoint |
| GitTidy.CollectCategory | dot_local/scripts/src/private_git-tidy.py:521-542 | The gone and merged decisions keep the list's names, one each, with the category and that branch's remote presence |
| GitTidy.RemoteDecisions | dot_local/scripts/src/private_git-tidy.py:575-579 | A remote's decisions keep its branches in order, with `has_origin == (remote == "origin")` and `has_upstream == (remote == "upstream")` |
| GitTidy.CollectRemoteOnlyBranches | dot_local/scripts/src/private_git-tidy.py:572-580 | The remote-only decisions are origin's then upstream's, one per branch; each names exactly one remote |
| GitTidy.Zip | dot_local/scripts/src/private_git-tidy.py:559-567 | Each stale entry is paired with the prompt answer at the same position |
| GitTidy.CollectStaleBranches | dot_local/scripts/src/private_git-tidy.py:545-569 | The loop keeps, in order, the stale entries whose prompt was answered yes |
| GitTidy.StaleDecisionsMember | dot_local/scripts/src/private_git-tidy.py:559-567 | A stale decision exists iff the prompt for that entry was answered yes; it carries the entry's branch and remote presence |
| GitTidy.CollectAllDeletionDecisions | dot_local/scripts/src/private_git-tidy.py:583-600 | The decisions are gone, then merged, then origin's and upstream's remote-only, then the confirmed stale ones; the list is ordered by category |
| GitTidy.StaleChoicesAreStale | dot_local/scripts/src/private_git-tidy.py:566-567 | Every confirmed stale decision has the stale category |
| GitTidy.ConcatOrdered | dot_local/scripts/src/private_git-tidy.py:595-598 | Four single-category blocks concatenated in the order gone, merged, remote-only, stale are ordered by category |
| GitTidy.GroupByCategory | dot_local/scripts/src/private_git-tidy.py:607-614 | The summary dict has exactly the four category keys; each holds that category's decisions, in order |
| GitTidy.GroupSizes | dot_local/scripts/src/private_git-tidy.py:607-614 | The four groups together hold exactly as many entries as there are decisions |
| GitTidy.Dispatch | dot_local/scripts/src/private_git-tidy.py:649-654 | A remote-only decision issues only its unchecked pushes and leaves the repository unchanged |
| GitTidy.ExecuteAllDeletions | dot_local/scripts/src/private_git-tidy.py:640-655 | The loop's git calls and the resulting repository follow the decisions in order; the run stops at the first failing checked command |
| GitTidy.AbortedStaysAborted | dot_local/scripts/src/private_git-tidy.py:640-655 | Once a checked command has failed, the later decisions change nothing |
| GitTidy.RemoteOnlyNeverDeletesLocally | dot_local/scripts/src/private_git-tidy.py:627-636 | A remote-only decision issues only unchecked `git push` calls and deletes no local branch |
| GitTidy.SwitchesBeforeDeletingCurrent | dot_local/scripts/src/private_git-tidy.py:406-441 | Deleting the checked-out branch first checks out the default branch, then runs `git branch -D` |
| GitTidy.DryRunSkips | dot_local/scripts/src/private_git-tidy.py:712-718 | A command is skipped only under `--dry-run` and without capture, and then exactly when its subcommand is not one of the eight read-only ones |
| GitTidy.CapturedAlwaysRuns | dot_local/scripts/src/private_git-tidy.py:712-718 | A capturing command always runs; without `--dry-run` every command runs |
| GitTidy.DryRunGate | dot_local/scripts/src/private_git-tidy.py:712-718 | Under `--dry-run`, fetch, checkout and push are suppressed; `git branch -D` is not, because `branch` is a read-only subcommand |
| GitTidy.RemoteUrl | dot_local/scripts/src/private_git-tidy.py:224-226 | The `upstream` URL is used when non-empty after stripping, else `origin`'s |
| GitTidy.GithubRepoPath | dot_local/scripts/src/private_git-tidy.py:221-263 | A repository path exists iff the URL names `github.com` or the enterprise host and the matching token is set; the path is the one extracted from the URL |
| GitTidy.RepoPathSsh | dot_local/scripts/src/private_git-tidy.py:235-236 | `git@host:owner/repo.git` gives `owner/repo` |
| GitTidy.RepoPathHttps | dot_local/scripts/src/private_git-tidy.py:237-238 | `…/owner/repo.git` gives `owner/repo` for a non-SSH URL |
| GitTidy.DefaultBranch | dot_local/scripts/src/private_git-tidy.py:266-271 | The default branch contains no `/`, and it is `main` when `symbolic-ref` printed nothing |
| GitTidy.DefaultBranchOfRef | dot_local/scripts/src/private_git-tidy.py:267-269 | `…/name\n` gives `name` |
| GitTidy.DeletableOnceNeverAborts | dot_local/scripts/src/private_git-tidy.py:640-655 | When every locally deleted branch is local, non-default and listed once, the run never aborts; it removes exactly those branches |
| GitTidy.GoneAndMergedAborts | dot_local/scripts/src/private_git-tidy.py:436-441 | As written: a branch that is both gone and merged gets a second checked `git branch -D`; the run aborts, and the later stale branch is never deleted |
| GitTidy.GoneAndMergedFromOutput | dot_local/scripts/src/private_git-tidy.py:115-132 | The same abort from the commands' output. A `-vv` line for `b` whose rest contains `[gone]` makes the gone list `[b]`. The `git branch` lines of the checked-out branch, `b` and a third branch, together with a merged pull request headed `b`, make the merged list `[b]`. Running those decisions and a confirmed stale third branch aborts with that branch still present |
| GitTidy.MergedNotGone | dot_local/scripts/src/private_git-tidy.py:126-138 | Corrected merged list: an order-preserving sublist of the merged branches holding exactly those that are not gone |
| GitTidy.GoneMergedDisjoint | dot_local/scripts/src/private_git-tidy.py:521-542 | With the corrected merged list, no gone decision and merged decision name the same branch |
| GitTidy.UpstreamGoneMissed | dot_local/scripts/src/private_git-tidy.py:119 | As written: a `git branch -vv` line whose tracking part is `[origin/x: gone]` is never reported as gone |
| GitTidy.GoneEntryFixed | dot_local/scripts/src/private_git-tidy.py:118-123 | Corrected gone test: a reported branch comes from a line containing `: gone]`, and it is a non-empty word without spaces |
| GitTidy.GoneEntryFixedOf | dot_local/scripts/src/private_git-tidy.py:120-123 | Corrected gone test: on a `: gone]` line, the reported branch is the first word of the name after the marker is removed |
| GitTidy.GoneEntryFixedFinds | dot_local/scripts/src/private_git-tidy.py:118-123 | Corrected gone test: `name sha [origin/name: gone] …` reports `name` |
| GitTidy.GoneEntryFixedFindsCurrent | dot_local/scripts/src/private_git-tidy.py:118-123 | Corrected gone test: the checked-out branch's line `* name sha [origin/name: gone] …` reports `name` |
| Maintainer.FirstStatusFailure | dot_local/scripts/src/private_maintainer.py:270-274 | No legacy status blocks iff no status is error, failure or pending; a blocking result is a `Check …` message |
| Maintainer.FirstStatusFailureAt | dot_local/scripts/src/private_maintainer.py:270-274 | The first blocking status decides the message |
| Maintainer.FirstRunFailure | dot_local/scripts/src/private_maintainer.py:276-280 | No check run fails iff all are completed with success, neutral or skipped; a failing result is a `Check …` message |
| Maintainer.FirstRunFailureAt | dot_local/scripts/src/private_maintainer.py:276-280 | The first check run that does not pass decides the message |
| Maintainer.CheckPrStatus | dot_local/scripts/src/private_maintainer.py:240-282 | Every failed result carries a non-empty reason |
| Maintainer.SuccessIffReady | dot_local/scripts/src/private_maintainer.py:240-282 | Success iff no conflicts, there are commits, the latest commit has some status or check run, no status blocks, and every check run passes |
| Maintainer.ConflictsIffReported | dot_local/scripts/src/private_maintainer.py:250-254 | "Has merge conflicts" is reported iff `mergeable is False` or the merge state is `dirty`; an unknown `mergeable` is not a conflict |
| Maintainer.EarlyFailures | dot_local/scripts/src/private_maintainer.py:256-268 | Without conflicts, no commits gives "No commits found"; a latest commit with neither statuses nor check runs gives "No CI checks found" |
| Maintainer.OnlyLatestCommit | dot_local/scripts/src/private_maintainer.py:259-265 | Replacing every commit before the latest changes nothing |
| Maintainer.LegacyStatusDecides | dot_local/scripts/src/private_maintainer.py:270-274 | Legacy statuses come before check runs: the first blocking status decides over every check run |
| Maintainer.CheckRunDecides | dot_local/scripts/src/private_maintainer.py:276-280 | With no blocking status, the first check run that does not pass decides |
| Maintainer.ScanSingleRepository | dot_local/scripts/src/private_maintainer.py:164-188 | The lists are, in input order, the non-draft pull requests that succeed (mergeable), those that fail with their reason (failed), and the titles of all non-drafts; the titles' count is the sum of the other two |
| Maintainer.PartitionMember | dot_local/scripts/src/private_maintainer.py:176-184 | A pull request is mergeable iff it is not a draft and succeeds; it is failed with a reason iff it is not a draft and fails with that reason |
| UpdatePython.VerLeTotal | dot_local/scripts/src/update_python.py:114 | Version order is total and antisymmetric |
| UpdatePython.VerLeTransitive | dot_local/scripts/src/update_python.py:114 | Version order is transitive |
| UpdatePython.KeyStringInjective | dot_local/scripts/src/update_python.py:98 | Distinct installation keys print as distinct strings |
| UpdatePython.KeyStringEnd | dot_local/scripts/src/update_python.py:98 | An installation key ends in `t` iff it is free-threaded; removing that `t` leaves the version |
| UpdatePython.LabelsFrom | dot_local/scripts/src/update_python.py:22 | Every generated label has a minor between 8 and the start; only minors from 14 up have a free-threaded label |
| UpdatePython.VersionsList | dot_local/scripts/src/update_python.py:22 | `VERSIONS` is exactly 3.15, 3.15t, 3.14, 3.14t, 3.13, 3.12, 3.11, 3.10, 3.9, 3.8: ten labels, in descending minor order |
| UpdatePython.VersionsStrings | dot_local/scripts/src/update_python.py:22 | The ten labels print as "3.15", "3.15t", "3.14", "3.14t", "3.13", "3.12", "3.11", "3.10", "3.9" and "3.8" |
| UpdatePython.NewerLabelStrings | dot_local/scripts/src/update_python.py:22 | The first five labels print as "3.15" to "3.13" |
| UpdatePython.OlderLabelStrings | dot_local/scripts/src/update_python.py:22 | The last five labels print as "3.12" to "3.8" |
| UpdatePython.TwoDigitLabel | dot_local/scripts/src/update_python.py:22 | A two-digit minor prints as `3.` plus its two digits, then `t` iff free-threaded |
| UpdatePython.OneDigitLabel | dot_local/scripts/src/update_python.py:22 | A one-digit minor prints as `3.` plus its digit |
| UpdatePython.LabelParse | dot_local/scripts/src/update_python.py:49-50 | A label is free-threaded iff its text ends in `t`; removing the `t` leaves `3.<minor>` |
| UpdatePython.ToolLabelString | dot_local/scripts/src/update_python.py:23 | A label equals `TOOL_VERSION` ("3.14") iff it is the default-variant label of minor 14 |
| UpdatePython.InstalledVersion | dot_local/scripts/src/update_python.py:96-101 | The installed keys are exactly the versions of entries under uv's python directory, free-threaded iff the variant is `freethreaded` |
| UpdatePython.MaxVer | dot_local/scripts/src/update_python.py:114 | `sorted(…)[-1]` is a candidate no smaller than any other |
| UpdatePython.FindLatestVersion | dot_local/scripts/src/update_python.py:104-115 | None iff no entry has the variant and minor; otherwise a key of the requested variant whose version is a candidate's and no smaller than any candidate's |
| UpdatePython.SortDescending | dot_local/scripts/src/update_python.py:120-128 | The sorted keys are exactly the set's keys, in strictly descending version order |
| UpdatePython.SetMax | dot_local/scripts/src/update_python.py:120-128 | The largest key is in the set and above every other key |
| UpdatePython.FindInstalledForMinor | dot_local/scripts/src/update_python.py:118-129 | "-" when no installed key matches the variant and minor; otherwise the matching keys, strictly descending, joined by ", " |
| UpdatePython.CheckVersion | dot_local/scripts/src/update_python.py:47-71 | One pass of the loop yields the label's row, its commands and the chosen latest key |
| UpdatePython.CheckVersions | dot_local/scripts/src/update_python.py:36-71 | Over the labels, the rows, the commands (in order) and the chosen keys are those of each label |
| UpdatePython.ChosenStep | dot_local/scripts/src/update_python.py:58 | Each label whose latest key exists adds exactly that key to the chosen set |
| UpdatePython.InstallOnlyWhenMissing | dot_local/scripts/src/update_python.py:60-70 | Every install or upgrade command belongs to a label whose latest key is not installed; an upgrade only for `TOOL_VERSION`; under dry-run each is printed, otherwise run |
| UpdatePython.ActionOfLabel | dot_local/scripts/src/update_python.py:60-70 | One label's commands exist only when its latest key is not installed; each is that key's install or, for `TOOL_VERSION`, its tool upgrade |
| UpdatePython.UpgradeOnlyForTool | dot_local/scripts/src/update_python.py:69-70 | A `uv tool` command appears only for `TOOL_VERSION`, and only when its latest key was newly installed |
| UpdatePython.UninstallActions | dot_local/scripts/src/update_python.py:83-85 | As written, every uninstall is run; there is one for each installed key that was not chosen |
| UpdatePython.UninstallIsDifference | dot_local/scripts/src/update_python.py:83-85 | A key is uninstalled iff it is installed and was not chosen |
| UpdatePython.DryRunStillUninstalls | dot_local/scripts/src/update_python.py:83-85 | As written: under `--dry-run`, an extra installed key is still really uninstalled |
| UpdatePython.UninstallActionsFixed | dot_local/scripts/src/update_python.py:83-85 | Corrected uninstall: under dry-run every uninstall is only printed; each extra key gets its uninstall |
| UpdatePython.DryRunRunsNothing | dot_local/scripts/src/update_python.py:60-85 | With the corrected uninstall, a dry run prints every command and runs none |
| NdjsonTable.Put | dot_local/scripts/src/ndjson_table.py:65 | `items[k] = v` sets `k` to `v` and leaves every other key alone; a new key goes last, an existing key keeps its place |
| NdjsonTable.PutPreserves | dot_local/scripts/src/ndjson_table.py:65 | Assignment keeps keys distinct, and adds no object when the value is not one |
| NdjsonTable.Merge | dot_local/scripts/src/ndjson_table.py:61-63 | `update` keeps keys distinct and adds no object |
| NdjsonTable.MergeLookup | dot_local/scripts/src/ndjson_table.py:61-63 | After `update`, a key has the later dict's value when present there, else the earlier one |
| NdjsonTable.Flatten | dot_local/scripts/src/ndjson_table.py:56-66 | A flattened dict has distinct keys and no object values |
| NdjsonTable.FlattenStep | dot_local/scripts/src/ndjson_table.py:58-65 | Flattening one more item applies that item's `update` or assignment to the items so far |
| NdjsonTable.FlattenObject | dot_local/scripts/src/ndjson_table.py:56-66 | The loop over the object's items computes the flattened dict |
| NdjsonTable.FlattenLeaf | dot_local/scripts/src/ndjson_table.py:59-65 | A leaf is stored under `parent.key` (under `key` at top level) without touching other keys |
| NdjsonTable.FlattenNested | dot_local/scripts/src/ndjson_table.py:60-61 | A nested object's flattened keys override the earlier ones; other keys keep their values |
| NdjsonTable.FlattenListFirstOnly | dot_local/scripts/src/ndjson_table.py:62-63 | A non-empty list whose first element is an object flattens as that first element alone |
| NdjsonTable.FlattenEmptyObject | dot_local/scripts/src/ndjson_table.py:60-61 | An empty nested object contributes no keys |
| NdjsonTable.FlattenCollision | dot_local/scripts/src/ndjson_table.py:61-65 | On a key collision the later item wins: `{"a.b": 1, "a": {"b": 2}}` flattens to `{"a.b": 2}` |
| NdjsonTable.CollectRows | dot_local/scripts/src/ndjson_table.py:74-90 | The loop keeps, in order, the flattened valid lines that pass the search |
| NdjsonTable.CollectRowsMember | dot_local/scripts/src/ndjson_table.py:76-87 | A row is kept iff it is the flattening of a valid line and every pattern matches one of its searched values |
| NdjsonTable.NoPatternsKeepsAll | dot_local/scripts/src/ndjson_table.py:85 | With no patterns, every valid line is kept |
| NdjsonTable.IsEmptyColumn | dot_local/scripts/src/ndjson_table.py:93-98 | A column is reported empty iff every row's value is 0, "", None, False or a zero float, with a missing key counting as None |
| NdjsonTable.KeptHeadersMember | dot_local/scripts/src/ndjson_table.py:100 | A header is kept iff it is a header and some row has a non-empty value for it; kept headers keep their order |
| NdjsonTable.FilterHeaders | dot_local/scripts/src/ndjson_table.py:100 | The comprehension computes the kept headers |
| NdjsonTable.Pad3 | dot_local/scripts/src/ndjson_table.py:140 | A group below 1000 prints as exactly three digits |
| NdjsonTable.GroupedValue | dot_local/scripts/src/ndjson_table.py:140 | `f"{value:_}"` keeps the integer's value once the underscores are removed; a negative value starts with `-` |
| NdjsonTable.GroupNatValue | dot_local/scripts/src/ndjson_table.py:140 | Grouping a natural number by threes keeps its value |
| NdjsonTable.HumanReadableSize | dot_local/scripts/src/ndjson_table.py:123-130 | A size below 1024 prints as `<size> B`; larger sizes are left scaled |
| NdjsonTable.FormatValue | dot_local/scripts/src/ndjson_table.py:133-141 | None gives ""; an integer `size` below 1024 gives `<size> B`; an integer in a numeric column gets `_` grouping; a string is shown as itself; when neither the `size` rule nor the numeric rule applies, the cell is `str(value)` |
| NdjsonTable.Headers | dot_local/scripts/src/ndjson_table.py:68-70 | The headers are the selected columns when given, else the first line's flattened keys, in order |
| NdjsonTable.PlainTable | dot_local/scripts/src/ndjson_table.py:103-110 | One row per kept row: its number 1..n, then one cell per kept header |
| NdjsonTable.PivotTable | dot_local/scripts/src/ndjson_table.py:111-118 | Columns are "Field" plus one per row, titled `Row 1`… in order; one row per kept header, led by its name |
| NdjsonTable.RenderTable | dot_local/scripts/src/ndjson_table.py:40-120 | Empty input and an invalid first line are reported. A valid first line raises a missing column exactly when some selected column is not among its flattened keys, and the column reported is the first such one in selection order; otherwise a table is rendered, from the headers, the kept rows and their non-empty columns, in plain or pivot layout |
| DockerImages.IsPrivateRegistry | dot_local/scripts/src/update_docker_images.py:79-82 | A private-registry image name contains a `/` and a `.` or `:` |
| DockerImages.TagIrrelevant | dot_local/scripts/src/update_docker_images.py:79-82 | The tag after the last `:` never affects the private-registry test |
| DockerImages.RepoOfTagged | dot_local/scripts/src/update_docker_images.py:80 | `rsplit(":", 1)[0]` of `repo:tag` is `repo` |
| DockerImages.NoSlashNotPrivate | dot_local/scripts/src/update_docker_images.py:82 | An image without `/` in its repository is never private-registry |
| DockerImages.HostSegmentPrivate | dot_local/scripts/src/update_docker_images.py:79-82 | A first segment containing `.` or `:` before a `/` makes the image private-registry |
| DockerImages.PlainSegmentNotPrivate | dot_local/scripts/src/update_docker_images.py:79-82 | A first segment without `.` and `:` makes the image not private-registry |
| DockerImages.HasRepoDigests | dot_local/scripts/src/update_docker_images.py:69-76 | A failed `docker inspect` never has digests; digests mean the trimmed output is neither empty nor `[]` |
| DockerImages.HasRemoteRegistry | dot_local/scripts/src/update_docker_images.py:61-66 | False without digests; true for a private-registry image with digests; otherwise the manifest check |
| DockerImages.GetImages | dot_local/scripts/src/update_docker_images.py:44-58 | The loop keeps, in order, the trimmed lines that pass the filter |
| DockerImages.GetImagesMember | dot_local/scripts/src/update_docker_images.py:51-58 | An image is checked iff it is the trimmed form of some line, is non-empty, has no `<none>`, and has a remote registry |
| DockerImages.DropPrefix7 | dot_local/scripts/src/update_docker_images.py:117-120 | `[7:]` drops exactly the first seven characters, and gives "" for a shorter string |
| DockerImages.DropDigestPrefix | dot_local/scripts/src/update_docker_images.py:117-120 | `sha256:<hex>` gives `<hex>` |
| DockerImages.SizeOf | dot_local/scripts/src/update_docker_images.py:106-113 | The size is never empty: the trimmed output when it is non-empty, and "-" exactly when it is empty |
| DockerImages.ProcessImage | dot_local/scripts/src/update_docker_images.py:116-124 | A failed pull gives "Pull failed" with no new SHA; an equal SHA gives "Unchanged" with no new SHA; otherwise "Updated" with the new SHA |
| DockerImages.NewShaOnlyWhenUpdated | dot_local/scripts/src/update_docker_images.py:119-124 | A new SHA is shown only for an updated image, and it differs from the old one |
| DockerImages.StrLeTotal | dot_local/scripts/src/update_docker_images.py:37 | String order is total |
| DockerImages.StrLeTransitive | dot_local/scripts/src/update_docker_images.py:37 | String order is transitive |
| DockerImages.SortByImage | dot_local/scripts/src/update_docker_images.py:37 | The in-place sort leaves the rows in image order as a permutation of the original rows |
| DockerImages.InsertAt | dot_local/scripts/src/update_docker_images.py:37 | One insertion step extends the sorted prefix by one element and permutes the array |
| DockerImages.InsertedSorted | dot_local/scripts/src/update_docker_images.py:37 | An insertion that stops at its place leaves the prefix sorted |
| DockerImages.Numbered | dot_local/scripts/src/update_docker_images.py:38-39 | Rows are numbered "1", "2", … in order |
| DockerImages.Summary | dot_local/scripts/src/update_docker_images.py:20-39 | Each completion gives one row (a raised one gives `Error` with "-" in the last three fields); the table is sorted by image, a permutation of those rows, and numbered from 1 |
| RegenVenv.SkipSpacesMeaning | dot_local/scripts/src/_regen_venv.py:46-50 | `\s*` consumes exactly the leading whitespace |
| RegenVenv.OpeningAlsoCloses | dot_local/scripts/src/_regen_venv.py:46-49 | Every `# /// script` line also matches the closing pattern, which is why the opening test comes first |
| RegenVenv.QuotedShape | dot_local/scripts/src/_regen_venv.py:54 | A match of `"([^"]+)"` is a non-empty quote-free run between two quotes of the line |
| RegenVenv.QuotedOf | dot_local/scripts/src/_regen_venv.py:54 | The search finds the first quoted non-empty run after a quote-free prefix |
| RegenVenv.ExtractPep723Deps | dot_local/scripts/src/_regen_venv.py:40-56 | The loop computes the scanner's dependencies, in file order, with duplicates kept |
| RegenVenv.OpeningEntersBlock | dot_local/scripts/src/_regen_venv.py:46-47 | An opening line always sets `in_block` and changes nothing else |
| RegenVenv.ClosingKeepsDepsFlag | dot_local/scripts/src/_regen_venv.py:48-49 | In a block, a closing line clears `in_block` only; `in_deps` is kept |
| RegenVenv.DepsLineContributesNothing | dot_local/scripts/src/_regen_venv.py:50-51 | A `dependencies = [` line in a block sets `in_deps` and adds nothing, even if it holds quoted items |
| RegenVenv.DepsLineNeitherOpensNorCloses | dot_local/scripts/src/_regen_venv.py:47-51 | A `dependencies = [` line never matches the opening or the closing pattern, so inside a block the third branch of the chain is the one taken |
| RegenVenv.BracketEndsList | dot_local/scripts/src/_regen_venv.py:52-53 | In a list, a line with `]` ends it and adds nothing, even if it holds a quoted string |
| RegenVenv.Step | dot_local/scripts/src/_regen_venv.py:47-55 | An opening `# /// script` line always enters the block and keeps the rest; only a line in the dependency list adds, and it stays in the list; a line changes at most one of the two flags |
| RegenVenv.Scan | dot_local/scripts/src/_regen_venv.py:41-55 | A file yields at most one dependency per line |
| RegenVenv.ScanProvenance | dot_local/scripts/src/_regen_venv.py:41-55 | Every dependency found is the first quoted run of some line of the file |
| RegenVenv.StepAddsAtMostOne | dot_local/scripts/src/_regen_venv.py:54-55 | A line adds at most one dependency and only appends. It adds one only in a list, on a line without `]`, and that one is the line's first quoted run |
| RegenVenv.ScanExtends | dot_local/scripts/src/_regen_venv.py:41-55 | Dependencies are only ever appended: a prefix of the file yields a prefix of the result |
| RegenVenv.OpenLineOpens | dot_local/scripts/src/_regen_venv.py:46 | `# /// script` matches the opening pattern |
| RegenVenv.CloseLineCloses | dot_local/scripts/src/_regen_venv.py:48 | `# ///` closes a block and is neither an opening nor a dependencies line |
| RegenVenv.OneLineDepsOpens | dot_local/scripts/src/_regen_venv.py:50 | `# dependencies = ["dep"]` matches the dependencies pattern |
| RegenVenv.OneLineDepsQuoted | dot_local/scripts/src/_regen_venv.py:52-54 | That line contains `]`, and its quoted run is `dep` |
| RegenVenv.ListLeaksPastBlock | dot_local/scripts/src/_regen_venv.py:46-55 | As written: after a list opened and never closed inside a block, a quoted string in code after the block's end is taken as a dependency |
| RegenVenv.OneLineListMisread | dot_local/scripts/src/_regen_venv.py:50-55 | As written: a block with a one-line `dependencies = ["dep"]` yields no `dep`, and yields a quoted string of the code after the block instead |
| RegenVenv.FixedListInsideBlock | dot_local/scripts/src/_regen_venv.py:46-55 | Corrected scanner: `in_deps` is only ever set inside a block |
| RegenVenv.FixedOutsideContributesNothing | dot_local/scripts/src/_regen_venv.py:46-55 | Corrected scanner: outside a block, only an opening line has any effect |
| RegenVenv.OneLineListKept | dot_local/scripts/src/_regen_venv.py:50-55 | Corrected scanner: a one-line list yields exactly its quoted items; code after the block yields nothing |
| RegenVenv.OneLineListFixed | dot_local/scripts/src/_regen_venv.py:50-55 | Corrected scanner: the one-line block above yields exactly `[dep]` |
| RegenVenv.ExtractPyprojectDeps | dot_local/scripts/src/_regen_venv.py:59-66 | No `dependency-groups` gives []; otherwise all groups' lists concatenated in order |
| RegenVenv.PyprojectDepsMember | dot_local/scripts/src/_regen_venv.py:64-65 | A requirement is collected iff some group lists it |
| RegenVenv.CollectDependencies | dot_local/scripts/src/_regen_venv.py:22-27 | A dependency is in the set iff some script's inline block yields it or, when `pyproject.toml` exists, some group lists it |
| RegenVenv.PlanFor | dot_local/scripts/src/_regen_venv.py:28-37 | Nothing is installed iff the set is empty; otherwise exactly the set is installed |

## Left out

- Process execution is not modelled: `subprocess.run` in `run_git`, the docker and uv
  wrappers, and `get_sha`. Their outputs and return codes are parameters.
- The effects of git commands are not modelled beyond the deletions.
  - `Repo` in `GitTidy` tracks only the local branch set and the checked-out branch.
  - A failing checked command is an abort.
  - Whether a command fails is decided from `Repo` alone. `git branch -D` fails when
    the branch is not local or is checked out.
  - The checked `git checkout <default>` of `switch_if_current_branch`
    (private_git-tidy.py:409) never fails in the model. The pushes run with
    `check=False` and never abort.
  - `sync_default_branch` (stash, checkout, fast-forward, rebase) is left out, because
    its meaning is git's own.
- PyGithub calls are not modelled. Closed and open pull requests, statuses and check
  runs are plain datatypes. A `GithubException` is `None` for the call that raised it.
- The `collect_gone_branches`, `collect_merged_branches` and docker `main` thread
  pools complete in a nondeterministic order.
  - The model takes the input order for gone and merged decisions. The category order
    of the decision list holds for any order.
  - For docker, the sort makes the final table independent of completion order.
- `Confirm.ask` answers are a `seq<bool>` parameter, one per stale branch.
  - The final "Proceed with deletion?" prompt and the dry-run early return in `run`
    (`private_git-tidy.py:200-208`) only decide whether `ExecuteAllDeletions` is
    reached at all.
- The current time and ISO-8601 parsing are an integer `now` and a
  `parseDate: string -> int` parameter.
  - Times are whole seconds. `days_ago` is the elapsed seconds divided by 86400,
    rounded down, as `timedelta.days` gives.
  - Time zones and sub-second precision are not modelled.
- All Rich output is left out: tables, progress bars and console messages.
  - `show_branches_to_review`, `show_remaining_branches_summary` and the printing half
    of `show_deletion_summary` only print.
  - The content of `ndjson_table`'s cells is modelled; how Rich draws them is not.
- Environment variables and tokens are `bool` parameters of `GithubRepoPath`.
  `SystemExit` paths are left out.
  - GitTidy.DefaultBranch: a failing `git symbolic-ref refs/remotes/origin/HEAD`
    raises from `run_git(check=True)` and ends the script with exit status 1
    (private_git-tidy.py:46-48). That path is not modelled; the `main` fallback is
    reached only when the command succeeds with empty output.
- `UpdatePython.CheckVersions` takes the labels as a parameter. `main` passes the
  fixed `VERSIONS` list, described by `VersionsList`. This keeps the proofs generic.
- `packaging.Version` is modelled with integer release triples only, without
  pre-releases or local versions.
- uv's JSON output is given as parsed `UvEntry` values. TOML is given as parsed
  groups.
  - A dependency group whose entries are tables (`{include-group = …}`) is not
    modelled; only string entries are.
- `uv pip install *deps` iterates a Python set in an arbitrary order. The model keeps
  the set.
- The `re` engine is left out.
  - Search patterns of `ndjson_table` are abstract `string -> bool` predicates.
  - The three fixed PEP 723 patterns are coded by hand. `\s` is Python's whitespace
    set, the same set `str.strip` uses.
- `json.loads` is left out: text is given already parsed, and `None` stands for an
  invalid line.
  - A line that parses to something other than an object (`5`, `[1]`, `"x"`) is not
    modelled, on the first line or any later one. `flatten` then raises
    `AttributeError` and the script ends; the model's lines are objects or `None`.
- NdjsonTable.PyStr: floats carry their `repr` text. In `str` of nested lists and
  dicts, strings are always single-quoted. The escaping and quote choice of `repr`
  are not modelled.
- `NdjsonTable.HumanReadableSize`: sizes of 1024 and above use floating-point division
  and `:.2f`. They give an uninterpreted `ScaledSize` cell.
- `NdjsonTable.FormatValue`: `_` grouping of a float gives an uninterpreted
  `GroupedFloat` cell.
- `GitTidy.SortByDays`: Python's `sorted` is stable. The model inserts after equal
  keys, so it is stable too, but only sortedness and permutation are stated.
- `DockerImages.SortByImage`: `list.sort` is stable. Stability is not stated; sortedness
  by image name and permutation are.

## Findings

| source | as written | input that shows it | evidently intended | confidence | as-written member | corrected member |
|---|---|---|---|---|---|---|
| dot_local/scripts/src/private_git-tidy.py:436-441 | Gone and merged lists are built independently (lines 115-132), so a branch can be in both; each decision runs a checked `git branch -D` | `git branch -vv` prints `  feat 1a2b3c4 [origin/feat: gone] Drop [gone] marker`, so the literal `[gone]` test matches; a merged pull request has head `feat`; a stale branch `old` is confirmed | each branch deleted once; later branches still processed | not executed | GitTidy.GoneAndMergedFromOutput | GitTidy.MergedNotGone |
| dot_local/scripts/src/update_python.py:83-85 | Extra versions are uninstalled through `run_uv_command` even under `--dry-run` | `--dry-run` with an installed patch that is no longer the latest of its minor | a dry run prints the uninstall instead of running it, as it does for installs | not executed | UpdatePython.DryRunStillUninstalls | UpdatePython.DryRunRunsNothing |
| dot_local/scripts/src/_regen_venv.py:50-55 | The `dependencies = [` line sets `in_deps` but is never examined for `]` or quotes, and closing the block does not clear `in_deps` | a script whose block is `# dependencies = ["rich"]` on one line, followed by code with a quoted string | a one-line list yields its items, and nothing after the block is a dependency | not executed | RegenVenv.OneLineListMisread | RegenVenv.OneLineListFixed |
| dot_local/scripts/src/private_git-tidy.py:119 | A gone branch is detected by the text `[gone]` | `  feat 1a2b3c4 [origin/feat: gone] msg`, which is how `git branch -vv` reports a deleted upstream | detect a tracking part ending in `: gone]` | not executed | GitTidy.UpstreamGoneMissed | GitTidy.GoneEntryFixedFinds |
| dot_local/scripts/src/private_git-tidy.py:120-121 | The name is `split()[0]` with `*` stripped; on the checked-out branch's line the first word is `*` alone, which strips to empty | `* feat 1a2b3c4 [origin/feat: gone] msg` | report `feat` | not executed | GitTidy.CurrentBranchNeverGone | GitTidy.GoneEntryFixedFindsCurrent |
