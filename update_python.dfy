/** The Python version selector of the uv update script: the fixed list of minor
    versions it keeps current, the newest patch per minor and variant, the installed
    patches per minor, and what it installs, upgrades and uninstalls. */
module UpdatePython {
  import opened Text
  import opened Lists

  // ---------------------------------------------------------------------------
  // Versions and installation keys

  /** A release `major.minor.patch`, as uv's `version_parts` gives it (pre-releases are
      not modelled). */
  datatype Ver = Ver(major: nat, minor: nat, patch: nat)

  /** `Version` ordering on releases: numeric, component by component. */
  predicate VerLe(a: Ver, b: Ver) {
    a.major < b.major || (a.major == b.major && (a.minor < b.minor || (a.minor == b.minor && a.patch <= b.patch)))
  }

  predicate VerLt(a: Ver, b: Ver) {
    VerLe(a, b) && a != b
  }

  lemma VerLeTotal(a: Ver, b: Ver)
    ensures VerLe(a, b) || VerLe(b, a)
    ensures VerLe(a, b) && VerLe(b, a) ==> a == b
  {
  }

  lemma VerLeTransitive(a: Ver, b: Ver, c: Ver)
    requires VerLe(a, b) && VerLe(b, c)
    ensures VerLe(a, c)
  {
  }

  function VerString(v: Ver): string {
    NatToString(v.major) + "." + MinorPatch(v)
  }

  function MinorPatch(v: Ver): string {
    NatToString(v.minor) + "." + NatToString(v.patch)
  }

  /** An installation key: a version, with the free-threaded ones marked `t`. */
  datatype Key = Key(ver: Ver, freethreaded: bool)

  function KeyString(k: Key): string {
    VerString(k.ver) + (if k.freethreaded then "t" else "")
  }

  /** Keys and their strings are interchangeable: distinct keys render differently,
      so the set operations of the script on strings agree with those on keys. */
  lemma KeyStringInjective(a: Key, b: Key)
    requires KeyString(a) == KeyString(b)
    ensures a == b
  {
    KeyStringEnd(a);
    KeyStringEnd(b);
    var sa, sb := VerString(a.ver), VerString(b.ver);
    assert sa == sb by {
      if a.freethreaded { assert KeyString(a)[..|sa|] == sa; assert KeyString(b)[..|sb|] == sb; }
    }
    assert '.' !in NatToString(a.ver.major) && '.' !in NatToString(b.ver.major);
    assert '.' !in NatToString(a.ver.minor) && '.' !in NatToString(b.ver.minor);
    SeparatedUnique(NatToString(a.ver.major), '.', MinorPatch(a.ver), NatToString(b.ver.major), MinorPatch(b.ver));
    SeparatedUnique(NatToString(a.ver.minor), '.', NatToString(a.ver.patch),
                    NatToString(b.ver.minor), NatToString(b.ver.patch));
    NatToStringInjective(a.ver.major, b.ver.major);
    NatToStringInjective(a.ver.minor, b.ver.minor);
    NatToStringInjective(a.ver.patch, b.ver.patch);
  }

  /** A key string ends in `t` exactly for a free-threaded key, and removing that `t`
      gives the version. */
  lemma KeyStringEnd(k: Key)
    ensures EndsWith(KeyString(k), "t") <==> k.freethreaded
    ensures RemoveSuffix(KeyString(k), "t") == VerString(k.ver)
  {
    var v := VerString(k.ver);
    var p := NatToString(k.ver.patch);
    assert v[|v| - 1] == MinorPatch(k.ver)[|MinorPatch(k.ver)| - 1] == p[|p| - 1];
    if k.freethreaded {
      assert KeyString(k)[|KeyString(k)| - 1..] == "t";
    } else {
      assert KeyString(k) == v;
      assert v[|v| - 1..] == [p[|p| - 1]];
    }
  }

  // ---------------------------------------------------------------------------
  // VERSIONS

  /** A label of the version list: `3.<minor>`, with `t` for the free-threaded build. */
  datatype Label = Label(minor: nat, freethreaded: bool)

  function LabelString(l: Label): string {
    "3." + NatToString(l.minor) + (if l.freethreaded then "t" else "")
  }

  /** Minors `i` down to 8, both variants from 3.14 up. */
  function LabelsFrom(i: int): (ls: seq<Label>)
    ensures forall k :: 0 <= k < |ls| ==> 8 <= ls[k].minor <= i && (ls[k].freethreaded ==> ls[k].minor >= 14)
    decreases i
  {
    if i < 8 then []
    else (if i >= 14 then [Label(i, false), Label(i, true)] else [Label(i, false)]) + LabelsFrom(i - 1)
  }

  function Versions(): seq<Label> {
    LabelsFrom(15)
  }

  /** `VERSIONS`: ten labels, newest minor first. */
  lemma VersionsList()
    ensures Versions() == [Label(15, false), Label(15, true), Label(14, false), Label(14, true), Label(13, false),
                           Label(12, false), Label(11, false), Label(10, false), Label(9, false), Label(8, false)]
    ensures |Versions()| == 10
  {
  }

  lemma VersionsStrings()
    ensures Map(Versions(), LabelString) == ["3.15", "3.15t", "3.14", "3.14t", "3.13", "3.12", "3.11", "3.10", "3.9", "3.8"]
  {
    var m := Map(Versions(), LabelString);
    NewerLabelStrings();
    OlderLabelStrings();
    assert m == m[..5] + m[5..];
  }

  lemma NewerLabelStrings()
    ensures Map(Versions(), LabelString)[..5] == ["3.15", "3.15t", "3.14", "3.14t", "3.13"]
  {
    VersionsList();
    TwoDigitLabel(15, false);
    TwoDigitLabel(15, true);
    TwoDigitLabel(14, false);
    TwoDigitLabel(14, true);
    TwoDigitLabel(13, false);
    assert DigitChar(1) == '1' && DigitChar(3) == '3' && DigitChar(4) == '4' && DigitChar(5) == '5';
    var m := Map(Versions(), LabelString);
    assert m[0] == "3.15" && m[1] == "3.15t" && m[2] == "3.14" && m[3] == "3.14t" && m[4] == "3.13";
  }

  lemma OlderLabelStrings()
    ensures Map(Versions(), LabelString)[5..] == ["3.12", "3.11", "3.10", "3.9", "3.8"]
  {
    VersionsList();
    TwoDigitLabel(12, false);
    TwoDigitLabel(11, false);
    TwoDigitLabel(10, false);
    OneDigitLabel(9);
    OneDigitLabel(8);
    assert DigitChar(0) == '0' && DigitChar(1) == '1' && DigitChar(2) == '2';
    assert DigitChar(8) == '8' && DigitChar(9) == '9';
    var m := Map(Versions(), LabelString);
    assert m[5] == "3.12" && m[6] == "3.11" && m[7] == "3.10" && m[8] == "3.9" && m[9] == "3.8";
  }

  lemma TwoDigitLabel(minor: nat, freethreaded: bool)
    requires 10 <= minor < 100
    ensures LabelString(Label(minor, freethreaded))
            == ['3', '.', DigitChar(minor / 10), DigitChar(minor % 10)] + (if freethreaded then "t" else "")
  {
    assert NatToString(minor) == [DigitChar(minor / 10), DigitChar(minor % 10)];
  }

  lemma OneDigitLabel(minor: nat)
    requires minor < 10
    ensures LabelString(Label(minor, false)) == ['3', '.', DigitChar(minor)]
  {
  }


  /** How the loop reads a label: free-threaded iff it ends in `t`, and its base version
      is the label without that `t`. */
  lemma LabelParse(l: Label)
    ensures EndsWith(LabelString(l), "t") <==> l.freethreaded
    ensures RemoveSuffix(LabelString(l), "t") == "3." + NatToString(l.minor)
  {
    var b := "3." + NatToString(l.minor);
    var n := NatToString(l.minor);
    assert b[|b| - 1] == n[|n| - 1];
    if l.freethreaded {
      assert LabelString(l)[|LabelString(l)| - 1..] == "t";
    } else {
      assert LabelString(l) == b;
      assert b[|b| - 1..] == [n[|n| - 1]];
    }
  }

  /** The label `TOOL_VERSION` names. */
  const ToolLabel := Label(14, false)

  /** `version == TOOL_VERSION` holds exactly for the non-free-threaded 3.14 label. */
  lemma ToolLabelString(l: Label)
    ensures LabelString(l) == "3.14" <==> l == ToolLabel
  {
    assert NatToString(14) == "14";
    if LabelString(l) == "3.14" {
      LabelParse(l);
      assert !EndsWith("3.14", "t");
      var n := NatToString(l.minor);
      assert "3." + n == "3.14";
      assert n == "14" by { assert ("3." + n)[2..] == n; }
      NatToStringInjective(l.minor, 14);
    }
  }

  // ---------------------------------------------------------------------------
  // uv's python list

  /** One entry of `uv python list --output-format json`. */
  datatype UvEntry = UvEntry(version: Ver, variant: string, path: Option<string>)

  function VariantName(freethreaded: bool): string {
    if freethreaded then "freethreaded" else "default"
  }

  /** Whether an entry lives under uv's managed python directory. */
  predicate Managed(e: UvEntry, uvDir: string) {
    StartsWith(if e.path.Some? then e.path.value else "", uvDir)
  }

  /** `installed_version`: the keys of the entries under uv's python directory. */
  function InstalledVersion(available: seq<UvEntry>, uvDir: string): (r: set<Key>)
    ensures forall k :: k in r <==> exists e :: e in available && Managed(e, uvDir) && k == Key(e.version, e.variant == "freethreaded")
  {
    set e | e in available && Managed(e, uvDir) :: Key(e.version, e.variant == "freethreaded")
  }

  // ---------------------------------------------------------------------------
  // find_latest_version

  predicate Candidate(e: UvEntry, minor: nat, freethreaded: bool) {
    e.variant == VariantName(freethreaded) && e.version.minor == minor
  }

  function CandidateOf(minor: nat, freethreaded: bool): UvEntry -> Option<Ver> {
    (e: UvEntry) => if Candidate(e, minor, freethreaded) then Some(e.version) else None
  }

  /** The greatest version of a non-empty list. */
  function MaxVer(vs: seq<Ver>): (m: Ver)
    requires vs != []
    ensures m in vs && forall v :: v in vs ==> VerLe(v, m)
  {
    if |vs| == 1 then vs[0]
    else
      var m := MaxVer(vs[..|vs| - 1]);
      var last := vs[|vs| - 1];
      assert vs == vs[..|vs| - 1] + [last];
      VerLeTotal(m, last);
      forall v | v in vs[..|vs| - 1] ensures VerLe(v, last) || !VerLe(m, last) {
        if VerLe(m, last) { VerLeTransitive(v, m, last); }
      }
      if VerLe(m, last) then last else m
  }

  /** `find_latest_version`: the newest version of the requested variant and minor (any
      major), as a key; None when there is none. */
  function FindLatestVersion(available: seq<UvEntry>, minor: nat, freethreaded: bool): (r: Option<Key>)
    ensures r.None? <==> forall e :: e in available ==> !Candidate(e, minor, freethreaded)
    ensures r.Some? ==> r.value.freethreaded == freethreaded
                        && (exists e :: e in available && Candidate(e, minor, freethreaded) && e.version == r.value.ver)
                        && forall e :: e in available && Candidate(e, minor, freethreaded) ==> VerLe(e.version, r.value.ver)
  {
    var cands := FilterMap(available, CandidateOf(minor, freethreaded));
    forall v ensures v in cands <==> exists e :: e in available && Candidate(e, minor, freethreaded) && e.version == v {
      FilterMapMember(available, CandidateOf(minor, freethreaded), v);
    }
    assert forall e :: e in available && Candidate(e, minor, freethreaded) ==> e.version in cands;
    if cands == [] then
      None
    else
      Some(Key(MaxVer(cands), freethreaded))
  }

  // ---------------------------------------------------------------------------
  // find_installed_for_minor

  /** The installed keys of a minor and variant. */
  function MatchesOf(installed: set<Key>, minor: nat, freethreaded: bool): set<Key> {
    set k | k in installed && k.freethreaded == freethreaded && k.ver.minor == minor
  }

  predicate StrictlyDescending(ks: seq<Key>) {
    forall i, j :: 0 <= i < j < |ks| ==> VerLt(ks[j].ver, ks[i].ver)
  }

  /** Keys of one variant, newest first. */
  function SortDescending(s: set<Key>, freethreaded: bool): (ks: seq<Key>)
    requires forall k :: k in s ==> k.freethreaded == freethreaded
    ensures forall k :: k in ks <==> k in s
    ensures StrictlyDescending(ks)
    decreases |s|
  {
    if s == {} then []
    else
      var m := SetMax(s, freethreaded);
      var rest := SortDescending(s - {m}, freethreaded);
      assert forall j :: 0 <= j < |rest| ==> VerLt(rest[j].ver, m.ver) by {
        forall j | 0 <= j < |rest| ensures VerLt(rest[j].ver, m.ver) {
          assert rest[j] in rest;
        }
      }
      [m] + rest
  }

  /** The newest key of a non-empty set of keys of one variant. */
  function SetMax(s: set<Key>, freethreaded: bool): (m: Key)
    requires s != {} && forall k :: k in s ==> k.freethreaded == freethreaded
    ensures m in s && forall k :: k in s && k != m ==> VerLt(k.ver, m.ver)
    decreases |s|
  {
    var x :| x in s;
    if s == {x} then x
    else
      var m := SetMax(s - {x}, freethreaded);
      VerLeTotal(x.ver, m.ver);
      if VerLe(x.ver, m.ver) then
        assert x != m ==> x.ver != m.ver;
        m
      else
        assert forall k :: k in s && k != x ==> VerLt(k.ver, x.ver) by {
          forall k | k in s && k != x ensures VerLt(k.ver, x.ver) {
            if k != m { VerLeTransitive(k.ver, m.ver, x.ver); }
          }
        }
        x
  }

  /** `find_installed_for_minor`: the installed patches of the minor and variant, newest
      first, joined with ", "; "-" when there are none. */
  function FindInstalledForMinor(installed: set<Key>, minor: nat, freethreaded: bool): (r: string)
    ensures MatchesOf(installed, minor, freethreaded) == {} ==> r == "-"
    ensures MatchesOf(installed, minor, freethreaded) != {} ==>
              exists ks :: (forall k :: k in ks <==> k in MatchesOf(installed, minor, freethreaded)) && StrictlyDescending(ks)
                           && r == Join(Map(ks, KeyString), ", ")
  {
    var matches := MatchesOf(installed, minor, freethreaded);
    if matches == {} then "-"
    else
      var ks := SortDescending(matches, freethreaded);
      Join(Map(ks, KeyString), ", ")
  }

  // ---------------------------------------------------------------------------
  // main

  /** A uv command and whether it is run or, under `--dry-run`, only printed. */
  datatype Action = RunCmd(cmd: seq<string>) | PrintCmd(cmd: seq<string>)

  datatype Status = NotFound | AlreadyInstalled | Installed | WouldInstall

  /** A row of the summary table. */
  datatype Row = Row(version: Label, latest: Option<Key>, status: Status, installedForMinor: string)

  function InstallCmd(k: Key): seq<string> {
    ["uv", "python", "install", KeyString(k)]
  }

  function UpgradeCmd(k: Key): seq<string> {
    ["uv", "tool", "upgrade", "--all", "-p", KeyString(k)]
  }

  function UninstallCmd(k: Key): seq<string> {
    ["uv", "python", "uninstall", KeyString(k)]
  }

  function Act(cmd: seq<string>, dryRun: bool): Action {
    if dryRun then PrintCmd(cmd) else RunCmd(cmd)
  }

  function LatestFor(available: seq<UvEntry>, l: Label): Option<Key> {
    FindLatestVersion(available, l.minor, l.freethreaded)
  }

  /** The summary row of one label. */
  function RowOf(available: seq<UvEntry>, installed: set<Key>, dryRun: bool, l: Label): Row {
    var latest := LatestFor(available, l);
    var status := if latest.None? then NotFound
                  else if latest.value in installed then AlreadyInstalled
                  else if dryRun then WouldInstall else Installed;
    Row(l, latest, status, FindInstalledForMinor(installed, l.minor, l.freethreaded))
  }

  function RowFor(available: seq<UvEntry>, installed: set<Key>, dryRun: bool): Label -> Row {
    (l: Label) => RowOf(available, installed, dryRun, l)
  }

  /** The commands of one label: an install when its latest key is not installed, then
      the tool upgrade when that label is `TOOL_VERSION`. */
  function ActionsOf(available: seq<UvEntry>, installed: set<Key>, dryRun: bool, l: Label): seq<Action> {
    match LatestFor(available, l)
    case None => []
    case Some(k) =>
      if k in installed then []
      else [Act(InstallCmd(k), dryRun)] + (if l == ToolLabel then [Act(UpgradeCmd(k), dryRun)] else [])
  }

  function ActionsFor(available: seq<UvEntry>, installed: set<Key>, dryRun: bool): Label -> seq<Action> {
    (l: Label) => ActionsOf(available, installed, dryRun, l)
  }

  /** The latest keys found, those the script keeps. */
  function Chosen(available: seq<UvEntry>, labels: seq<Label>): set<Key> {
    set l | l in labels && LatestFor(available, l).Some? :: LatestFor(available, l).value
  }

  /** One pass of the version loop of `main`: the row, the commands and the key kept. */
  method CheckVersion(available: seq<UvEntry>, installed: set<Key>, dryRun: bool, l: Label)
    returns (row: Row, acts: seq<Action>, latest: Option<Key>)
    ensures row == RowOf(available, installed, dryRun, l)
    ensures acts == ActionsOf(available, installed, dryRun, l)
    ensures latest == LatestFor(available, l)
  {
    latest := FindLatestVersion(available, l.minor, l.freethreaded);
    var forMinor := FindInstalledForMinor(installed, l.minor, l.freethreaded);
    acts := [];
    if latest.None? {
      row := Row(l, None, NotFound, forMinor);
      return;
    }
    var k := latest.value;
    var status;
    var alreadyInstalled := k in installed;
    if alreadyInstalled {
      status := AlreadyInstalled;
    } else {
      acts := acts + [Act(InstallCmd(k), dryRun)];
      status := if dryRun then WouldInstall else Installed;
    }
    row := Row(l, latest, status, forMinor);
    if l == ToolLabel && !alreadyInstalled {
      acts := acts + [Act(UpgradeCmd(k), dryRun)];
    }
  }

  /** The version loop of `main`, over `labels`; `main` passes `VERSIONS`, that is
      `Versions()`. `installed` is the cached result of `installed_version`, the same
      before and after the loop. */
  method CheckVersions(available: seq<UvEntry>, installed: set<Key>, dryRun: bool, labels: seq<Label>)
    returns (results: seq<Row>, actions: seq<Action>, chosen: set<Key>)
    ensures results == Map(labels, RowFor(available, installed, dryRun))
    ensures actions == FlatMap(labels, ActionsFor(available, installed, dryRun))
    ensures chosen == Chosen(available, labels)
  {
    results, actions, chosen := [], [], {};
    var i := 0;
    while i < |labels|
      invariant 0 <= i <= |labels|
      invariant results == Map(labels[..i], RowFor(available, installed, dryRun))
      invariant actions == FlatMap(labels[..i], ActionsFor(available, installed, dryRun))
      invariant chosen == Chosen(available, labels[..i])
    {
      MapStep(labels, i, RowFor(available, installed, dryRun));
      FlatMapStep(labels, i, ActionsFor(available, installed, dryRun));
      ChosenStep(available, labels, i);
      var row, acts, latest := CheckVersion(available, installed, dryRun, labels[i]);
      results := results + [row];
      actions := actions + acts;
      if latest.Some? {
        chosen := chosen + {latest.value};
      }
      i := i + 1;
    }
    assert labels[..i] == labels;
  }

  lemma ChosenStep(available: seq<UvEntry>, labels: seq<Label>, i: int)
    requires 0 <= i < |labels|
    ensures Chosen(available, labels[..i + 1]) == Chosen(available, labels[..i])
              + if LatestFor(available, labels[i]).Some? then {LatestFor(available, labels[i]).value} else {}
  {
    assert labels[..i + 1] == labels[..i] + [labels[i]];
  }

  /** An install is issued only for a latest key that is not installed yet, and under
      `--dry-run` it is printed, not run. */
  lemma InstallOnlyWhenMissing(available: seq<UvEntry>, installed: set<Key>, dryRun: bool, labels: seq<Label>, a: Action)
    requires a in FlatMap(labels, ActionsFor(available, installed, dryRun))
    ensures dryRun ==> a.PrintCmd?
    ensures !dryRun ==> a.RunCmd?
    ensures exists l :: l in labels && LatestFor(available, l).Some? && LatestFor(available, l).value !in installed
                        && (a.cmd == InstallCmd(LatestFor(available, l).value)
                            || (l == ToolLabel && a.cmd == UpgradeCmd(LatestFor(available, l).value)))
  {
    FlatMapMember(labels, ActionsFor(available, installed, dryRun), a);
    var l :| l in labels && a in ActionsFor(available, installed, dryRun)(l);
    ActionOfLabel(available, installed, dryRun, l, a);
  }

  /** What one label's commands are. */
  lemma ActionOfLabel(available: seq<UvEntry>, installed: set<Key>, dryRun: bool, l: Label, a: Action)
    requires a in ActionsOf(available, installed, dryRun, l)
    ensures a == Act(a.cmd, dryRun)
    ensures LatestFor(available, l).Some? && LatestFor(available, l).value !in installed
    ensures a.cmd == InstallCmd(LatestFor(available, l).value)
            || (l == ToolLabel && a.cmd == UpgradeCmd(LatestFor(available, l).value))
  {
  }

  /** Tools are upgraded only with the 3.14 label, and only right after installing it. */
  lemma UpgradeOnlyForTool(available: seq<UvEntry>, installed: set<Key>, dryRun: bool, l: Label)
    ensures forall a :: a in ActionsFor(available, installed, dryRun)(l) && a.cmd[1] == "tool" ==>
              l == ToolLabel && LatestFor(available, l).Some? && LatestFor(available, l).value !in installed
  {
  }

  /** As written: the uninstall loop runs `uv python uninstall` through `run_uv_command`
      with no `--dry-run` test. */
  function UninstallActions(installed: set<Key>, chosen: set<Key>): (r: set<Action>)
    ensures forall a :: a in r ==> a.RunCmd?
    ensures forall k :: k in installed - chosen ==> RunCmd(UninstallCmd(k)) in r
  {
    set k | k in installed - chosen :: RunCmd(UninstallCmd(k))
  }

  /** The versions that are uninstalled are exactly the installed ones that no label
      chose as its latest. */
  lemma UninstallIsDifference(installed: set<Key>, chosen: set<Key>, k: Key)
    ensures RunCmd(UninstallCmd(k)) in UninstallActions(installed, chosen) <==> k in installed && k !in chosen
  {
    if RunCmd(UninstallCmd(k)) in UninstallActions(installed, chosen) {
      var k2 :| k2 in installed - chosen && RunCmd(UninstallCmd(k2)) == RunCmd(UninstallCmd(k));
      assert UninstallCmd(k2)[3] == UninstallCmd(k)[3];
      KeyStringInjective(k2, k);
    }
  }

  /** As written: a dry run with an installed version no label chose still uninstalls
      it. */
  lemma DryRunStillUninstalls(installed: set<Key>, chosen: set<Key>, k: Key)
    requires k in installed && k !in chosen
    ensures exists a :: a in UninstallActions(installed, chosen) && a.RunCmd? && a.cmd[2] == "uninstall"
  {
    assert RunCmd(UninstallCmd(k)) in UninstallActions(installed, chosen);
  }

  /** Corrected: the uninstall loop honours `--dry-run` like the install step. */
  function UninstallActionsFixed(installed: set<Key>, chosen: set<Key>, dryRun: bool): (r: set<Action>)
    ensures dryRun ==> forall a :: a in r ==> a.PrintCmd?
    ensures forall k :: k in installed - chosen ==> Act(UninstallCmd(k), dryRun) in r
  {
    set k | k in installed - chosen :: Act(UninstallCmd(k), dryRun)
  }

  /** Corrected: a dry run runs no command at all. */
  lemma DryRunRunsNothing(available: seq<UvEntry>, installed: set<Key>, labels: seq<Label>, a: Action)
    requires a in FlatMap(labels, ActionsFor(available, installed, true))
             || a in UninstallActionsFixed(installed, Chosen(available, labels), true)
    ensures a.PrintCmd?
  {
    if a in FlatMap(labels, ActionsFor(available, installed, true)) {
      InstallOnlyWhenMissing(available, installed, true, labels, a);
    }
  }
}
