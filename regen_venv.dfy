/** The venv regenerator: the dependencies named in the inline script metadata
    blocks (PEP 723, "Inline script metadata") of the scripts, the dependency groups
    of `pyproject.toml`, and their union. File contents are inputs: a script is its
    lines, a `pyproject.toml` its already-parsed `dependency-groups` table. */
module RegenVenv {
  import opened Text
  import opened Lists

  // ---------------------------------------------------------------------------
  // The fixed line patterns, matched at the start of a line (`re.match`)

  /** `\s*`: what follows the leading run of whitespace. */
  function SkipSpaces(s: string): string
    decreases |s|
  {
    if s != [] && IsSpace(s[0]) then SkipSpaces(s[1..]) else s
  }

  /** The run skipped is all whitespace and is the longest one. */
  lemma {:induction false} SkipSpacesMeaning(s: string)
    ensures var r := SkipSpaces(s);
            |r| <= |s| && r == s[|s| - |r|..] && (r == [] || !IsSpace(r[0]))
            && forall i :: 0 <= i < |s| - |r| ==> IsSpace(s[i])
    decreases |s|
  {
    if s != [] && IsSpace(s[0]) {
      SkipSpacesMeaning(s[1..]);
      var r := SkipSpaces(s[1..]);
      assert s[1..][|s| - 1 - |r|..] == s[|s| - |r|..];
      forall i | 0 <= i < |s| - |r| ensures IsSpace(s[i]) {
        if i > 0 {
          assert s[i] == s[1..][i - 1];
        }
      }
    }
  }

  /** A pattern `c0\s*c1\s*...`: literal chunks, each starting with a non-space, with
      optional whitespace between them. Every `\s*` of the three patterns is followed by
      such a chunk, so the greedy run is the only one that can match. */
  predicate MatchesChunks(s: string, chunks: seq<string>)
    decreases |chunks|
  {
    chunks == [] || (StartsWith(s, chunks[0]) && MatchesChunks(SkipSpaces(s[|chunks[0]|..]), chunks[1..]))
  }

  /** `#\s*///\s*script` */
  const ScriptPattern: seq<string> := ["#", "///", "script"]
  /** `#\s*///` */
  const ClosePattern: seq<string> := ["#", "///"]
  /** `#\s*dependencies\s*=\s*\[` */
  const DepsPattern: seq<string> := ["#", "dependencies", "=", "["]

  predicate OpensScript(line: string) {
    MatchesChunks(line, ScriptPattern)
  }

  predicate ClosesBlock(line: string) {
    MatchesChunks(line, ClosePattern)
  }

  predicate OpensDeps(line: string) {
    MatchesChunks(line, DepsPattern)
  }

  /** A line that opens a block also matches the closing pattern, which is why the
      opening test is the one consulted first. */
  lemma OpeningAlsoCloses(line: string)
    requires OpensScript(line)
    ensures ClosesBlock(line)
  {
    var r := SkipSpaces(line[1..]);
    assert ScriptPattern[1..] == ["///", "script"] && ClosePattern[1..] == ["///"];
    assert MatchesChunks(r, ["///", "script"]);
    assert ["///", "script"][1..] == ["script"];
    assert MatchesChunks(r, ["///"]) by {
      assert ["///"][1..] == [];
    }
  }

  lemma {:induction false} SkipSpacesAfter(sp: string, rest: string)
    requires forall i :: 0 <= i < |sp| ==> IsSpace(sp[i])
    requires rest == [] || !IsSpace(rest[0])
    ensures SkipSpaces(sp + rest) == rest
    decreases |sp|
  {
    if sp != [] {
      assert (sp + rest)[1..] == sp[1..] + rest;
      SkipSpacesAfter(sp[1..], rest);
    } else {
      assert sp + rest == rest;
    }
  }

  /** Matching the first chunk, then whitespace. */
  lemma ChunkStep(c: string, sp: string, rest: string, more: seq<string>)
    requires forall i :: 0 <= i < |sp| ==> IsSpace(sp[i])
    requires rest == [] || !IsSpace(rest[0])
    ensures MatchesChunks(c + (sp + rest), [c] + more) == MatchesChunks(rest, more)
  {
    var s := c + (sp + rest);
    assert s[..|c|] == c;
    assert s[|c|..] == sp + rest;
    SkipSpacesAfter(sp, rest);
    assert ([c] + more)[1..] == more;
  }

  /** A line whose first character differs from the first chunk's does not match. */
  lemma ChunkMismatch(s: string, c: string, more: seq<string>)
    requires c != [] && (s == [] || s[0] != c[0])
    ensures !MatchesChunks(s, [c] + more)
  {
  }

  // ---------------------------------------------------------------------------
  // re.search(r'"([^"]+)"', line)

  /** The length of the longest prefix without a double quote. */
  function NonQuoteRun(s: string): (n: nat)
    ensures n <= |s| && (forall i :: 0 <= i < n ==> s[i] != '"') && (n < |s| ==> s[n] == '"')
  {
    if s == [] || s[0] == '"' then 0 else 1 + NonQuoteRun(s[1..])
  }

  /** The leftmost match of `"([^"]+)"`: the quoted word and what follows the closing
      quote. A `""` is skipped: the search resumes at its second quote. */
  function Quoted(s: string): (r: Option<(string, string)>)
    ensures r.Some? ==> r.value.0 != [] && (forall i :: 0 <= i < |r.value.0| ==> r.value.0[i] != '"')
    ensures r.Some? ==> |r.value.1| < |s|
    decreases |s|
  {
    if s == [] then None
    else if s[0] != '"' then Quoted(s[1..])
    else
      var t := s[1..];
      var n := NonQuoteRun(t);
      if n == |t| then None
      else if n == 0 then Quoted(t)
      else Some((t[..n], t[n + 1..]))
  }

  /** A match is a quoted word: text, a quote, the word, a quote, the rest. */
  lemma {:induction false} QuotedShape(s: string)
    requires Quoted(s).Some?
    ensures exists a :: s == a + ['"'] + Quoted(s).value.0 + ['"'] + Quoted(s).value.1
    decreases |s|
  {
    var q, b := Quoted(s).value.0, Quoted(s).value.1;
    var t := s[1..];
    if s[0] != '"' || NonQuoteRun(t) == 0 {
      assert Quoted(t) == Quoted(s);
      QuotedShape(t);
      var a :| t == a + ['"'] + q + ['"'] + b;
      PrependShape(s, a, q, b);
    } else {
      var n := NonQuoteRun(t);
      assert q == t[..n] && b == t[n + 1..];
      assert s == [] + ['"'] + q + ['"'] + b;
    }
  }

  lemma PrependShape(s: string, a: string, q: string, b: string)
    requires s != [] && s[1..] == a + ['"'] + q + ['"'] + b
    ensures s == ([s[0]] + a) + ['"'] + q + ['"'] + b
  {
    assert s == [s[0]] + s[1..];
  }

  /** The search finds the quoted word that follows quote-free text. */
  lemma {:induction false} QuotedOf(a: string, q: string, b: string)
    requires (forall i :: 0 <= i < |a| ==> a[i] != '"') && q != [] && forall i :: 0 <= i < |q| ==> q[i] != '"'
    ensures Quoted(a + ['"'] + q + ['"'] + b) == Some((q, b))
    decreases |a|
  {
    var s := a + ['"'] + q + ['"'] + b;
    if a != [] {
      assert s[1..] == a[1..] + ['"'] + q + ['"'] + b;
      QuotedOf(a[1..], q, b);
    } else {
      var t := s[1..];
      assert t == q + (['"'] + b);
      NonQuoteRunOf(q, ['"'] + b);
      assert t[..|q|] == q && t[|q| + 1..] == b;
    }
  }

  lemma {:induction false} NonQuoteRunOf(q: string, rest: string)
    requires (forall i :: 0 <= i < |q| ==> q[i] != '"') && rest != [] && rest[0] == '"'
    ensures NonQuoteRun(q + rest) == |q|
    decreases |q|
  {
    if q != [] {
      assert (q + rest)[1..] == q[1..] + rest;
      NonQuoteRunOf(q[1..], rest);
    } else {
      assert q + rest == rest;
    }
  }

  /** `match.group(1)` of the search, if it matched. */
  function FirstQuoted(s: string): Option<string> {
    match Quoted(s)
    case None => None
    case Some((q, _)) => Some(q)
  }

  /** `re.findall` of the same pattern: every quoted word, left to right. */
  function AllQuoted(s: string): seq<string>
    decreases |s|
  {
    match Quoted(s)
    case None => []
    case Some((q, rest)) => [q] + AllQuoted(rest)
  }

  // ---------------------------------------------------------------------------
  // extract_pep723_deps

  /** The two flags of the line scanner and the dependencies found so far. */
  datatype ScanState = ScanState(inBlock: bool, inDeps: bool, deps: seq<string>)

  const Start := ScanState(false, false, [])

  /** One line of the scanner: the first branch that applies decides. */
  function Step(st: ScanState, line: string): (r: ScanState)
    ensures OpensScript(line) ==> r.inBlock && r.inDeps == st.inDeps && r.deps == st.deps
    ensures r.deps != st.deps ==> st.inDeps && r.inDeps && r.inBlock == st.inBlock
    ensures r.inBlock == st.inBlock || r.inDeps == st.inDeps
  {
    if OpensScript(line) then st.(inBlock := true)
    else if st.inBlock && ClosesBlock(line) then st.(inBlock := false)
    else if st.inBlock && OpensDeps(line) then st.(inDeps := true)
    else if st.inDeps && ']' in line then st.(inDeps := false)
    else if st.inDeps && FirstQuoted(line).Some? then st.(deps := st.deps + [FirstQuoted(line).value])
    else st
  }

  /** The scanner after the given lines. */
  function Scan(lines: seq<string>): (r: ScanState)
    ensures |r.deps| <= |lines|
  {
    if lines == [] then Start
    else
      var prev := Scan(lines[..|lines| - 1]);
      StepAddsAtMostOne(prev, lines[|lines| - 1]);
      Step(prev, lines[|lines| - 1])
  }

  /** Every dependency found is the first quoted run of one of the lines. */
  lemma {:induction false} ScanProvenance(lines: seq<string>)
    ensures forall d :: d in Scan(lines).deps ==> exists i :: 0 <= i < |lines| && FirstQuoted(lines[i]) == Some(d)
  {
    if lines != [] {
      var init := lines[..|lines| - 1];
      ScanProvenance(init);
      StepAddsAtMostOne(Scan(init), lines[|lines| - 1]);
      assert forall i :: 0 <= i < |init| ==> init[i] == lines[i];
    }
  }

  /** `extract_pep723_deps` over the lines of a script. */
  method ExtractPep723Deps(lines: seq<string>) returns (deps: seq<string>)
    ensures deps == Scan(lines).deps
  {
    deps := [];
    var inBlock, inDeps := false, false;
    var i := 0;
    while i < |lines|
      invariant 0 <= i <= |lines|
      invariant ScanState(inBlock, inDeps, deps) == Scan(lines[..i])
    {
      var line := lines[i];
      assert lines[..i + 1][..i] == lines[..i];
      if OpensScript(line) {
        inBlock := true;
      } else if inBlock && ClosesBlock(line) {
        inBlock := false;
      } else if inBlock && OpensDeps(line) {
        inDeps := true;
      } else if inDeps && ']' in line {
        inDeps := false;
      } else if inDeps {
        var found := FirstQuoted(line);
        if found.Some? {
          deps := deps + [found.value];
        }
      }
      i := i + 1;
    }
    assert lines[..i] == lines;
  }

  /** An opening line always enters the block, whatever the state, and changes
      nothing else. */
  lemma OpeningEntersBlock(st: ScanState, line: string)
    requires OpensScript(line)
    ensures Step(st, line) == st.(inBlock := true)
  {
  }

  /** Inside a block, a closing line leaves the block and nothing else: `inDeps` is
      kept. */
  lemma ClosingKeepsDepsFlag(st: ScanState, line: string)
    requires st.inBlock && ClosesBlock(line) && !OpensScript(line)
    ensures Step(st, line) == st.(inBlock := false)
  {
  }

  /** The `dependencies = [` line enters the list and contributes nothing itself. */
  lemma DepsLineContributesNothing(st: ScanState, line: string)
    requires st.inBlock && OpensDeps(line)
    ensures Step(st, line) == st.(inDeps := true)
  {
    DepsLineNeitherOpensNorCloses(line);
  }

  /** After `#` and the spaces, a `dependencies` line has `d` where the opening and
      closing patterns need `/`. */
  lemma DepsLineNeitherOpensNorCloses(line: string)
    requires OpensDeps(line)
    ensures !OpensScript(line) && !ClosesBlock(line)
  {
    var t := SkipSpaces(line[1..]);
    assert DepsPattern == ["#"] + ["dependencies", "=", "["];
    assert StartsWith(t, "dependencies");
    ChunkMismatch(t, "///", []);
    ChunkMismatch(t, "///", ["script"]);
    assert ClosePattern == ["#"] + (["///"] + []);
    assert ScriptPattern == ["#"] + (["///"] + ["script"]);
  }

  /** Inside the list, a line holding `]` ends it and contributes nothing, quoted text
      or not. */
  lemma BracketEndsList(st: ScanState, line: string)
    requires st.inDeps && ']' in line
    requires !OpensScript(line) && !(st.inBlock && (ClosesBlock(line) || OpensDeps(line)))
    ensures Step(st, line) == st.(inDeps := false)
  {
  }

  /** A line adds at most one dependency, after the ones found before: the first quoted
      word of a line inside the list that has no `]`. */
  lemma StepAddsAtMostOne(st: ScanState, line: string)
    ensures var next := Step(st, line);
            |next.deps| <= |st.deps| + 1 && next.deps[..|st.deps|] == st.deps
    ensures var next := Step(st, line);
            |next.deps| == |st.deps| + 1 ==>
              st.inDeps && ']' !in line && FirstQuoted(line) == Some(next.deps[|st.deps|])
  {
  }

  /** Dependencies are kept in file order: those of earlier lines come first. */
  lemma {:induction false} ScanExtends(lines: seq<string>, k: nat)
    requires k <= |lines|
    ensures IsPrefix(Scan(lines[..k]).deps, Scan(lines).deps)
    decreases |lines| - k
  {
    if k < |lines| {
      ScanExtends(lines, k + 1);
      var prev, next := Scan(lines[..k]), Scan(lines[..k + 1]);
      assert lines[..k + 1][..k] == lines[..k];
      StepAddsAtMostOne(prev, lines[k]);
    } else {
      assert lines[..k] == lines;
    }
  }

  predicate IsPrefix(a: seq<string>, b: seq<string>) {
    |a| <= |b| && b[..|a|] == a
  }

  // ---------------------------------------------------------------------------
  // A one-line dependency list

  /** A pattern matched to its end. */
  lemma ChunkLast(c: string)
    ensures MatchesChunks(c, [c])
  {
    ChunkStep(c, "", "", []);
    assert c + ("" + "") == c && [c] + [] == [c];
  }

  /** `# /// script` */
  const OpenLine: string := "#" + (" " + ("///" + (" " + "script")))
  /** `# ///` */
  const CloseLine: string := "#" + (" " + "///")

  lemma OpenLineOpens()
    ensures OpensScript(OpenLine)
  {
    assert ScriptPattern == ["#"] + ["///", "script"] && ["///", "script"] == ["///"] + ["script"];
    ChunkStep("#", " ", "///" + (" " + "script"), ["///", "script"]);
    ChunkStep("///", " ", "script", ["script"]);
    ChunkLast("script");
  }

  lemma CloseLineCloses()
    ensures ClosesBlock(CloseLine) && !OpensScript(CloseLine) && !OpensDeps(CloseLine)
  {
    assert ClosePattern == ["#"] + ["///"];
    assert ScriptPattern == ["#"] + ["///", "script"] && ["///", "script"] == ["///"] + ["script"];
    assert DepsPattern == ["#"] + ["dependencies", "=", "["] && ["dependencies", "=", "["] == ["dependencies"] + ["=", "["];
    ChunkStep("#", " ", "///", ["///"]);
    ChunkLast("///");
    ChunkStep("#", " ", "///", ["///", "script"]);
    ChunkStep("///", "", "", ["script"]);
    assert "///" + ("" + "") == "///";
    ChunkStep("#", " ", "///", ["dependencies", "=", "["]);
    ChunkMismatch("///", "dependencies", ["=", "["]);
  }

  /** `"<dep>"]`, the end of a one-line list. */
  function ListTail(dep: string): string {
    ['"'] + dep + ['"'] + "]"
  }

  /** `# dependencies = ["<dep>"]`, a list written on one line. */
  function OneLineDeps(dep: string): string {
    "#" + (" " + ("dependencies" + (" " + ("=" + (" " + ("[" + ListTail(dep)))))))
  }

  /** Four chunks separated by single spaces, then text that starts with a non-space. */
  lemma FourChunks(c0: string, c1: string, c2: string, c3: string, tail: string)
    requires c1 != [] && !IsSpace(c1[0]) && c2 != [] && !IsSpace(c2[0]) && c3 != [] && !IsSpace(c3[0])
    requires tail == [] || !IsSpace(tail[0])
    ensures MatchesChunks(c0 + (" " + (c1 + (" " + (c2 + (" " + (c3 + tail)))))), [c0, c1, c2, c3])
  {
    var r3 := c3 + tail;
    var r2 := c2 + (" " + r3);
    var r1 := c1 + (" " + r2);
    calc {
      MatchesChunks(c0 + (" " + r1), [c0, c1, c2, c3]);
      { assert [c0, c1, c2, c3] == [c0] + [c1, c2, c3]; ChunkStep(c0, " ", r1, [c1, c2, c3]); }
      MatchesChunks(r1, [c1, c2, c3]);
      { assert [c1, c2, c3] == [c1] + [c2, c3]; ChunkStep(c1, " ", r2, [c2, c3]); }
      MatchesChunks(r2, [c2, c3]);
      { assert [c2, c3] == [c2] + [c3]; ChunkStep(c2, " ", r3, [c3]); }
      MatchesChunks(r3, [c3]);
      { assert [c3] == [c3] + [] && c3 + ("" + tail) == r3; ChunkStep(c3, "", tail, []); }
      MatchesChunks(tail, []);
    }
  }

  lemma OneLineDepsOpens(dep: string)
    ensures OpensDeps(OneLineDeps(dep))
  {
    FourChunks("#", "dependencies", "=", "[", ListTail(dep));
  }

  lemma OneLineDepsNotMarker(dep: string)
    ensures !OpensScript(OneLineDeps(dep)) && !ClosesBlock(OneLineDeps(dep))
  {
    var r1 := "dependencies" + (" " + ("=" + (" " + ("[" + ListTail(dep)))));
    assert ScriptPattern == ["#"] + ["///", "script"] && ClosePattern == ["#"] + ["///"];
    ChunkStep("#", " ", r1, ["///", "script"]);
    ChunkStep("#", " ", r1, ["///"]);
    assert ["///", "script"] == ["///"] + ["script"] && ["///"] == ["///"] + [];
    ChunkMismatch(r1, "///", ["script"]);
    ChunkMismatch(r1, "///", []);
  }

  lemma OneLineDepsQuoted(dep: string)
    requires dep != [] && forall i :: 0 <= i < |dep| ==> dep[i] != '"'
    ensures ']' in OneLineDeps(dep)
    ensures Quoted(OneLineDeps(dep)) == Some((dep, "]"))
    ensures AllQuoted(OneLineDeps(dep)) == [dep]
  {
    var line := OneLineDeps(dep);
    var a := "#" + (" " + ("dependencies" + (" " + ("=" + (" " + "[")))));
    assert line == a + ['"'] + dep + ['"'] + "]";
    assert line[|line| - 1] == ']';
    QuotedOf(a, dep, "]");
    assert Quoted("]") == None by { assert "]"[1..] == []; }
  }

  /** A line of code after the block that holds a quoted word. */
  function CodeLine(word: string): string {
    "x = " + ['"'] + word + ['"']
  }

  lemma CodeLineFacts(word: string)
    requires word != [] && (forall i :: 0 <= i < |word| ==> word[i] != '"') && ']' !in word
    ensures !OpensScript(CodeLine(word)) && ']' !in CodeLine(word)
    ensures FirstQuoted(CodeLine(word)) == Some(word)
  {
    var line := CodeLine(word);
    assert line == "x = " + ['"'] + word + ['"'] + [];
    QuotedOf("x = ", word, []);
    assert ScriptPattern == ["#"] + ["///", "script"];
    ChunkMismatch(line, "#", ["///", "script"]);
  }

  lemma ScanSnoc(lines: seq<string>, line: string)
    ensures Scan(lines + [line]) == Step(Scan(lines), line)
  {
    assert (lines + [line])[..|lines|] == lines;
  }

  /** As written, a list that opens and closes on one line leaves `inDeps` set, and it
      survives the end of the block: the first quoted word of a later line outside any
      block is taken as a dependency. */
  lemma ListLeaksPastBlock(open: string, list: string, close: string, code: string, word: string)
    requires OpensScript(open)
    requires OpensDeps(list) && !OpensScript(list) && !ClosesBlock(list)
    requires ClosesBlock(close) && !OpensScript(close)
    requires !OpensScript(code) && ']' !in code && FirstQuoted(code) == Some(word)
    ensures Scan([open, list, close, code]).deps == [word]
  {
    ScanSnoc([], open);
    ScanSnoc([open], list);
    ScanSnoc([open, list], close);
    ScanSnoc([open, list, close], code);
    assert [] + [open] == [open] && [open] + [list] == [open, list];
    assert [open, list] + [close] == [open, list, close];
    assert [open, list, close] + [code] == [open, list, close, code];
  }

  /** The same on the concrete lines `# /// script`, `# dependencies = ["<dep>"]`,
      `# ///` and `x = "<word>"`: the dependency is lost and the word is taken. */
  lemma OneLineListMisread(dep: string, word: string)
    requires word != [] && (forall i :: 0 <= i < |word| ==> word[i] != '"') && ']' !in word
    ensures Scan([OpenLine, OneLineDeps(dep), CloseLine, CodeLine(word)]).deps == [word]
  {
    OpenLineOpens();
    OneLineDepsOpens(dep);
    OneLineDepsNotMarker(dep);
    CloseLineCloses();
    CodeLineFacts(word);
    ListLeaksPastBlock(OpenLine, OneLineDeps(dep), CloseLine, CodeLine(word), word);
  }

  /** The scanner as evidently intended: a list that closes on its own line
      contributes every quoted word on it, and leaving the block leaves the list. */
  function StepFixed(st: ScanState, line: string): ScanState {
    if OpensScript(line) then st.(inBlock := true)
    else if st.inBlock && ClosesBlock(line) then st.(inBlock := false, inDeps := false)
    else if st.inBlock && OpensDeps(line) then
      if ']' in line then st.(deps := st.deps + AllQuoted(line)) else st.(inDeps := true)
    else if st.inDeps && ']' in line then st.(inDeps := false)
    else if st.inDeps && FirstQuoted(line).Some? then st.(deps := st.deps + [FirstQuoted(line).value])
    else st
  }

  function ScanFixed(lines: seq<string>): ScanState {
    if lines == [] then Start else StepFixed(ScanFixed(lines[..|lines| - 1]), lines[|lines| - 1])
  }

  /** With the fix, the list is only ever open inside a block. */
  lemma {:induction false} FixedListInsideBlock(lines: seq<string>)
    ensures ScanFixed(lines).inDeps ==> ScanFixed(lines).inBlock
  {
    if lines != [] {
      FixedListInsideBlock(lines[..|lines| - 1]);
    }
  }

  /** With the fix, a line outside every block contributes nothing. */
  lemma FixedOutsideContributesNothing(lines: seq<string>, line: string)
    requires !ScanFixed(lines).inBlock && !OpensScript(line)
    ensures StepFixed(ScanFixed(lines), line) == ScanFixed(lines)
  {
    FixedListInsideBlock(lines);
  }

  lemma ScanFixedSnoc(lines: seq<string>, line: string)
    ensures ScanFixed(lines + [line]) == StepFixed(ScanFixed(lines), line)
  {
    assert (lines + [line])[..|lines|] == lines;
  }

  /** With the fix, a list that opens and closes on one line yields its quoted words,
      and nothing after the block is taken. */
  lemma OneLineListKept(open: string, list: string, close: string, code: string)
    requires OpensScript(open)
    requires OpensDeps(list) && !OpensScript(list) && !ClosesBlock(list) && ']' in list
    requires ClosesBlock(close) && !OpensScript(close)
    requires !OpensScript(code)
    ensures ScanFixed([open, list, close, code]).deps == AllQuoted(list)
  {
    ScanFixedSnoc([], open);
    ScanFixedSnoc([open], list);
    ScanFixedSnoc([open, list], close);
    ScanFixedSnoc([open, list, close], code);
    assert [] + [open] == [open] && [open] + [list] == [open, list];
    assert [open, list] + [close] == [open, list, close];
    assert [open, list, close] + [code] == [open, list, close, code];
  }

  /** With the fix, the concrete one-line list yields its dependency and nothing else. */
  lemma OneLineListFixed(dep: string, word: string)
    requires dep != [] && forall i :: 0 <= i < |dep| ==> dep[i] != '"'
    requires word != [] && (forall i :: 0 <= i < |word| ==> word[i] != '"') && ']' !in word
    ensures ScanFixed([OpenLine, OneLineDeps(dep), CloseLine, CodeLine(word)]).deps == [dep]
  {
    OpenLineOpens();
    OneLineDepsOpens(dep);
    OneLineDepsNotMarker(dep);
    OneLineDepsQuoted(dep);
    CloseLineCloses();
    CodeLineFacts(word);
    OneLineListKept(OpenLine, OneLineDeps(dep), CloseLine, CodeLine(word));
  }

  // ---------------------------------------------------------------------------
  // extract_pyproject_deps and main

  /** A dependency group of `pyproject.toml`: its name and its requirement strings. */
  datatype Group = Group(name: string, requirements: seq<string>)

  function RequirementsOf(g: Group): seq<string> {
    g.requirements
  }

  /** `extract_pyproject_deps`: every group's requirements in order, or none when the
      file has no `dependency-groups` table. */
  method ExtractPyprojectDeps(groups: Option<seq<Group>>) returns (deps: seq<string>)
    ensures groups.None? ==> deps == []
    ensures groups.Some? ==> deps == FlatMap(groups.value, RequirementsOf)
  {
    deps := [];
    if groups.None? {
      return;
    }
    var gs := groups.value;
    var i := 0;
    while i < |gs|
      invariant 0 <= i <= |gs|
      invariant deps == FlatMap(gs[..i], RequirementsOf)
    {
      FlatMapStep(gs, i, RequirementsOf);
      deps := deps + gs[i].requirements;
      i := i + 1;
    }
    assert gs[..i] == gs;
  }

  /** A requirement comes out of the groups exactly when some group lists it. */
  lemma PyprojectDepsMember(groups: seq<Group>, d: string)
    ensures d in FlatMap(groups, RequirementsOf) <==> exists g :: g in groups && d in g.requirements
  {
    FlatMapMember(groups, RequirementsOf, d);
  }

  /** The dependency set of `main`: the inline dependencies of every script (each given
      as its lines) and, when there is a `pyproject.toml`, its groups' requirements. */
  method CollectDependencies(scripts: seq<seq<string>>, pyproject: Option<Option<seq<Group>>>) returns (deps: set<string>)
    ensures forall d :: d in deps <==>
              (exists i :: 0 <= i < |scripts| && d in Scan(scripts[i]).deps)
              || (pyproject.Some? && pyproject.value.Some? && exists g :: g in pyproject.value.value && d in g.requirements)
  {
    deps := {};
    var i := 0;
    while i < |scripts|
      invariant 0 <= i <= |scripts|
      invariant forall d :: d in deps <==> exists j :: 0 <= j < i && d in Scan(scripts[j]).deps
    {
      var found := ExtractPep723Deps(scripts[i]);
      deps := deps + set d | d in found;
      i := i + 1;
    }
    if pyproject.Some? {
      var extra := ExtractPyprojectDeps(pyproject.value);
      if pyproject.value.Some? {
        forall d ensures d in extra <==> exists g :: g in pyproject.value.value && d in g.requirements {
          PyprojectDepsMember(pyproject.value.value, d);
        }
      }
      deps := deps + set d | d in extra;
    }
  }

  /** What `main` does with the set: nothing when it is empty, else a fresh venv and
      one install of every dependency. */
  datatype Plan = NoDependencies | Install(deps: set<string>)

  function PlanFor(deps: set<string>): (p: Plan)
    ensures p == NoDependencies <==> deps == {}
    ensures p.Install? ==> p.deps == deps
  {
    if deps == {} then NoDependencies else Install(deps)
  }
}
