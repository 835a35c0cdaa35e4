/** The Docker image updater: which local images are worth pulling, the status of
    each pull, and the summary table sorted by image name. Every `docker` command's
    result is an input. */
module DockerImages {
  import opened Text
  import opened Lists

  // ---------------------------------------------------------------------------
  // Registry rules

  /** `image.rsplit(":", 1)[0]`: the image without its tag. */
  function RepoOf(image: string): string {
    BeforeLast(image, ':')
  }

  /** `is_private_registry`: the repository has a `/` and its first `/`-segment looks
      like a host (it holds a `.` or a `:` port). */
  predicate IsPrivateRegistry(image: string)
    ensures IsPrivateRegistry(image) ==> '/' in image && ('.' in image || ':' in image)
  {
    var repo := RepoOf(image);
    PrefixMembers(image, repo);
    PrefixMembers(repo, BeforeFirst(repo, '/'));
    var first := BeforeFirst(repo, '/');
    '/' in repo && ('.' in first || ':' in first)
  }

  /** Only the part before the last `:` is examined: the tag never matters. */
  lemma TagIrrelevant(repo: string, tag1: string, tag2: string)
    requires ':' !in tag1 && ':' !in tag2
    ensures IsPrivateRegistry(repo + ":" + tag1) == IsPrivateRegistry(repo + ":" + tag2)
  {
    RepoOfTagged(repo, tag1);
    RepoOfTagged(repo, tag2);
  }

  lemma RepoOfTagged(repo: string, tag: string)
    requires ':' !in tag
    ensures RepoOf(repo + ":" + tag) == repo
  {
    var s := repo + ":" + tag;
    assert s[|repo|] == ':';
    assert s[..|repo|] == repo;
    assert s[|repo| + 1..] == tag;
  }

  lemma SplitAtFirst(a: string, c: char, b: string)
    requires c !in a
    ensures BeforeFirst(a + [c] + b, c) == a
  {
    var s := a + [c] + b;
    assert s[|a|] == c;
    var r := BeforeFirst(s, c);
    SeparatedUnique(r, c, s[|r| + 1..], a, b);
  }

  /** An image with no `/` before its tag is never in a private registry. */
  lemma NoSlashNotPrivate(repo: string, tag: string)
    requires '/' !in repo && ':' !in tag
    ensures !IsPrivateRegistry(repo + ":" + tag)
  {
    RepoOfTagged(repo, tag);
  }

  /** An image under a first segment that names a host (`ghcr.io/...`) or a port
      (`localhost:5000/...`) is in a private registry. */
  lemma HostSegmentPrivate(host: string, path: string, tag: string)
    requires '/' !in host && ('.' in host || ':' in host) && ':' !in tag
    ensures IsPrivateRegistry(host + "/" + path + ":" + tag)
  {
    var repo := host + "/" + path;
    assert host + "/" + path + ":" + tag == repo + ":" + tag;
    RepoOfTagged(repo, tag);
    SplitAtFirst(host, '/', path);
    assert repo[|host|] == '/';
  }

  /** An image under a plain first segment (`library/python`) is not. */
  lemma PlainSegmentNotPrivate(seg: string, path: string, tag: string)
    requires '/' !in seg && '.' !in seg && ':' !in seg && ':' !in tag
    ensures !IsPrivateRegistry(seg + "/" + path + ":" + tag)
  {
    var repo := seg + "/" + path;
    assert seg + "/" + path + ":" + tag == repo + ":" + tag;
    RepoOfTagged(repo, tag);
    SplitAtFirst(seg, '/', path);
  }

  // ---------------------------------------------------------------------------
  // Which images are checked

  /** `has_repo_digests` over the result of `docker inspect`. */
  predicate HasRepoDigests(returnCode: int, stdout: string)
    ensures returnCode != 0 ==> !HasRepoDigests(returnCode, stdout)
    ensures HasRepoDigests(returnCode, stdout) ==> Strip(stdout) != "" && Strip(stdout) != "[]"
  {
    returnCode == 0 && Strip(stdout) != "[]" && Strip(stdout) != ""
  }

  /** `has_remote_registry`, with the digest check and `docker manifest inspect`'s
      success as inputs. */
  function HasRemoteRegistry(image: string, digests: bool, manifestFound: bool): (r: bool)
    ensures !digests ==> !r
    ensures digests && IsPrivateRegistry(image) ==> r
    ensures digests && !IsPrivateRegistry(image) ==> r == manifestFound
  {
    if !digests then false else if IsPrivateRegistry(image) then true else manifestFound
  }

  /** What docker answers about an image: the return code and output of
      `docker inspect --format {{.RepoDigests}}`, and the return code of
      `docker manifest inspect`. */
  datatype Answers = Answers(inspect: string -> (int, string), manifest: string -> int)

  predicate DigestsOf(docker: Answers, image: string) {
    HasRepoDigests(docker.inspect(image).0, docker.inspect(image).1)
  }

  /** What one line of `docker images` contributes: the trimmed name of an image with
      a remote registry. */
  function ImageOf(docker: Answers): string -> Option<string> {
    (raw: string) =>
      var line := Strip(raw);
      if line == "" || Contains(line, "<none>") then None
      else if HasRemoteRegistry(line, DigestsOf(docker, line), docker.manifest(line) == 0) then Some(line)
      else None
  }

  /** `get_images`: the loop over the lines of `docker images`, in order. */
  method GetImages(lines: seq<string>, docker: Answers) returns (images: seq<string>)
    ensures images == FilterMap(lines, ImageOf(docker))
  {
    images := [];
    var i := 0;
    while i < |lines|
      invariant 0 <= i <= |lines|
      invariant images == FilterMap(lines[..i], ImageOf(docker))
    {
      FilterMapStep(lines, i, ImageOf(docker));
      var line := Strip(lines[i]);
      if !(line == "" || Contains(line, "<none>")) {
        var (code, out) := docker.inspect(line);
        var remote := HasRemoteRegistry(line, HasRepoDigests(code, out), docker.manifest(line) == 0);
        assert ImageOf(docker)(lines[i]) == if remote then Some(line) else None;
        if remote {
          images := images + [line];
        }
      } else {
        assert ImageOf(docker)(lines[i]) == None;
      }
      i := i + 1;
    }
    assert lines[..i] == lines;
  }

  /** The test a trimmed line must pass to be checked. */
  predicate Accepted(docker: Answers, image: string) {
    image != "" && !Contains(image, "<none>")
    && HasRepoDigests(docker.inspect(image).0, docker.inspect(image).1)
    && (IsPrivateRegistry(image) || docker.manifest(image) == 0)
  }

  /** An image is checked iff it is a trimmed, non-blank line without `<none>` whose
      `docker inspect` succeeds with digests other than `[]`, and that is private or
      has a manifest. */
  lemma GetImagesMember(lines: seq<string>, docker: Answers, image: string)
    ensures image in FilterMap(lines, ImageOf(docker)) <==>
            Accepted(docker, image) && exists raw :: raw in lines && Strip(raw) == image
  {
    var f := ImageOf(docker);
    FilterMapMember(lines, f, image);
    forall raw
      ensures f(raw) == Some(image) <==> Strip(raw) == image && Accepted(docker, image)
    {
      var line := Strip(raw);
      var remote := HasRemoteRegistry(line, DigestsOf(docker, line), docker.manifest(line) == 0);
    }
  }

  // ---------------------------------------------------------------------------
  // process_image

  datatype Status = Updated | Unchanged | PullFailed | Error(message: string)

  /** A row of the summary: image, status, old SHA, new SHA and size. */
  datatype ImageRow = ImageRow(image: string, status: Status, oldSha: string, newSha: string, size: string)

  /** `s[7:]`: the image ID without its `sha256:` prefix. */
  function DropPrefix7(s: string): (r: string)
    ensures |s| <= 7 ==> r == ""
    ensures |s| > 7 ==> s == s[..7] + r
  {
    if |s| <= 7 then "" else s[7..]
  }

  lemma DropDigestPrefix(hex: string)
    ensures DropPrefix7("sha256:" + hex) == hex
  {
    assert ("sha256:" + hex)[7..] == hex;
  }

  /** `get_image_size`: the trimmed size, or `-` when there is none. */
  function SizeOf(stdout: string): (r: string)
    ensures r != ""
    ensures Strip(stdout) != "" ==> r == Strip(stdout)
    ensures Strip(stdout) == "" ==> r == "-"
  {
    if Strip(stdout) == "" then "-" else Strip(stdout)
  }

  /** `process_image`, given the image ID before and after the pull, the size output
      and whether `docker pull` succeeded. */
  function ProcessImage(image: string, oldIdOut: string, sizeOut: string, pulled: bool, newIdOut: string): (r: ImageRow)
    ensures r.image == image && r.size == SizeOf(sizeOut)
    ensures r.oldSha == DropPrefix7(Strip(oldIdOut))
    ensures !pulled ==> r.status == PullFailed && r.newSha == ""
    ensures pulled && DropPrefix7(Strip(newIdOut)) == r.oldSha ==> r.status == Unchanged && r.newSha == ""
    ensures pulled && DropPrefix7(Strip(newIdOut)) != r.oldSha ==> r.status == Updated && r.newSha == DropPrefix7(Strip(newIdOut))
  {
    var oldSha := DropPrefix7(Strip(oldIdOut));
    var size := SizeOf(sizeOut);
    if pulled then
      var newSha := DropPrefix7(Strip(newIdOut));
      if oldSha == newSha then ImageRow(image, Unchanged, oldSha, "", size)
      else ImageRow(image, Updated, oldSha, newSha, size)
    else ImageRow(image, PullFailed, oldSha, "", size)
  }

  /** A new SHA is shown exactly for an updated image. */
  lemma NewShaOnlyWhenUpdated(image: string, oldIdOut: string, sizeOut: string, pulled: bool, newIdOut: string)
    ensures var r := ProcessImage(image, oldIdOut, sizeOut, pulled, newIdOut);
            r.newSha != "" ==> r.status == Updated
    ensures var r := ProcessImage(image, oldIdOut, sizeOut, pulled, newIdOut);
            r.status.Updated? ==> r.newSha != r.oldSha
  {
  }

  // ---------------------------------------------------------------------------
  // The summary

  /** How one worker finished: with its row, or with an exception. */
  datatype Completion = Completed(row: ImageRow) | Raised(image: string, message: string)

  function ResultRow(c: Completion): (r: ImageRow)
    ensures c.Raised? ==> r == ImageRow(c.image, Error(c.message), "-", "-", "-")
    ensures c.Completed? ==> r == c.row
  {
    match c
    case Completed(row) => row
    case Raised(image, message) => ImageRow(image, Error(message), "-", "-", "-")
  }

  /** Python's `<=` on strings: code point by code point, a prefix first. */
  predicate StrLe(a: string, b: string) {
    a == [] || (b != [] && (a[0] < b[0] || (a[0] == b[0] && StrLe(a[1..], b[1..]))))
  }

  lemma {:induction false} StrLeTotal(a: string, b: string)
    ensures StrLe(a, b) || StrLe(b, a)
  {
    if a != [] && b != [] && a[0] == b[0] {
      StrLeTotal(a[1..], b[1..]);
    }
  }

  lemma {:induction false} StrLeTransitive(a: string, b: string, c: string)
    requires StrLe(a, b) && StrLe(b, c)
    ensures StrLe(a, c)
  {
    if a != [] && b != [] && c != [] && a[0] == b[0] && b[0] == c[0] {
      StrLeTransitive(a[1..], b[1..], c[1..]);
    }
  }

  predicate ByImage(x: ImageRow, y: ImageRow) {
    StrLe(x.image, y.image)
  }

  predicate SortedByImage(rows: seq<ImageRow>) {
    forall p, q :: 0 <= p < q < |rows| ==> ByImage(rows[p], rows[q])
  }

  /** `results.sort(key=lambda row: row[0])`: an insertion sort that moves an element
      left only past strictly greater names, so equal names keep their order. */
  method SortByImage(a: array<ImageRow>)
    modifies a
    ensures SortedByImage(a[..])
    ensures multiset(a[..]) == multiset(old(a[..]))
  {
    var i := 1;
    while i < a.Length
      invariant a.Length == 0 || 1 <= i <= a.Length
      invariant a.Length == 0 || SortedByImage(a[..i])
      invariant multiset(a[..]) == multiset(old(a[..]))
    {
      InsertAt(a, i);
      i := i + 1;
    }
    assert a.Length == 0 || a[..] == a[..i];
  }

  /** One pass of the insertion sort: the row at `i` is swapped left into the sorted
      prefix `a[..i]`, which then covers `a[..i + 1]`. */
  method InsertAt(a: array<ImageRow>, i: int)
    requires 1 <= i < a.Length && SortedByImage(a[..i])
    modifies a
    ensures SortedByImage(a[..i + 1])
    ensures multiset(a[..]) == multiset(old(a[..]))
  {
    var j := i;
    assert InsertInv(a[..], i, i);
    while j > 0 && !ByImage(a[j - 1], a[j])
      invariant 0 <= j <= i
      invariant InsertInv(a[..], j, i)
      invariant multiset(a[..]) == multiset(old(a[..]))
    {
      ghost var before := a[..];
      a[j - 1], a[j] := a[j], a[j - 1];
      assert a[..] == before[j - 1 := before[j]][j := before[j - 1]];
      SwapKeepsInv(before, j, i);
      j := j - 1;
    }
    InsertedSorted(a[..], j, i);
  }

  /** While the row moves left, it is in order with everything to its right, and the
      rest of `s[..i + 1]` is in order. */
  ghost predicate InsertInv(s: seq<ImageRow>, j: int, i: int)
    requires 0 <= j <= i < |s|
  {
    (forall p, q :: 0 <= p < q <= i && p != j && q != j ==> ByImage(s[p], s[q]))
    && forall q :: j < q <= i ==> ByImage(s[j], s[q])
  }

  lemma SwapKeepsInv(s: seq<ImageRow>, j: int, i: int)
    requires 0 < j <= i < |s| && InsertInv(s, j, i) && !ByImage(s[j - 1], s[j])
    ensures InsertInv(s[j - 1 := s[j]][j := s[j - 1]], j - 1, i)
  {
    StrLeTotal(s[j - 1].image, s[j].image);
  }

  /** A row at `j` that is in order with its left neighbour and with everything to its
      right, in a prefix otherwise sorted, leaves the prefix sorted. */
  lemma InsertedSorted(s: seq<ImageRow>, j: int, i: int)
    requires 0 <= j <= i < |s| && InsertInv(s, j, i)
    requires j == 0 || ByImage(s[j - 1], s[j])
    ensures SortedByImage(s[..i + 1])
  {
    forall p, q | 0 <= p < q <= i
      ensures ByImage(s[p], s[q])
    {
      if q == j && p < j - 1 {
        StrLeTransitive(s[p].image, s[j - 1].image, s[j].image);
      }
    }
  }

  function Numbered(rows: seq<ImageRow>): (t: seq<(string, ImageRow)>)
    ensures |t| == |rows|
    ensures forall i :: 0 <= i < |t| ==> t[i] == (NatToString(i + 1), rows[i])
  {
    seq(|rows|, (i: int) requires 0 <= i < |rows| => (NatToString(i + 1), rows[i]))
  }

  /** The summary of `main`: one row per image in any completion order, sorted by
      image name and numbered from 1. */
  method Summary(completions: seq<Completion>) returns (table: seq<(string, ImageRow)>)
    ensures |table| == |completions|
    ensures forall i :: 0 <= i < |table| ==> table[i].0 == NatToString(i + 1)
    ensures SortedByImage(Map(table, (e: (string, ImageRow)) => e.1))
    ensures multiset(Map(table, (e: (string, ImageRow)) => e.1)) == multiset(Map(completions, ResultRow))
  {
    var results := Map(completions, ResultRow);
    var a := new ImageRow[|results|](k requires 0 <= k < |results| => results[k]);
    assert a[..] == results;
    SortByImage(a);
    var sorted := a[..];
    table := Numbered(sorted);
    assert Map(table, (e: (string, ImageRow)) => e.1) == sorted;
  }
}
