/** Finding the projects of a repository from its configuration files, leaving out nested ones. */
module Discovery {
  import opened Seqs
  import opened Paths

  // ---------- relative paths ----------

  function PartsOf(path: string): seq<string> { Reduce(Split(path), Rooted(path)) }

  function CommonLen(a: seq<string>, b: seq<string>): (n: nat)
    ensures n <= |a| && n <= |b| && a[..n] == b[..n]
    ensures n < |a| && n < |b| ==> a[n] != b[n]
  {
    if a == [] || b == [] || a[0] != b[0] then 0 else
      var n := CommonLen(a[1..], b[1..]);
      assert a[..n + 1] == [a[0]] + a[1..][..n] && b[..n + 1] == [b[0]] + b[1..][..n];
      n + 1
  }

  function Ups(n: nat): (parts: seq<string>)
    ensures |parts| == n && forall i :: 0 <= i < n ==> parts[i] == ".."
  {
    if n == 0 then [] else Ups(n - 1) + [".."]
  }

  /** The library's Rel: up from what `base` has beyond the common part, then down what `target` has. */
  function Rel(base: string, target: string): Option<string> {
    var b, t := PartsOf(base), PartsOf(target);
    var n := CommonLen(b, t);
    if Rooted(base) != Rooted(target) || (n < |b| && b[n] == "..") then None
    else
      var parts := Ups(|b| - n) + t[n..];
      Some(if parts == [] then "." else Join(parts))
  }

  /** `dir` is in a strict sub-directory of `base`, by way of a name that does not start with two dots. */
  predicate Below(base: string, dir: string) {
    && Rooted(base) == Rooted(dir)
    && PartsOf(base) < PartsOf(dir)
    && !(".." <= PartsOf(dir)[|PartsOf(base)|])
  }

  /** For absolute paths in clean form: `target` has components beyond those of `base`, and the first of
      them does not start with two dots. */
  lemma BelowSpelled(base: seq<string>, target: seq<string>)
    requires AllPlain(base) && AllPlain(target)
    ensures Below("/" + Join(base), "/" + Join(target)) <==> base < target && !(".." <= target[|base|])
  {
    LocateSpelled([], base);
    LocateSpelled([], target);
  }

  /** What a joined path starts with and whether it is a single dot can be read off its first part. */
  lemma JoinedStart(parts: seq<string>)
    requires parts != [] && Tidy(parts)
    ensures ".." <= Join(parts) <==> ".." <= parts[0]
    ensures Join(parts) != "."
  {
    var s := Join(parts);
    assert parts[0] <= s;
    if |parts| > 1 {
      assert s == parts[0] + ("/" + Join(parts[1..]));
      assert s[|parts[0]|] == '/';
    }
    if |parts[0]| == 1 {
      assert parts[0] == [parts[0][0]];
      assert s[0] == parts[0][0] != '.';
    } else {
      assert s[0] == parts[0][0] && s[1] == parts[0][1];
    }
  }

  predicate IsNested(path: string, dir: string) {
    var rel := Rel(path, dir);
    rel.Some? && !(".." <= rel.value) && rel.value != "."
  }

  /** The string test on the relative path means exactly being below. */
  lemma NestedIffBelow(path: string, dir: string)
    ensures IsNested(path, dir) <==> Below(path, dir)
  {
    var b, t := PartsOf(path), PartsOf(dir);
    var n := CommonLen(b, t);
    var parts := Ups(|b| - n) + t[n..];
    ReduceIsTidy(Split(dir), Rooted(dir));
    if n == |b| {
      assert b == t[..n];
      assert parts == t[n..];
      if parts != [] {
        JoinedStart(parts);
      }
    } else {
      assert parts[0] == "..";
      assert Tidy(parts);
      JoinedStart(parts);
      assert !(b <= t) by {
        if n < |t| {
          assert b[n] != t[n];
        }
      }
    }
  }

  // ---------- Java ----------

  datatype Project = Project(modulePath: string, appName: string)

  /** Being below, as the filter sees it. */
  type Nesting = (string, string) -> bool

  predicate BelowSome(projects: seq<Project>, dir: string, below: Nesting) {
    exists i :: 0 <= i < |projects| && below(projects[i].modulePath, dir)
  }

  /** The scan over the projects found so far. */
  method IsSubproject(dir: string, projects: seq<Project>) returns (nested: bool)
    ensures nested <==> BelowSome(projects, dir, Below)
  {
    for i := 0 to |projects|
      invariant forall k :: 0 <= k < i ==> !Below(projects[k].modulePath, dir)
    {
      NestedIffBelow(projects[i].modulePath, dir);
      var relPath := Rel(projects[i].modulePath, dir);
      if relPath.Some? && !(".." <= relPath.value) && relPath.value != "." {
        return true;
      }
    }
    return false;
  }

  /** Analysing a directory names its application, or fails. */
  type Analysis = (string, seq<string>) -> Option<string>

  /** A directory with the configuration files it is analysed by. */
  datatype Candidate = Candidate(dir: string, configs: seq<string>)

  function ProjectOf(c: Candidate, analyze: Analysis): Project
    requires analyze(c.dir, c.configs).Some?
  {
    Project(c.dir, analyze(c.dir, c.configs).value)
  }

  /** The projects found from candidates in order: those analysed successfully that are not below one
      found before. */
  function Found(candidates: seq<Candidate>, analyze: Analysis, below: Nesting): seq<Project> {
    if candidates == [] then [] else
      FoundWith(Found(candidates[..|candidates| - 1], analyze, below), candidates[|candidates| - 1], analyze, below)
  }

  function FoundWith(projects: seq<Project>, c: Candidate, analyze: Analysis, below: Nesting): seq<Project> {
    if BelowSome(projects, c.dir, below) || analyze(c.dir, c.configs) == None then projects
    else projects + [ProjectOf(c, analyze)]
  }

  lemma FoundSnoc(candidates: seq<Candidate>, c: Candidate, analyze: Analysis, below: Nesting)
    ensures Found(candidates + [c], analyze, below) == FoundWith(Found(candidates, analyze, below), c, analyze, below)
  {
    assert (candidates + [c])[..|candidates|] == candidates;
  }

  /** In Java every configuration file is a candidate of its own. */
  function JavaCandidate(config: string): Candidate { Candidate(Dir(config), [config]) }

  function JavaCandidates(configs: seq<string>): (r: seq<Candidate>)
    ensures |r| == |configs|
  {
    if configs == [] then [] else JavaCandidates(configs[..|configs| - 1]) + [JavaCandidate(configs[|configs| - 1])]
  }

  lemma JavaCandidatesNext(configs: seq<string>, n: nat)
    requires n < |configs|
    ensures JavaCandidates(configs[..n + 1]) == JavaCandidates(configs[..n]) + [JavaCandidate(configs[n])]
  {
    assert configs[..n + 1][..n] == configs[..n];
  }

  method ConsiderJava(projects: seq<Project>, configFile: string, ghost before: seq<Candidate>, analyze: Analysis)
    returns (projects': seq<Project>)
    requires projects == Found(before, analyze, Below)
    ensures projects' == Found(before + [JavaCandidate(configFile)], analyze, Below)
  {
    var projectDir := Dir(configFile);
    FoundSnoc(before, Candidate(projectDir, [configFile]), analyze, Below);
    var nested := IsSubproject(projectDir, projects);
    if nested {
      return projects;
    }
    var name := analyze(projectDir, [configFile]);
    if name == None {
      return projects;
    }
    return projects + [Project(projectDir, name.value)];
  }

  method DiscoverJavaProjects(pom: Option<seq<string>>, gradle: Option<seq<string>>, gradleKts: Option<seq<string>>,
                              analyze: Analysis)
    returns (projects: seq<Project>)
    ensures projects == Found(JavaCandidates((if pom.Some? then pom.value else []) +
                                             (if gradle.Some? then gradle.value else []) +
                                             (if gradleKts.Some? then gradleKts.value else [])), analyze, Below)
  {
    var configFiles := [];
    if pom.Some? {
      configFiles := configFiles + pom.value;
    }
    if gradle.Some? {
      configFiles := configFiles + gradle.value;
    }
    if gradleKts.Some? {
      configFiles := configFiles + gradleKts.value;
    }
    assert configFiles == (if pom.Some? then pom.value else []) + (if gradle.Some? then gradle.value else []) +
                          (if gradleKts.Some? then gradleKts.value else []);
    projects := [];
    for i := 0 to |configFiles|
      invariant projects == Found(JavaCandidates(configFiles[..i]), analyze, Below)
    {
      JavaCandidatesNext(configFiles, i);
      projects := ConsiderJava(projects, configFiles[i], JavaCandidates(configFiles[..i]), analyze);
    }
    assert configFiles[..|configFiles|] == configFiles;
  }

  // ---------- what the filter guarantees, in any order ----------

  predicate NoneBelow(found: seq<Project>, below: Nesting) {
    forall i, j :: 0 <= i < j < |found| ==> !below(found[i].modulePath, found[j].modulePath)
  }

  lemma NoneBelowSnoc(found: seq<Project>, p: Project, below: Nesting)
    requires NoneBelow(found, below) && !BelowSome(found, p.modulePath, below)
    ensures NoneBelow(found + [p], below)
  {
  }

  /** No project lies below one found earlier. */
  lemma {:induction false} NoneBelowEarlier(candidates: seq<Candidate>, analyze: Analysis, below: Nesting)
    ensures NoneBelow(Found(candidates, analyze, below), below)
  {
    if candidates != [] {
      var before, c := Found(candidates[..|candidates| - 1], analyze, below), candidates[|candidates| - 1];
      NoneBelowEarlier(candidates[..|candidates| - 1], analyze, below);
      if !BelowSome(before, c.dir, below) && analyze(c.dir, c.configs).Some? {
        NoneBelowSnoc(before, ProjectOf(c, analyze), below);
      }
    }
  }

  /** How a candidate may fare. */
  ghost predicate Accounted(found: seq<Project>, c: Candidate, analyze: Analysis, below: Nesting) {
    || analyze(c.dir, c.configs) == None
    || BelowSome(found, c.dir, below)
    || ProjectOf(c, analyze) in found
  }

  lemma AccountedStays(found: seq<Project>, p: Project, c: Candidate, analyze: Analysis, below: Nesting)
    requires Accounted(found, c, analyze, below)
    ensures Accounted(found + [p], c, analyze, below)
  {
    var more := found + [p];
    if BelowSome(found, c.dir, below) {
      var i :| 0 <= i < |found| && below(found[i].modulePath, c.dir);
      assert more[i] == found[i];
    }
  }

  /** Every candidate's directory is found, could not be analysed, or lies below a found one. */
  lemma {:induction false} EveryCandidateAccounted(candidates: seq<Candidate>, analyze: Analysis, below: Nesting,
                                                   k: nat)
    requires k < |candidates|
    ensures Accounted(Found(candidates, analyze, below), candidates[k], analyze, below)
  {
    var n := |candidates| - 1;
    var before, c := Found(candidates[..n], analyze, below), candidates[n];
    if k < n {
      EveryCandidateAccounted(candidates[..n], analyze, below, k);
      if Found(candidates, analyze, below) != before {
        AccountedStays(before, ProjectOf(c, analyze), candidates[k], analyze, below);
      }
    } else if Found(candidates, analyze, below) != before {
      assert Found(candidates, analyze, below)[|before|] == ProjectOf(c, analyze);
    }
  }

  /** Every project found is some candidate's. */
  lemma {:induction false} FoundAreCandidates(candidates: seq<Candidate>, analyze: Analysis, below: Nesting, i: nat)
    requires i < |Found(candidates, analyze, below)|
    ensures exists k :: 0 <= k < |candidates|
                        && IsProjectOf(Found(candidates, analyze, below)[i], candidates[k], analyze)
  {
    var n := |candidates| - 1;
    var before := Found(candidates[..n], analyze, below);
    if i < |before| {
      FoundAreCandidates(candidates[..n], analyze, below, i);
      var k :| 0 <= k < n && IsProjectOf(before[i], candidates[..n][k], analyze);
      assert IsProjectOf(Found(candidates, analyze, below)[i], candidates[k], analyze);
    } else {
      assert IsProjectOf(Found(candidates, analyze, below)[i], candidates[n], analyze);
    }
  }

  predicate IsProjectOf(p: Project, c: Candidate, analyze: Analysis) {
    p.modulePath == c.dir && analyze(c.dir, c.configs) == Some(p.appName)
  }

  // ---------- which pairs of candidates are found ----------

  /** The candidate is analysed and not below a project found by then. */
  predicate Accepted(candidates: seq<Candidate>, k: nat, analyze: Analysis, below: Nesting) {
    && k < |candidates|
    && analyze(candidates[k].dir, candidates[k].configs).Some?
    && !BelowSome(Found(candidates[..k], analyze, below), candidates[k].dir, below)
  }

  /** A relation between the directories of an earlier and a later project. */
  type Relation = (string, string) -> bool

  predicate NoPair(found: seq<Project>, related: Relation) {
    forall i, j :: 0 <= i < j < |found| ==> !related(found[i].modulePath, found[j].modulePath)
  }

  predicate NoneTo(found: seq<Project>, related: Relation, dir: string) {
    forall i :: 0 <= i < |found| ==> !related(found[i].modulePath, dir)
  }

  lemma NoPairSnoc(found: seq<Project>, p: Project, related: Relation)
    ensures NoPair(found + [p], related) <==> NoPair(found, related) && NoneTo(found, related, p.modulePath)
  {
    var more := found + [p];
    assert more[|found|] == p;
    if NoPair(more, related) {
      forall i | 0 <= i < |found|
        ensures !related(found[i].modulePath, p.modulePath)
      {
        assert !related(more[i].modulePath, more[|found|].modulePath);
      }
      forall i, j | 0 <= i < j < |found|
        ensures !related(found[i].modulePath, found[j].modulePath)
      {
        assert !related(more[i].modulePath, more[j].modulePath);
      }
    }
  }

  lemma NoneToSnoc(found: seq<Project>, p: Project, related: Relation, dir: string)
    ensures NoneTo(found + [p], related, dir) <==> NoneTo(found, related, dir) && !related(p.modulePath, dir)
  {
    var more := found + [p];
    assert forall i :: 0 <= i < |found| ==> more[i] == found[i];
    assert more[|found|] == p;
  }

  /** The last candidate, accepted or not, after the ones before it. */
  lemma FoundLast(candidates: seq<Candidate>, analyze: Analysis, below: Nesting)
    requires candidates != []
    ensures var n := |candidates| - 1;
            var before, c := Found(candidates[..n], analyze, below), candidates[n];
            Found(candidates, analyze, below) ==
            if Accepted(candidates, n, analyze, below) then before + [ProjectOf(c, analyze)]
            else before
  {
  }

  lemma AcceptedInPrefix(candidates: seq<Candidate>, n: nat, k: nat, analyze: Analysis, below: Nesting)
    requires k < n <= |candidates|
    ensures Accepted(candidates[..n], k, analyze, below) <==> Accepted(candidates, k, analyze, below)
  {
    assert candidates[..n][..k] == candidates[..k];
  }

  /** No accepted candidate is related to a directory. */
  ghost predicate NoAcceptedTo(candidates: seq<Candidate>, analyze: Analysis, below: Nesting, related: Relation,
                               dir: string) {
    forall k :: 0 <= k < |candidates| && Accepted(candidates, k, analyze, below) ==> !related(candidates[k].dir, dir)
  }

  lemma NoAcceptedToLast(candidates: seq<Candidate>, analyze: Analysis, below: Nesting, related: Relation, dir: string)
    requires candidates != []
    ensures var n := |candidates| - 1;
            NoAcceptedTo(candidates, analyze, below, related, dir) <==>
            (NoAcceptedTo(candidates[..n], analyze, below, related, dir)
             && (Accepted(candidates, n, analyze, below) ==> !related(candidates[n].dir, dir)))
  {
    var n := |candidates| - 1;
    forall k | 0 <= k < n
      ensures Accepted(candidates[..n], k, analyze, below) <==> Accepted(candidates, k, analyze, below)
      ensures candidates[..n][k] == candidates[k]
    {
      AcceptedInPrefix(candidates, n, k, analyze, below);
    }
  }

  lemma {:induction false} NoneToIff(candidates: seq<Candidate>, analyze: Analysis, below: Nesting, related: Relation,
                                     dir: string)
    ensures NoneTo(Found(candidates, analyze, below), related, dir) <==>
            NoAcceptedTo(candidates, analyze, below, related, dir)
  {
    if candidates != [] {
      var n := |candidates| - 1;
      NoneToIff(candidates[..n], analyze, below, related, dir);
      FoundLast(candidates, analyze, below);
      NoAcceptedToLast(candidates, analyze, below, related, dir);
      if Accepted(candidates, n, analyze, below) {
        var c := candidates[n];
        NoneToSnoc(Found(candidates[..n], analyze, below), ProjectOf(c, analyze), related, dir);
      }
    }
  }

  /** No two accepted candidates are related, the earlier to the later. */
  ghost predicate NoAcceptedPair(candidates: seq<Candidate>, analyze: Analysis, below: Nesting, related: Relation) {
    forall j :: 0 <= j < |candidates| && Accepted(candidates, j, analyze, below) ==>
      NoAcceptedTo(candidates[..j], analyze, below, related, candidates[j].dir)
  }

  predicate AcceptedPair(candidates: seq<Candidate>, i: int, j: int, analyze: Analysis, below: Nesting) {
    0 <= i < j < |candidates| && Accepted(candidates, i, analyze, below) && Accepted(candidates, j, analyze, below)
  }

  lemma AllPairsAccepted(candidates: seq<Candidate>, i: nat, j: nat, analyze: Analysis, below: Nesting)
    requires i < j < |candidates|
    requires Accepted(candidates, i, analyze, below) && Accepted(candidates, j, analyze, below)
    ensures AcceptedPair(candidates, i, j, analyze, below)
  {
  }

  lemma NoAcceptedToMeans(candidates: seq<Candidate>, j: nat, analyze: Analysis, below: Nesting, related: Relation,
                          dir: string)
    requires j <= |candidates|
    ensures NoAcceptedTo(candidates[..j], analyze, below, related, dir) <==>
            forall i :: 0 <= i < j && Accepted(candidates, i, analyze, below) ==> !related(candidates[i].dir, dir)
  {
    forall i | 0 <= i < j
      ensures Accepted(candidates[..j], i, analyze, below) <==> Accepted(candidates, i, analyze, below)
    {
      AcceptedInPrefix(candidates, j, i, analyze, below);
    }
  }

  /** The same, pair by pair. */
  lemma NoAcceptedPairMeans(candidates: seq<Candidate>, analyze: Analysis, below: Nesting, related: Relation)
    ensures NoAcceptedPair(candidates, analyze, below, related) <==>
            forall i, j :: AcceptedPair(candidates, i, j, analyze, below) ==>
              !related(candidates[i].dir, candidates[j].dir)
  {
    if NoAcceptedPair(candidates, analyze, below, related) {
      forall i, j | AcceptedPair(candidates, i, j, analyze, below)
        ensures !related(candidates[i].dir, candidates[j].dir)
      {
        NoAcceptedToMeans(candidates, j, analyze, below, related, candidates[j].dir);
      }
    } else {
      var j :| 0 <= j < |candidates| && Accepted(candidates, j, analyze, below)
               && !NoAcceptedTo(candidates[..j], analyze, below, related, candidates[j].dir);
      NoAcceptedToMeans(candidates, j, analyze, below, related, candidates[j].dir);
      var i :| 0 <= i < j && Accepted(candidates, i, analyze, below) && related(candidates[i].dir, candidates[j].dir);
      AllPairsAccepted(candidates, i, j, analyze, below);
    }
  }

  lemma NoAcceptedPairLast(candidates: seq<Candidate>, analyze: Analysis, below: Nesting, related: Relation)
    requires candidates != []
    ensures var n := |candidates| - 1;
            NoAcceptedPair(candidates, analyze, below, related) <==>
            (NoAcceptedPair(candidates[..n], analyze, below, related)
             && (Accepted(candidates, n, analyze, below) ==>
                   NoAcceptedTo(candidates[..n], analyze, below, related, candidates[n].dir)))
  {
    var n := |candidates| - 1;
    forall k | 0 <= k < n
      ensures Accepted(candidates[..n], k, analyze, below) <==> Accepted(candidates, k, analyze, below)
      ensures candidates[..n][k] == candidates[k] && candidates[..n][..k] == candidates[..k]
    {
      AcceptedInPrefix(candidates, n, k, analyze, below);
    }
  }

  /** No project found is related to a later one exactly when no accepted candidate is. */
  lemma {:induction false} PairsFoundIff(candidates: seq<Candidate>, analyze: Analysis, below: Nesting,
                                         related: Relation)
    ensures NoPair(Found(candidates, analyze, below), related) <==> NoAcceptedPair(candidates, analyze, below, related)
  {
    if candidates != [] {
      var n := |candidates| - 1;
      PairsFoundIff(candidates[..n], analyze, below, related);
      FoundLast(candidates, analyze, below);
      NoAcceptedPairLast(candidates, analyze, below, related);
      if Accepted(candidates, n, analyze, below) {
        var c := candidates[n];
        NoPairSnoc(Found(candidates[..n], analyze, below), ProjectOf(c, analyze), related);
        NoneToIff(candidates[..n], analyze, below, related, c.dir);
      }
    }
  }

  predicate Same(earlier: string, later: string) { earlier == later }

  /** The later directory contains the earlier one. */
  predicate Contained(earlier: string, later: string) { Below(later, earlier) }

  predicate DistinctPaths(found: seq<Project>) {
    forall i, j :: 0 <= i < j < |found| ==> found[i].modulePath != found[j].modulePath
  }

  /** No directory is found twice exactly when no two accepted candidates have the same one. */
  lemma DistinctPathsIff(candidates: seq<Candidate>, analyze: Analysis, below: Nesting)
    ensures DistinctPaths(Found(candidates, analyze, below)) <==>
            forall i, j :: AcceptedPair(candidates, i, j, analyze, below) ==> candidates[i].dir != candidates[j].dir
  {
    PairsFoundIff(candidates, analyze, below, Same);
    NoAcceptedPairMeans(candidates, analyze, below, Same);
    SameMeansEqual(Found(candidates, analyze, below));
    assert forall i, j :: 0 <= i < j < |candidates| ==>
      (Same(candidates[i].dir, candidates[j].dir) <==> candidates[i].dir == candidates[j].dir);
  }

  lemma SameMeansEqual(found: seq<Project>)
    ensures NoPair(found, Same) <==> DistinctPaths(found)
  {
    assert forall i, j :: 0 <= i < j < |found| ==>
      (Same(found[i].modulePath, found[j].modulePath) <==> found[i].modulePath == found[j].modulePath);
  }

  predicate Nests(found: seq<Project>) {
    exists i, j :: 0 <= i < |found| && 0 <= j < |found| && Below(found[i].modulePath, found[j].modulePath)
  }

  lemma BelowIsIrreflexive(dir: string)
    ensures !Below(dir, dir)
  {
  }

  lemma NestsOnlyUpwards(found: seq<Project>)
    requires NoneBelow(found, Below)
    ensures Nests(found) <==> !NoPair(found, Contained)
  {
    if Nests(found) {
      var i, j :| 0 <= i < |found| && 0 <= j < |found| && Below(found[i].modulePath, found[j].modulePath);
      BelowIsIrreflexive(found[i].modulePath);
      assert Contained(found[j].modulePath, found[i].modulePath);
    }
    if !NoPair(found, Contained) {
      var i, j :| 0 <= i < j < |found| && Contained(found[i].modulePath, found[j].modulePath);
      assert Below(found[j].modulePath, found[i].modulePath);
    }
  }

  /** Projects nest exactly when some accepted candidate comes after an accepted one that lies below it. */
  lemma ProjectsNestIff(candidates: seq<Candidate>, analyze: Analysis)
    ensures Nests(Found(candidates, analyze, Below)) <==>
            exists i, j :: AcceptedPair(candidates, i, j, analyze, Below)
                           && Contained(candidates[i].dir, candidates[j].dir)
  {
    NoneBelowEarlier(candidates, analyze, Below);
    NestsOnlyUpwards(Found(candidates, analyze, Below));
    PairsFoundIff(candidates, analyze, Below, Contained);
    NoAcceptedPairMeans(candidates, analyze, Below, Contained);
  }

  /** No directory comes before one that contains it. */
  predicate ParentsFirst(candidates: seq<Candidate>) {
    forall i, j :: 0 <= i < j < |candidates| ==> !Contained(candidates[i].dir, candidates[j].dir)
  }

  /** So when parents come first no two projects found nest. */
  lemma ParentsFirstNeverNest(candidates: seq<Candidate>, analyze: Analysis)
    requires ParentsFirst(candidates)
    ensures !Nests(Found(candidates, analyze, Below))
  {
    ProjectsNestIff(candidates, analyze);
  }

  lemma BelowIsAsymmetric(a: string, b: string)
    requires Below(a, b)
    ensures !Below(b, a)
  {
    assert |PartsOf(a)| < |PartsOf(b)|;
  }

  lemma FoundPair(a: Candidate, b: Candidate, analyze: Analysis, below: Nesting)
    requires analyze(a.dir, a.configs).Some? && analyze(b.dir, b.configs).Some?
    ensures var p, q := ProjectOf(a, analyze), ProjectOf(b, analyze);
            Found([a, b], analyze, below) == if below(a.dir, b.dir) then [p] else [p, q]
  {
    FoundSnoc([], a, analyze, below);
    FoundSnoc([a], b, analyze, below);
    assert [] + [a] == [a] && [a] + [b] == [a, b];
    var p := ProjectOf(a, analyze);
    assert FoundWith([], a, analyze, below) == [p];
    assert [p][0].modulePath == a.dir;
  }

  /** A directory and one below it: both are found when the inner one comes first, and only the outer
      one when it does. */
  lemma InnerFirstNests(inner: Candidate, outer: Candidate, analyze: Analysis)
    requires Below(outer.dir, inner.dir)
    requires analyze(inner.dir, inner.configs).Some? && analyze(outer.dir, outer.configs).Some?
    ensures Nests(Found([inner, outer], analyze, Below)) && !Nests(Found([outer, inner], analyze, Below))
  {
    BelowIsAsymmetric(outer.dir, inner.dir);
    FoundPair(inner, outer, analyze, Below);
    FoundPair(outer, inner, analyze, Below);
    var found := Found([inner, outer], analyze, Below);
    assert Below(found[1].modulePath, found[0].modulePath);
    BelowIsIrreflexive(outer.dir);
  }

  // ---------- the same, read off the candidates ----------

  /** A strict order, as being below is. */
  ghost predicate IsNesting(below: Nesting) {
    && (forall a :: !below(a, a))
    && (forall a, b, c :: below(a, b) && below(b, c) ==> below(a, c))
  }

  lemma BelowIsTransitive(a: string, b: string, c: string)
    requires Below(a, b) && Below(b, c)
    ensures Below(a, c)
  {
    var n := |PartsOf(a)|;
    assert PartsOf(b)[n] == PartsOf(c)[n];
  }

  lemma BelowIsNesting()
    ensures IsNesting(Below)
  {
    forall a
      ensures !Below(a, a)
    {
      BelowIsIrreflexive(a);
    }
    forall a, b, c | Below(a, b) && Below(b, c)
      ensures Below(a, c)
    {
      BelowIsTransitive(a, b, c);
    }
  }

  predicate Analysable(c: Candidate, analyze: Analysis) {
    analyze(c.dir, c.configs).Some?
  }

  /** Some analysable candidate before position `k` contains `dir`. */
  predicate Covered(candidates: seq<Candidate>, k: nat, dir: string, analyze: Analysis, below: Nesting)
    requires k <= |candidates|
  {
    exists i :: 0 <= i < k && Analysable(candidates[i], analyze) && below(candidates[i].dir, dir)
  }

  /** A directory is below a found project exactly when an analysable candidate contains it, whether
      that candidate was found or was itself below another. */
  lemma BelowFoundIff(candidates: seq<Candidate>, k: nat, dir: string, analyze: Analysis, below: Nesting)
    requires IsNesting(below) && k <= |candidates|
    ensures BelowSome(Found(candidates[..k], analyze, below), dir, below) <==>
            Covered(candidates, k, dir, analyze, below)
  {
    var found := Found(candidates[..k], analyze, below);
    if BelowSome(found, dir, below) {
      var p :| 0 <= p < |found| && below(found[p].modulePath, dir);
      FoundAreCandidates(candidates[..k], analyze, below, p);
      var i :| 0 <= i < k && IsProjectOf(found[p], candidates[..k][i], analyze);
      assert candidates[..k][i] == candidates[i] && Analysable(candidates[i], analyze);
    }
    if Covered(candidates, k, dir, analyze, below) {
      var i :| 0 <= i < k && Analysable(candidates[i], analyze) && below(candidates[i].dir, dir);
      EveryCandidateAccounted(candidates[..k], analyze, below, i);
      CoverIsFound(found, candidates[i], dir, analyze, below);
    }
  }

  lemma CoverIsFound(found: seq<Project>, c: Candidate, dir: string, analyze: Analysis, below: Nesting)
    requires IsNesting(below) && Analysable(c, analyze) && Accounted(found, c, analyze, below) && below(c.dir, dir)
    ensures BelowSome(found, dir, below)
  {
    if BelowSome(found, c.dir, below) {
      var p :| 0 <= p < |found| && below(found[p].modulePath, c.dir);
      assert below(found[p].modulePath, dir);
    } else {
      var p :| 0 <= p < |found| && found[p] == ProjectOf(c, analyze);
      assert below(found[p].modulePath, dir);
    }
  }

  lemma AcceptedIff(candidates: seq<Candidate>, k: nat, analyze: Analysis, below: Nesting)
    requires IsNesting(below) && k < |candidates|
    ensures Accepted(candidates, k, analyze, below) <==>
            Analysable(candidates[k], analyze) && !Covered(candidates, k, candidates[k].dir, analyze, below)
  {
    BelowFoundIff(candidates, k, candidates[k].dir, analyze, below);
  }

  /** `found` are the projects of the candidates at `at`, which are the accepted ones before `m` in order. */
  ghost predicate FoundAt(candidates: seq<Candidate>, m: nat, analyze: Analysis, below: Nesting, found: seq<Project>,
                          at: seq<nat>)
    requires m <= |candidates|
  {
    && |at| == |found|
    && (forall i :: 0 <= i < |at| ==> at[i] < m && IsProjectOf(found[i], candidates[at[i]], analyze))
    && (forall i, j :: 0 <= i < j < |at| ==> at[i] < at[j])
    && forall k :: 0 <= k < m ==> (k in at <==> Accepted(candidates, k, analyze, below))
  }

  lemma FoundAtNext(candidates: seq<Candidate>, m: nat, analyze: Analysis, below: Nesting, found: seq<Project>,
                    at: seq<nat>)
    requires m < |candidates| && FoundAt(candidates, m, analyze, below, found, at)
    ensures if Accepted(candidates, m, analyze, below)
            then FoundAt(candidates, m + 1, analyze, below, found + [ProjectOf(candidates[m], analyze)], at + [m])
            else FoundAt(candidates, m + 1, analyze, below, found, at)
  {
    assert m !in at;
    assert (at + [m])[|at|] == m;
    assert forall k :: k in at + [m] <==> k in at || k == m;
  }

  lemma {:induction false} FoundUpTo(candidates: seq<Candidate>, m: nat, analyze: Analysis, below: Nesting)
    returns (at: seq<nat>)
    requires m <= |candidates|
    ensures FoundAt(candidates, m, analyze, below, Found(candidates[..m], analyze, below), at)
  {
    if m == 0 {
      return [];
    }
    at := FoundUpTo(candidates, m - 1, analyze, below);
    FoundAtNext(candidates, m - 1, analyze, below, Found(candidates[..m - 1], analyze, below), at);
    assert candidates[..m] == candidates[..m - 1] + [candidates[m - 1]];
    FoundSnoc(candidates[..m - 1], candidates[m - 1], analyze, below);
    at := if Accepted(candidates, m - 1, analyze, below) then at + [m - 1] else at;
  }

  /** The projects found in Java, by the positions of their configuration files: in order, those whose
      directory can be analysed and lies below none of those before that can. */
  lemma JavaFindsExactly(configs: seq<string>, analyze: Analysis) returns (at: seq<nat>)
    ensures var found := Found(JavaCandidates(configs), analyze, Below);
            && |at| == |found|
            && forall i :: 0 <= i < |at| ==>
                 && at[i] < |configs| && found[i].modulePath == Dir(configs[at[i]])
                 && analyze(Dir(configs[at[i]]), [configs[at[i]]]) == Some(found[i].appName)
    ensures forall i, j :: 0 <= i < j < |at| ==> at[i] < at[j]
    ensures forall k :: 0 <= k < |configs| ==>
              (k in at <==>
               && analyze(Dir(configs[k]), [configs[k]]).Some?
               && forall i :: 0 <= i < k && analyze(Dir(configs[i]), [configs[i]]).Some? ==>
                    !Below(Dir(configs[i]), Dir(configs[k])))
  {
    var candidates := JavaCandidates(configs);
    JavaCandidatesAre(configs);
    BelowIsNesting();
    at := FoundUpTo(candidates, |candidates|, analyze, Below);
    assert candidates[..|candidates|] == candidates;
    forall k: nat | k < |configs|
      ensures k in at <==>
              Analysable(candidates[k], analyze) && !Covered(candidates, k, candidates[k].dir, analyze, Below)
    {
      AcceptedIff(candidates, k, analyze, Below);
    }
  }

  lemma {:induction false} JavaCandidatesAre(configs: seq<string>)
    ensures forall k :: 0 <= k < |configs| ==> JavaCandidates(configs)[k] == Candidate(Dir(configs[k]), [configs[k]])
  {
    if configs != [] {
      JavaCandidatesAre(configs[..|configs| - 1]);
    }
  }

  /** Two analysable candidates, the later of which no earlier analysable one contains, with the same
      directory. */
  predicate Repeats(candidates: seq<Candidate>, i: int, j: int, analyze: Analysis, below: Nesting) {
    && 0 <= i < j < |candidates| && candidates[i].dir == candidates[j].dir
    && Analysable(candidates[i], analyze) && Analysable(candidates[j], analyze)
    && !Covered(candidates, j, candidates[j].dir, analyze, below)
  }

  lemma RepeatsIff(candidates: seq<Candidate>, i: nat, j: nat, analyze: Analysis, below: Nesting)
    requires IsNesting(below) && i < j < |candidates|
    ensures Repeats(candidates, i, j, analyze, below) <==>
            AcceptedPair(candidates, i, j, analyze, below) && candidates[i].dir == candidates[j].dir
  {
    AcceptedIff(candidates, i, analyze, below);
    AcceptedIff(candidates, j, analyze, below);
  }

  /** A directory is found twice exactly when two analysable candidates have it and no analysable
      candidate before the later of them contains it. */
  lemma FoundTwiceIff(candidates: seq<Candidate>, analyze: Analysis)
    ensures DistinctPaths(Found(candidates, analyze, Below)) <==>
            forall i, j :: !Repeats(candidates, i, j, analyze, Below)
  {
    BelowIsNesting();
    RepeatedIff(candidates, analyze, Below);
  }

  lemma RepeatedIff(candidates: seq<Candidate>, analyze: Analysis, below: Nesting)
    requires IsNesting(below)
    ensures DistinctPaths(Found(candidates, analyze, below)) <==>
            forall i, j :: !Repeats(candidates, i, j, analyze, below)
  {
    DistinctPathsIff(candidates, analyze, below);
    if i, j :| Repeats(candidates, i, j, analyze, below) {
      RepeatsIff(candidates, i, j, analyze, below);
    }
    if i, j :| AcceptedPair(candidates, i, j, analyze, below) && candidates[i].dir == candidates[j].dir {
      RepeatsIff(candidates, i, j, analyze, below);
    }
  }

  /** Two analysable candidates, the later of which contains the earlier, and no analysable candidate
      before the earlier one contains that. */
  predicate InnerBeforeOuter(candidates: seq<Candidate>, i: int, j: int, analyze: Analysis, below: Nesting) {
    && 0 <= i < j < |candidates| && below(candidates[j].dir, candidates[i].dir)
    && Analysable(candidates[i], analyze) && Analysable(candidates[j], analyze)
    && !Covered(candidates, i, candidates[i].dir, analyze, below)
  }

  /** Should the outer candidate be covered itself, what covers it comes after the inner one too. */
  lemma {:induction false} OutermostAfter(candidates: seq<Candidate>, i: nat, j: nat, analyze: Analysis, below: Nesting)
    returns (k: nat)
    requires IsNesting(below) && InnerBeforeOuter(candidates, i, j, analyze, below)
    ensures AcceptedPair(candidates, i, k, analyze, below) && below(candidates[k].dir, candidates[i].dir)
    decreases j
  {
    AcceptedIff(candidates, i, analyze, below);
    AcceptedIff(candidates, j, analyze, below);
    if Covered(candidates, j, candidates[j].dir, analyze, below) {
      k :| 0 <= k < j && Analysable(candidates[k], analyze) && below(candidates[k].dir, candidates[j].dir);
      assert below(candidates[k].dir, candidates[i].dir);
      k := OutermostAfter(candidates, i, k, analyze, below);
    } else {
      k := j;
    }
  }

  /** Projects found nest exactly when an analysable candidate comes after an analysable one it
      contains, which no analysable candidate before that contains. */
  lemma FoundNestIff(candidates: seq<Candidate>, analyze: Analysis)
    ensures Nests(Found(candidates, analyze, Below)) <==>
            exists i, j :: InnerBeforeOuter(candidates, i, j, analyze, Below)
  {
    BelowIsNesting();
    ProjectsNestIff(candidates, analyze);
    if i, j :| InnerBeforeOuter(candidates, i, j, analyze, Below) {
      var k := OutermostAfter(candidates, i, j, analyze, Below);
      assert Contained(candidates[i].dir, candidates[k].dir);
    }
    if i, j :| AcceptedPair(candidates, i, j, analyze, Below) && Contained(candidates[i].dir, candidates[j].dir) {
      AcceptedIff(candidates, i, analyze, Below);
      AcceptedIff(candidates, j, analyze, Below);
      assert InnerBeforeOuter(candidates, i, j, analyze, Below);
    }
  }

  /** A directory below no other candidate is found in whatever order the candidates come. */
  lemma OutermostAlwaysFound(candidates: seq<Candidate>, analyze: Analysis, below: Nesting, k: nat)
    requires k < |candidates| && analyze(candidates[k].dir, candidates[k].configs).Some?
    requires forall i :: 0 <= i < |candidates| ==> !below(candidates[i].dir, candidates[k].dir)
    ensures ProjectOf(candidates[k], analyze) in Found(candidates, analyze, below)
  {
    var found := Found(candidates, analyze, below);
    EveryCandidateAccounted(candidates, analyze, below, k);
    forall i | 0 <= i < |found|
      ensures !below(found[i].modulePath, candidates[k].dir)
    {
      FoundAreCandidates(candidates, analyze, below, i);
    }
  }

  // ---------- Python ----------

  function GroupOf(configs: seq<string>, dir: string): seq<string> {
    if configs == [] then [] else
      var last := configs[|configs| - 1];
      GroupOf(configs[..|configs| - 1], dir) + if Dir(last) == dir then [last] else []
  }

  /** The files of a directory, by their positions: in order, exactly those that lie in it. */
  lemma GroupIs(configs: seq<string>, dir: string) returns (at: seq<nat>)
    ensures |at| == |GroupOf(configs, dir)|
    ensures forall k :: 0 <= k < |at| ==> at[k] < |configs| && GroupOf(configs, dir)[k] == configs[at[k]]
    ensures forall k, l :: 0 <= k < l < |at| ==> at[k] < at[l]
    ensures forall i :: 0 <= i < |configs| ==> (i in at <==> Dir(configs[i]) == dir)
  {
    at := GroupAt(configs, dir, config => Dir(config) == dir);
  }

  lemma {:induction false} GroupAt(configs: seq<string>, dir: string, p: string -> bool) returns (at: seq<nat>)
    requires forall config :: p(config) <==> Dir(config) == dir
    ensures PickedAt(configs, p, GroupOf(configs, dir), at)
  {
    at := [];
    if configs != [] {
      var n := |configs| - 1;
      at := GroupAt(configs[..n], dir, p);
      PickNext(configs, p, GroupOf(configs[..n], dir), at);
      at := if p(configs[n]) then at + [n] else at;
    }
  }

  function PythonCandidate(configs: seq<string>, dir: string): Candidate { Candidate(dir, GroupOf(configs, dir)) }

  /** The candidates of a Python discovery: each directory with a configuration file once, with all its
      files, in any order. */
  ghost predicate IsIteration(configs: seq<string>, candidates: seq<Candidate>) {
    && (forall i, j :: 0 <= i < j < |candidates| ==> candidates[i].dir != candidates[j].dir)
    && (forall i :: 0 <= i < |candidates| ==> candidates[i].configs == GroupOf(configs, candidates[i].dir) != [])
    && (forall k :: 0 <= k < |configs| ==> Listed(candidates, Dir(configs[k])))
  }

  predicate Listed(candidates: seq<Candidate>, dir: string) {
    exists i :: 0 <= i < |candidates| && candidates[i].dir == dir
  }

  lemma {:induction false} GroupIsEmptyIff(configs: seq<string>, dir: string)
    ensures GroupOf(configs, dir) == [] <==> forall k :: 0 <= k < |configs| ==> Dir(configs[k]) != dir
  {
    if configs != [] {
      GroupIsEmptyIff(configs[..|configs| - 1], dir);
      assert forall k :: 0 <= k < |configs| - 1 ==> configs[..|configs| - 1][k] == configs[k];
    }
  }

  method GroupByDirectory(configs: seq<string>) returns (projectDirs: map<string, seq<string>>)
    ensures forall d :: d in projectDirs <==> GroupOf(configs, d) != []
    ensures forall d :: d in projectDirs ==> projectDirs[d] == GroupOf(configs, d)
  {
    projectDirs := map[];
    for i := 0 to |configs|
      invariant forall d :: d in projectDirs <==> GroupOf(configs[..i], d) != []
      invariant forall d :: d in projectDirs ==> projectDirs[d] == GroupOf(configs[..i], d)
    {
      assert configs[..i + 1][..i] == configs[..i];
      var dir := Dir(configs[i]);
      projectDirs := projectDirs[dir := (if dir in projectDirs then projectDirs[dir] else []) + [configs[i]]];
    }
    assert configs[..|configs|] == configs;
  }

  method ConsiderPython(projects: seq<Project>, projectDir: string, configs: seq<string>, ghost before: seq<Candidate>,
                        analyze: Analysis)
    returns (projects': seq<Project>)
    requires projects == Found(before, analyze, Below)
    ensures projects' == Found(before + [Candidate(projectDir, configs)], analyze, Below)
  {
    FoundSnoc(before, Candidate(projectDir, configs), analyze, Below);
    var name := analyze(projectDir, configs);
    if name == None {
      return projects;
    }
    var nested := IsSubproject(projectDir, projects);
    if nested {
      return projects;
    }
    return projects + [Project(projectDir, name.value)];
  }

  /** What the loop over the map has taken so far. */
  ghost predicate Taken(projectDirs: map<string, seq<string>>, left: set<string>, candidates: seq<Candidate>) {
    && left <= projectDirs.Keys
    && (forall i, j :: 0 <= i < j < |candidates| ==> candidates[i].dir != candidates[j].dir)
    && (forall i :: 0 <= i < |candidates| ==> candidates[i].dir in projectDirs && candidates[i].dir !in left)
    && (forall i :: 0 <= i < |candidates| ==> candidates[i].configs == projectDirs[candidates[i].dir])
    && (forall d :: d in projectDirs && d !in left ==> Listed(candidates, d))
  }

  lemma TakeOne(projectDirs: map<string, seq<string>>, left: set<string>, candidates: seq<Candidate>, dir: string)
    requires Taken(projectDirs, left, candidates) && dir in left
    ensures Taken(projectDirs, left - {dir}, candidates + [Candidate(dir, projectDirs[dir])])
  {
    ListedSnoc(candidates, Candidate(dir, projectDirs[dir]));
  }

  lemma TakenIsIteration(configs: seq<string>, projectDirs: map<string, seq<string>>, candidates: seq<Candidate>)
    requires forall d :: d in projectDirs <==> GroupOf(configs, d) != []
    requires forall d :: d in projectDirs ==> projectDirs[d] == GroupOf(configs, d)
    requires Taken(projectDirs, {}, candidates)
    ensures IsIteration(configs, candidates)
  {
    forall k | 0 <= k < |configs|
      ensures Listed(candidates, Dir(configs[k]))
    {
      GroupIsEmptyIff(configs, Dir(configs[k]));
    }
  }

  /** The loop over the map takes its keys in any order, and analyses before it looks for nesting. */
  method DiscoverPythonProjects(requirements: Option<seq<string>>, pyproject: Option<seq<string>>, analyze: Analysis)
    returns (projects: seq<Project>)
    ensures var configs := (if requirements.Some? then requirements.value else []) +
                           (if pyproject.Some? then pyproject.value else []);
            exists candidates :: IsIteration(configs, candidates) && projects == Found(candidates, analyze, Below)
  {
    var configs := [];
    if requirements.Some? {
      configs := configs + requirements.value;
    }
    if pyproject.Some? {
      configs := configs + pyproject.value;
    }
    assert configs == (if requirements.Some? then requirements.value else []) +
                      (if pyproject.Some? then pyproject.value else []);
    var projectDirs := GroupByDirectory(configs);
    projects := [];
    ghost var candidates: seq<Candidate> := [];
    var left := projectDirs.Keys;
    while left != {}
      invariant projects == Found(candidates, analyze, Below)
      invariant Taken(projectDirs, left, candidates)
      decreases |left|
    {
      var projectDir :| projectDir in left;
      TakeOne(projectDirs, left, candidates, projectDir);
      left := left - {projectDir};
      projects := ConsiderPython(projects, projectDir, projectDirs[projectDir], candidates, analyze);
      candidates := candidates + [Candidate(projectDir, projectDirs[projectDir])];
    }
    TakenIsIteration(configs, projectDirs, candidates);
  }

  lemma ListedSnoc(candidates: seq<Candidate>, c: Candidate)
    ensures forall d :: Listed(candidates + [c], d) <==> Listed(candidates, d) || c.dir == d
  {
    var more := candidates + [c];
    assert more[|candidates|] == c;
    forall d | Listed(candidates, d)
      ensures Listed(more, d)
    {
      var i :| 0 <= i < |candidates| && candidates[i].dir == d;
      assert more[i].dir == d;
    }
  }

  /** Whatever the order of the map, every directory with a configuration file is found, could not be
      analysed, or lies below a found one; and no directory is found twice. */
  lemma PythonCoversEveryDirectory(configs: seq<string>, candidates: seq<Candidate>, analyze: Analysis, below: Nesting)
    requires IsIteration(configs, candidates)
    ensures forall k :: 0 <= k < |configs| ==>
              Accounted(Found(candidates, analyze, below), PythonCandidate(configs, Dir(configs[k])), analyze, below)
    ensures DistinctPaths(Found(candidates, analyze, below))
  {
    forall k | 0 <= k < |configs|
      ensures Accounted(Found(candidates, analyze, below), PythonCandidate(configs, Dir(configs[k])), analyze, below)
    {
      assert Listed(candidates, Dir(configs[k]));
      var i :| 0 <= i < |candidates| && candidates[i].dir == Dir(configs[k]);
      EveryCandidateAccounted(candidates, analyze, below, i);
    }
    DistinctPathsIff(candidates, analyze, below);
  }

  lemma SameInEveryIteration(configs: seq<string>, a: seq<Candidate>, b: seq<Candidate>, i: nat) returns (k: nat)
    requires IsIteration(configs, a) && IsIteration(configs, b) && i < |a|
    ensures k < |b| && b[k] == a[i]
  {
    GroupIsEmptyIff(configs, a[i].dir);
    var c :| 0 <= c < |configs| && Dir(configs[c]) == a[i].dir;
    assert Listed(b, Dir(configs[c]));
    k :| 0 <= k < |b| && b[k].dir == a[i].dir;
  }

  function ToFront(candidates: seq<Candidate>, i: nat): seq<Candidate>
    requires i < |candidates|
  {
    [candidates[i]] + Without(candidates, i)
  }

  lemma ToFrontAt(candidates: seq<Candidate>, i: nat, j: nat)
    requires i < |candidates| && j < |candidates|
    ensures |ToFront(candidates, i)| == |candidates|
    ensures ToFront(candidates, i)[if j == i then 0 else if j < i then j + 1 else j] == candidates[j]
  {
  }

  lemma ToFrontFrom(candidates: seq<Candidate>, i: nat, k: nat)
    requires i < |candidates| && k < |candidates|
    ensures ToFront(candidates, i)[k] == candidates[if k == 0 then i else if k <= i then k - 1 else k]
  {
  }

  lemma ToFrontIsIteration(configs: seq<string>, candidates: seq<Candidate>, i: nat)
    requires IsIteration(configs, candidates) && i < |candidates|
    ensures IsIteration(configs, ToFront(candidates, i))
  {
    var order := ToFront(candidates, i);
    forall k | 0 <= k < |order|
      ensures order[k] == candidates[if k == 0 then i else if k <= i then k - 1 else k]
    {
      ToFrontFrom(candidates, i, k);
    }
    forall k | 0 <= k < |configs|
      ensures Listed(order, Dir(configs[k]))
    {
      assert Listed(candidates, Dir(configs[k]));
      var j :| 0 <= j < |candidates| && candidates[j].dir == Dir(configs[k]);
      ToFrontAt(candidates, i, j);
    }
  }

  predicate AnalysableBelow(candidates: seq<Candidate>, i: int, j: int, analyze: Analysis) {
    && 0 <= i < |candidates| && 0 <= j < |candidates| && Below(candidates[j].dir, candidates[i].dir)
    && Analysable(candidates[i], analyze) && Analysable(candidates[j], analyze)
  }

  lemma FrontNests(candidates: seq<Candidate>, i: nat, j: nat, analyze: Analysis)
    requires AnalysableBelow(candidates, i, j, analyze)
    ensures Nests(Found(ToFront(candidates, i), analyze, Below))
  {
    var order := ToFront(candidates, i);
    var k := if j < i then j + 1 else j;
    BelowIsIrreflexive(candidates[i].dir);
    ToFrontAt(candidates, i, i);
    ToFrontAt(candidates, i, j);
    assert InnerBeforeOuter(order, 0, k, analyze, Below);
    FoundNestIff(order, analyze);
  }

  /** Some order of the map makes the Python projects found nest exactly when some analysable directory
      lies below another. */
  lemma PythonCanNestIff(configs: seq<string>, candidates: seq<Candidate>, analyze: Analysis)
    requires IsIteration(configs, candidates)
    ensures (exists order :: IsIteration(configs, order) && Nests(Found(order, analyze, Below))) <==>
            exists i, j :: AnalysableBelow(candidates, i, j, analyze)
  {
    if order :| IsIteration(configs, order) && Nests(Found(order, analyze, Below)) {
      FoundNestIff(order, analyze);
      var i, j :| InnerBeforeOuter(order, i, j, analyze, Below);
      var k := SameInEveryIteration(configs, order, candidates, i);
      var l := SameInEveryIteration(configs, order, candidates, j);
      assert AnalysableBelow(candidates, k, l, analyze);
    }
    if i, j :| AnalysableBelow(candidates, i, j, analyze) {
      ToFrontIsIteration(configs, candidates, i);
      FrontNests(candidates, i, j, analyze);
    }
  }

  lemma {:induction false} JavaCandidateAt(configs: seq<string>, k: nat)
    requires k < |configs|
    ensures JavaCandidates(configs)[k] == JavaCandidate(configs[k])
  {
    if k < |configs| - 1 {
      JavaCandidateAt(configs[..|configs| - 1], k);
    }
  }

  /** Every Java configuration file's directory is found, could not be analysed, or lies below a found
      one; and none is below one found earlier. */
  lemma JavaCoversEveryFile(configs: seq<string>, analyze: Analysis, k: nat)
    requires k < |configs|
    ensures var found := Found(JavaCandidates(configs), analyze, Below);
            Accounted(found, JavaCandidate(configs[k]), analyze, Below) && NoneBelow(found, Below)
  {
    JavaCandidateAt(configs, k);
    EveryCandidateAccounted(JavaCandidates(configs), analyze, Below, k);
    NoneBelowEarlier(JavaCandidates(configs), analyze, Below);
  }

  lemma AllAcceptedDistinctIff(candidates: seq<Candidate>, dirs: seq<string>, analyze: Analysis, below: Nesting)
    requires |dirs| == |candidates|
    requires forall k :: 0 <= k < |dirs| ==> candidates[k].dir == dirs[k] && Accepted(candidates, k, analyze, below)
    ensures DistinctPaths(Found(candidates, analyze, below)) <==> NoDuplicates(dirs)
  {
    DistinctPathsIff(candidates, analyze, below);
    forall i, j | 0 <= i < j < |dirs|
      ensures AcceptedPair(candidates, i, j, analyze, below)
      ensures candidates[i].dir == candidates[j].dir <==> dirs[i] == dirs[j]
    {
      AllPairsAccepted(candidates, i, j, analyze, below);
    }
  }

  /** In Java, when every file can be analysed and no file's directory lies below another's, no
      directory is found twice exactly when no two files share one. */
  lemma JavaDirectoriesDistinctIff(configs: seq<string>, analyze: Analysis)
    requires forall k :: 0 <= k < |configs| ==> analyze(Dir(configs[k]), [configs[k]]).Some?
    requires forall i, j :: 0 <= i < |configs| && 0 <= j < |configs| ==> !Below(Dir(configs[i]), Dir(configs[j]))
    ensures DistinctPaths(Found(JavaCandidates(configs), analyze, Below)) <==> NoDuplicates(Map(Dir, configs))
  {
    var candidates, dirs := JavaCandidates(configs), Map(Dir, configs);
    forall k | 0 <= k < |configs|
      ensures candidates[k].dir == dirs[k] && Accepted(candidates, k, analyze, Below)
    {
      JavaFileAccepted(configs, analyze, k);
    }
    AllAcceptedDistinctIff(candidates, dirs, analyze, Below);
  }

  lemma JavaFileAccepted(configs: seq<string>, analyze: Analysis, k: nat)
    requires k < |configs| && analyze(Dir(configs[k]), [configs[k]]).Some?
    requires forall i :: 0 <= i < |configs| ==> !Below(Dir(configs[i]), Dir(configs[k]))
    ensures JavaCandidates(configs)[k] == JavaCandidate(configs[k])
    ensures Accepted(JavaCandidates(configs), k, analyze, Below)
  {
    var candidates := JavaCandidates(configs);
    var found := Found(candidates[..k], analyze, Below);
    JavaCandidateAt(configs, k);
    forall i | 0 <= i < |found|
      ensures !Below(found[i].modulePath, Dir(configs[k]))
    {
      FoundAreCandidates(candidates[..k], analyze, Below, i);
      var c :| 0 <= c < k && IsProjectOf(found[i], candidates[..k][c], analyze);
      JavaCandidateAt(configs, c);
      assert candidates[..k][c] == candidates[c];
    }
  }

  /** In Java the same directory is found once for each of its configuration files. */
  lemma JavaKeepsTheSameDirectoryTwice(pom: string, gradle: string, analyze: Analysis)
    requires Dir(pom) == Dir(gradle)
    requires analyze(Dir(pom), [pom]).Some? && analyze(Dir(gradle), [gradle]).Some?
    ensures !DistinctPaths(Found(JavaCandidates([pom, gradle]), analyze, Below))
  {
    var a, b := JavaCandidate(pom), JavaCandidate(gradle);
    JavaCandidateAt([pom, gradle], 0);
    JavaCandidateAt([pom, gradle], 1);
    assert JavaCandidates([pom, gradle]) == [a, b];
    FoundPair(a, b, analyze, Below);
    BelowIsIrreflexive(Dir(pom));
    var found := Found([a, b], analyze, Below);
    assert found[0].modulePath == found[1].modulePath;
  }
}
