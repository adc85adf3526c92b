/** Source discovery, source-to-target path mapping and change-aware work selection of
    `CppToPythonConverter` (`find_cpp_files`, `get_python_filename`, and the filtering loop of
    `convert_folder`). */
module Discovery {
  import opened Wrappers
  import opened Strings
  import opened Paths
  import opened Seqs

  /** Suffixes, lower-cased, that mark a C++ source or header. */
  const CppExtensions: set<string> := {".cpp", ".cc", ".cxx", ".c++", ".h", ".hpp", ".hxx", ".h++"}
  const HeaderExtensions: set<string> := {".h", ".hpp", ".hxx", ".h++"}

  predicate IsCppFile(p: Path)
  {
    LowerAscii(Suffix(Name(p))) in CppExtensions
  }

  // ---- discovery ---------------------------------------------------------------------

  /** The full paths of the walk's files, given relative to `sourceDir`, in walk order. */
  function Under(sourceDir: Path, walk: seq<Path>): (r: seq<Path>)
    ensures |r| == |walk|
    ensures forall k :: 0 <= k < |walk| ==> r[k] == sourceDir + walk[k]
  {
    if |walk| == 0 then []
    else [sourceDir + walk[0]] + Under(sourceDir, walk[1..])
  }

  /** The C++ files among `paths`, in order. */
  function CppFilesIn(paths: seq<Path>): (r: seq<Path>)
    ensures |r| <= |paths|
  {
    KeepUpTo(paths, |paths|, CppPaths(paths))
  }

  /** Which of `paths` are C++ files. */
  function CppPaths(paths: seq<Path>): set<Path>
  {
    set p | p in paths && IsCppFile(p)
  }

  lemma CppFilesInMembers(paths: seq<Path>, p: Path)
    ensures p in CppFilesIn(paths) <==> p in paths && IsCppFile(p)
  {
    KeepUpToMembers(paths, |paths|, CppPaths(paths), p);
    assert paths[..|paths|] == paths;
  }

  /** A path is one of the walk's exactly when it lies under `sourceDir` and the rest of it is
      what the walk yields. */
  lemma UnderMembers(sourceDir: Path, walk: seq<Path>, p: Path)
    ensures p in Under(sourceDir, walk) <==> IsPrefix(sourceDir, p) && p[|sourceDir|..] in walk
  {
    if IsPrefix(sourceDir, p) && p[|sourceDir|..] in walk {
      var k :| 0 <= k < |walk| && walk[k] == p[|sourceDir|..];
      assert p == sourceDir + walk[k];
    }
    if p in Under(sourceDir, walk) {
      var k :| 0 <= k < |walk| && Under(sourceDir, walk)[k] == p;
      assert p[|sourceDir|..] == walk[k];
    }
  }

  predicate Sorted(s: seq<Path>)
  {
    forall i, j :: 0 <= i < j < |s| ==> PathLe(s[i], s[j])
  }

  function Insert(x: Path, s: seq<Path>): (r: seq<Path>)
    ensures multiset(r) == multiset(s) + multiset{x}
  {
    if |s| == 0 then [x]
    else if PathLe(x, s[0]) then [x] + s
    else
      assert s == [s[0]] + s[1..];
      [s[0]] + Insert(x, s[1..])
  }

  /** Inserting into a sorted sequence keeps it sorted. */
  lemma {:induction false} InsertSorted(x: Path, s: seq<Path>)
    requires Sorted(s)
    ensures Sorted(Insert(x, s))
  {
    if |s| > 0 {
      if PathLe(x, s[0]) {
        forall y | y in s ensures PathLe(x, y) {
          SortedHeadIsLeast(s, y);
          PathLeTransitive(x, s[0], y);
        }
        ConsSorted(x, s);
      } else {
        SortedTail(s);
        InsertSorted(x, s[1..]);
        var rest := Insert(x, s[1..]);
        PathLeTotal(x, s[0]);
        forall y | y in rest ensures PathLe(s[0], y) {
          assert y in multiset(rest);
          if y != x {
            assert y in multiset(s[1..]);
            assert s[1..][0..] == s[1..];
            SortedHeadIsLeast(s, y);
          }
        }
        ConsSorted(s[0], rest);
      }
    }
  }

  /** A head at most every element of a sorted tail gives a sorted sequence. */
  lemma ConsSorted(h: Path, rest: seq<Path>)
    requires Sorted(rest)
    requires forall y :: y in rest ==> PathLe(h, y)
    ensures Sorted([h] + rest)
  {
    forall i, j | 0 <= i < j < |rest| + 1 ensures PathLe(([h] + rest)[i], ([h] + rest)[j]) {
      assert ([h] + rest)[j] == rest[j - 1];
      if i > 0 {
        assert ([h] + rest)[i] == rest[i - 1];
      }
    }
  }

  /** `sorted()` on paths, by insertion. */
  function SortPaths(s: seq<Path>): (r: seq<Path>)
    ensures Sorted(r)
    ensures multiset(r) == multiset(s)
  {
    if |s| == 0 then []
    else
      assert s == s[..|s| - 1] + [s[|s| - 1]];
      var sorted := SortPaths(s[..|s| - 1]);
      InsertSorted(s[|s| - 1], sorted);
      Insert(s[|s| - 1], sorted)
  }

  /** The head of a sorted sequence is at most each of its elements. */
  lemma SortedHeadIsLeast(s: seq<Path>, x: Path)
    requires Sorted(s) && x in s
    ensures PathLe(s[0], x)
  {
    var i :| 0 <= i < |s| && s[i] == x;
    if i == 0 {
      PathLeTotal(x, x);
    }
  }

  lemma SortedTail(s: seq<Path>)
    requires Sorted(s) && |s| > 0
    ensures Sorted(s[1..])
  {
    forall i, j | 0 <= i < j < |s| - 1 ensures PathLe(s[1..][i], s[1..][j]) {
      assert s[1..][i] == s[i + 1] && s[1..][j] == s[j + 1];
    }
  }

  /** Paths are totally ordered, so a sorted arrangement of a collection of paths is unique:
      any correct sort, Python's `sorted` included, yields `SortPaths`. */
  lemma {:induction false} SortedUnique(a: seq<Path>, b: seq<Path>)
    requires Sorted(a) && Sorted(b) && multiset(a) == multiset(b)
    ensures a == b
  {
    if |a| > 0 {
      assert |b| > 0 by { assert |multiset(b)| == |multiset(a)|; }
      assert a[0] in multiset(b) && b[0] in multiset(a);
      SortedHeadIsLeast(b, a[0]);
      SortedHeadIsLeast(a, b[0]);
      PathLeAntisymmetric(a[0], b[0]);
      assert a == [a[0]] + a[1..] && b == [b[0]] + b[1..];
      assert multiset(a[1..]) == multiset(a) - multiset{a[0]};
      assert multiset(b[1..]) == multiset(b) - multiset{b[0]};
      SortedTail(a);
      SortedTail(b);
      SortedUnique(a[1..], b[1..]);
    }
  }

  /** The files discovery keeps are exactly the walk's C++ files under `sourceDir`. */
  lemma DiscoveredMembers(sourceDir: Path, walk: seq<Path>, p: Path)
    ensures p in CppFilesIn(Under(sourceDir, walk)) <==>
      IsPrefix(sourceDir, p) && p[|sourceDir|..] in walk && IsCppFile(p)
  {
    CppFilesInMembers(Under(sourceDir, walk), p);
    UnderMembers(sourceDir, walk, p);
  }

  /** `find_cpp_files`: collects the C++ files of the walk, then sorts them. The result is
      sorted and holds the C++ files of the walk, each as often as the walk yields it. */
  method FindCppFiles(sourceDir: Path, walk: seq<Path>) returns (files: seq<Path>)
    ensures Sorted(files)
    ensures multiset(files) == multiset(CppFilesIn(Under(sourceDir, walk)))
  {
    var found := CollectCppFiles(sourceDir, walk);
    files := SortPaths(found);
  }

  /** The walk itself: every file's full path, kept when its suffix marks C++. */
  method CollectCppFiles(sourceDir: Path, walk: seq<Path>) returns (found: seq<Path>)
    ensures found == CppFilesIn(Under(sourceDir, walk))
  {
    found := [];
    var i := 0;
    while i < |walk|
      invariant 0 <= i <= |walk|
      invariant found == KeepUpTo(Under(sourceDir, walk), i, CppPaths(Under(sourceDir, walk)))
    {
      found := Visit(found, sourceDir, walk, i);
      i := i + 1;
    }
  }

  /** One file of the walk: kept when its suffix, lower-cased, is a C++ one. */
  method Visit(found: seq<Path>, sourceDir: Path, walk: seq<Path>, i: nat) returns (found': seq<Path>)
    requires i < |walk|
    requires found == KeepUpTo(Under(sourceDir, walk), i, CppPaths(Under(sourceDir, walk)))
    ensures found' == KeepUpTo(Under(sourceDir, walk), i + 1, CppPaths(Under(sourceDir, walk)))
  {
    var filePath := sourceDir + walk[i];
    assert filePath == Under(sourceDir, walk)[i];
    found' := found;
    if LowerAscii(Suffix(Name(filePath))) in CppExtensions {
      found' := found + [filePath];
    }
  }

  /** Hence a path is discovered exactly when it is one of the walk's C++ files. */
  lemma FoundMembers(files: seq<Path>, sourceDir: Path, walk: seq<Path>, p: Path)
    requires multiset(files) == multiset(CppFilesIn(Under(sourceDir, walk)))
    ensures p in files <==> IsPrefix(sourceDir, p) && p[|sourceDir|..] in walk && IsCppFile(p)
  {
    DiscoveredMembers(sourceDir, walk, p);
    assert p in files <==> p in multiset(files);
    assert p in CppFilesIn(Under(sourceDir, walk)) <==> p in multiset(CppFilesIn(Under(sourceDir, walk)));
  }

  /** Every discovered file, in the sorted order discovery returns, lies under `sourceDir`. */
  lemma DiscoveredAreUnder(sourceDir: Path, walk: seq<Path>)
    ensures forall f :: f in SortPaths(CppFilesIn(Under(sourceDir, walk))) ==> IsPrefix(sourceDir, f)
  {
    forall f | f in SortPaths(CppFilesIn(Under(sourceDir, walk))) ensures IsPrefix(sourceDir, f) {
      FoundMembers(SortPaths(CppFilesIn(Under(sourceDir, walk))), sourceDir, walk, f);
    }
  }

  // ---- target path -------------------------------------------------------------------

  /** `get_python_filename`: the target keeps the source's position relative to `sourceDir`
      under `targetDir` and is named by the stem with ".py". `relative_to` raises when the source
      is not under `sourceDir`. Headers and sources are named the same way. */
  function GetPythonFilename(cppPath: Path, sourceDir: Path, targetDir: Path): (r: Option<Path>)
    ensures r.Some? <==> IsPrefix(sourceDir, cppPath)
  {
    match RelativeTo(cppPath, sourceDir)
    case None => None
    case Some(rel) =>
      var pythonName :=
        if LowerAscii(Suffix(Name(rel))) in HeaderExtensions then Stem(Name(rel)) + ".py"
        else Stem(Name(rel)) + ".py";
      Some(targetDir + Parent(rel) + [pythonName])
  }

  /** The target lies under `targetDir`, in the directory that mirrors the source's, and is
      named by the source's stem with ".py". */
  lemma TargetLayout(cppPath: Path, sourceDir: Path, targetDir: Path)
    requires IsPrefix(sourceDir, cppPath)
    ensures var r := GetPythonFilename(cppPath, sourceDir, targetDir).value;
      var rel := cppPath[|sourceDir|..];
      && IsPrefix(targetDir, r)
      && Parent(r) == targetDir + Parent(rel)
      && Name(r) == Stem(Name(rel)) + ".py"
  {
    var rel := cppPath[|sourceDir|..];
    var r := GetPythonFilename(cppPath, sourceDir, targetDir).value;
    assert r == (targetDir + Parent(rel)) + [Stem(Name(rel)) + ".py"];
    assert Parent(r) == targetDir + Parent(rel);
  }

  /** A header and a source with the same stem in the same directory map to the same target. */
  lemma SameStemSameTarget(a: Path, b: Path, sourceDir: Path, targetDir: Path)
    requires IsPrefix(sourceDir, a) && IsPrefix(sourceDir, b)
    requires Parent(a) == Parent(b) && Stem(Name(a)) == Stem(Name(b))
    requires |a| > |sourceDir| && |b| > |sourceDir|
    ensures GetPythonFilename(a, sourceDir, targetDir) == GetPythonFilename(b, sourceDir, targetDir)
  {
    var ra, rb := a[|sourceDir|..], b[|sourceDir|..];
    assert Name(ra) == Name(a) && Name(rb) == Name(b);
    assert Parent(ra) == Parent(a)[|sourceDir|..];
    assert Parent(rb) == Parent(b)[|sourceDir|..];
  }

  /** Conversely, equal targets come from sources with the same relative directory and the
      same stem: the mapping loses nothing else. */
  lemma SameTargetSameStem(a: Path, b: Path, sourceDir: Path, targetDir: Path)
    requires IsPrefix(sourceDir, a) && IsPrefix(sourceDir, b)
    requires GetPythonFilename(a, sourceDir, targetDir) == GetPythonFilename(b, sourceDir, targetDir)
    ensures Parent(a[|sourceDir|..]) == Parent(b[|sourceDir|..])
    ensures Stem(Name(a[|sourceDir|..])) == Stem(Name(b[|sourceDir|..]))
  {
    TargetLayout(a, sourceDir, targetDir);
    TargetLayout(b, sourceDir, targetDir);
    var pa, pb := Parent(a[|sourceDir|..]), Parent(b[|sourceDir|..]);
    assert targetDir + pa == targetDir + pb;
    assert pa == (targetDir + pa)[|targetDir|..];
    assert pb == (targetDir + pb)[|targetDir|..];
    var sa, sb := Stem(Name(a[|sourceDir|..])), Stem(Name(b[|sourceDir|..]));
    assert sa + ".py" == sb + ".py";
    assert sa == (sa + ".py")[..|sa|];
    assert sb == (sb + ".py")[..|sb|];
  }

  // ---- change detection --------------------------------------------------------------

  /** `f"{str(cpp_file)}:{file_hash}"`. */
  function CacheKey(p: Path, hash: string): (r: string)
    ensures |r| == |PathText(p)| + 1 + |hash|
    ensures ':' !in hash ==> LastIndexOf(r, ':') == |PathText(p)|
  {
    if ':' in hash then PathText(p) + ":" + hash
    else
      LastColon(PathText(p), hash);
      PathText(p) + ":" + hash
  }

  /** A content digest holds no ':' (an MD5 hex digest, or "" when the file cannot be read),
      so the key determines both the path text and the digest: a file whose content digest
      changes gets a new key. */
  lemma CacheKeyInjective(p: Path, h: string, q: Path, g: string)
    requires ':' !in h && ':' !in g
    requires CacheKey(p, h) == CacheKey(q, g)
    ensures PathText(p) == PathText(q) && h == g
  {
    var k := CacheKey(p, h);
    LastColon(PathText(p), h);
    LastColon(PathText(q), g);
    assert |PathText(p)| == |PathText(q)|;
    assert PathText(p) == k[..|PathText(p)|] == PathText(q);
    assert h == k[|PathText(p)| + 1..] == g;
  }

  /** The separator is the last ':' of a key whose digest has none. */
  lemma LastColon(a: string, h: string)
    requires ':' !in h
    ensures LastIndexOf(a + ":" + h, ':') == |a|
  {
    LastColonBefore(a, h, |a| + 1 + |h|);
  }

  lemma {:induction false} LastColonBefore(a: string, h: string, n: nat)
    requires ':' !in h && |a| < n <= |a| + 1 + |h|
    ensures LastIndexBefore(a + ":" + h, ':', n) == |a|
  {
    var s := a + ":" + h;
    if n > |a| + 1 {
      assert s[n - 1] == h[n - 2 - |a|];
      LastColonBefore(a, h, n - 1);
    } else {
      assert s[n - 1] == ':';
    }
  }

  datatype Job = Job(source: Path, target: Path, key: string)

  /** The job `convert_folder` builds for a discovered file: its target and its cache key. */
  function JobFor(f: Path, sourceDir: Path, targetDir: Path, hash: Path -> string): Job
    requires IsPrefix(sourceDir, f)
  {
    Job(f, GetPythonFilename(f, sourceDir, targetDir).value, CacheKey(f, hash(f)))
  }

  /** The candidate jobs of the discovered files, in discovery order. */
  function Plan(files: seq<Path>, sourceDir: Path, targetDir: Path, hash: Path -> string): (jobs: seq<Job>)
    requires forall f :: f in files ==> IsPrefix(sourceDir, f)
    ensures |jobs| == |files|
    ensures forall k :: 0 <= k < |files| ==> jobs[k] == JobFor(files[k], sourceDir, targetDir, hash)
  {
    if |files| == 0 then []
    else [JobFor(files[0], sourceDir, targetDir, hash)] + Plan(files[1..], sourceDir, targetDir, hash)
  }

  /** A file is converted again when its key is not cached or its target file is missing. */
  predicate NeedsConversion(j: Job, cache: set<string>, existing: set<Path>)
  {
    j.key !in cache || j.target !in existing
  }

  /** The jobs `convert_folder` queues, in discovery order. */
  function Selection(jobs: seq<Job>, cache: set<string>, existing: set<Path>): (r: seq<Job>)
    ensures |r| <= |jobs|
  {
    if |jobs| == 0 then []
    else
      var n := |jobs| - 1;
      var rest := Selection(jobs[..n], cache, existing);
      if NeedsConversion(jobs[n], cache, existing) then rest + [jobs[n]] else rest
  }

  lemma SelectionStep(jobs: seq<Job>, cache: set<string>, existing: set<Path>, i: nat)
    requires i < |jobs|
    ensures Selection(jobs[..i + 1], cache, existing)
      == Selection(jobs[..i], cache, existing) + if NeedsConversion(jobs[i], cache, existing) then [jobs[i]] else []
  {
    assert jobs[..i + 1][..i] == jobs[..i];
  }

  /** A job is queued exactly when it is planned and needs conversion. */
  lemma {:induction false} SelectionMembers(jobs: seq<Job>, cache: set<string>, existing: set<Path>, j: Job)
    ensures j in Selection(jobs, cache, existing) <==> j in jobs && NeedsConversion(j, cache, existing)
  {
    if |jobs| > 0 {
      var n := |jobs| - 1;
      SelectionMembers(jobs[..n], cache, existing, j);
      assert jobs == jobs[..n] + [jobs[n]];
    }
  }

  /** Selection keeps discovery order: the queued jobs form a subsequence of the planned ones. */
  lemma {:induction false} SelectionKeepsOrder(jobs: seq<Job>, cache: set<string>, existing: set<Path>)
    ensures IsSubsequence(Selection(jobs, cache, existing), jobs)
  {
    if |jobs| == 0 {
      assert IsSubsequence(jobs, jobs);
    } else {
      var n := |jobs| - 1;
      SelectionKeepsOrder(jobs[..n], cache, existing);
      SubsequenceAppend(Selection(jobs[..n], cache, existing), jobs[..n], jobs[n],
                        NeedsConversion(jobs[n], cache, existing));
      assert jobs[..n] + [jobs[n]] == jobs;
    }
  }

  /** Files that are left alone because their key is cached and their target exists. */
  function CachedCount(jobs: seq<Job>, cache: set<string>, existing: set<Path>): nat
  {
    if |jobs| == 0 then 0
    else
      var n := |jobs| - 1;
      CachedCount(jobs[..n], cache, existing) + if NeedsConversion(jobs[n], cache, existing) then 0 else 1
  }

  /** The "already converted (cached)" figure, total minus queued, counts exactly the files
      whose key is cached and whose target exists. */
  lemma {:induction false} CachedIsTotalMinusQueued(jobs: seq<Job>, cache: set<string>, existing: set<Path>)
    ensures |jobs| - |Selection(jobs, cache, existing)| == CachedCount(jobs, cache, existing)
  {
    if |jobs| > 0 {
      CachedIsTotalMinusQueued(jobs[..|jobs| - 1], cache, existing);
    }
  }

  /** The filtering loop of `convert_folder`: it queues, in order, the planned job of each
      discovered file that needs conversion. */
  method SelectWork(files: seq<Path>, sourceDir: Path, targetDir: Path, hash: Path -> string,
                    cache: set<string>, existing: set<Path>) returns (jobs: seq<Job>)
    requires forall f :: f in files ==> IsPrefix(sourceDir, f)
    ensures jobs == Selection(Plan(files, sourceDir, targetDir, hash), cache, existing)
  {
    jobs := [];
    var i := 0;
    while i < |files|
      invariant 0 <= i <= |files|
      invariant jobs == Selection(Plan(files, sourceDir, targetDir, hash)[..i], cache, existing)
    {
      jobs := Consider(jobs, files, i, sourceDir, targetDir, hash, cache, existing);
      i := i + 1;
    }
    assert Plan(files, sourceDir, targetDir, hash)[..i] == Plan(files, sourceDir, targetDir, hash);
  }

  /** One discovered file: its target and key, and whether it is queued. */
  method Consider(jobs: seq<Job>, files: seq<Path>, i: nat, sourceDir: Path, targetDir: Path,
                  hash: Path -> string, cache: set<string>, existing: set<Path>) returns (jobs': seq<Job>)
    requires forall f :: f in files ==> IsPrefix(sourceDir, f)
    requires i < |files| && jobs == Selection(Plan(files, sourceDir, targetDir, hash)[..i], cache, existing)
    ensures jobs' == Selection(Plan(files, sourceDir, targetDir, hash)[..i + 1], cache, existing)
  {
    ghost var plan := Plan(files, sourceDir, targetDir, hash);
    var cppFile := files[i];
    var pythonFile := GetPythonFilename(cppFile, sourceDir, targetDir).value;
    var cacheKey := CacheKey(cppFile, hash(cppFile));
    assert plan[i] == Job(cppFile, pythonFile, cacheKey);
    SelectionStep(plan, cache, existing, i);
    jobs' := jobs;
    if cacheKey !in cache || pythonFile !in existing {
      jobs' := jobs + [Job(cppFile, pythonFile, cacheKey)];
    }
  }
}
