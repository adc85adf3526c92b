/** `CppToPythonConverter`: the dispatcher that finds C++ files, skips the ones already
    converted, sends the rest to a chat-completion endpoint under a per-key rate limit, writes
    the cleaned replies into a mirrored target tree, and checkpoints what it has converted. */
module Converter {
  import opened Wrappers
  import opened Strings
  import opened Paths
  import opened RateLimit
  import opened Reply
  import opened Discovery
  import Dicts

  // ---- keys --------------------------------------------------------------------------

  /** The key list `__init__` builds: with a comma, the comma-separated pieces, each stripped
      (so empty pieces stay as empty keys); without one, the text itself, unstripped. */
  function ParseKeys(apiKey: string): (keys: seq<string>)
    ensures |keys| >= 1
    ensures ',' !in apiKey ==> keys == [apiKey]
    ensures ',' in apiKey ==> |keys| == Count(apiKey, ',') + 1
    ensures ',' in apiKey ==> forall k :: 0 <= k < |keys| ==> IsTrimmed(keys[k])
  {
    if ',' in apiKey then
      var parts := Split(apiKey, ',');
      seq(|parts|, k requires 0 <= k < |parts| => Trim(parts[k]))
    else [apiKey]
  }

  /** Key `k` is the `k`-th comma-separated piece, stripped: any two or more comma-free
      pieces joined by commas parse to the pieces' stripped texts. With `JoinSplit` this covers
      every key string that holds a comma. */
  lemma ParseKeysJoin(pieces: seq<string>)
    requires |pieces| >= 2
    requires forall k :: 0 <= k < |pieces| ==> ',' !in pieces[k]
    ensures ParseKeys(Join(pieces, ',')) == seq(|pieces|, k requires 0 <= k < |pieces| => Trim(pieces[k]))
  {
    var s := Join(pieces, ',');
    assert s == pieces[0] + [','] + Join(pieces[1..], ',');
    assert s[|pieces[0]|] == ',';
    SplitJoin(pieces, ',');
  }

  /** Stripped, comma-free keys joined by commas parse back to exactly those keys. */
  lemma ParseKeysRoundTrip(keys: seq<string>)
    requires |keys| >= 2
    requires forall k :: 0 <= k < |keys| ==> IsTrimmed(keys[k]) && ',' !in keys[k]
    ensures ParseKeys(Join(keys, ',')) == keys
  {
    ParseKeysJoin(keys);
    forall k | 0 <= k < |keys| ensures Trim(keys[k]) == keys[k] {
      TrimOfTrimmed(keys[k]);
    }
  }

  /** The index `get_next_api_key` moves to. */
  function NextKeyIndex(i: nat, n: nat): (r: nat)
    requires n >= 1
    ensures r < n
  {
    (i + 1) % n
  }

  /** The index reached after `j` calls of `get_next_api_key` starting at index `i`. */
  function Rotate(i: nat, n: nat, j: nat): (r: nat)
    requires n >= 1
    ensures j > 0 ==> r < n
  {
    if j == 0 then i else NextKeyIndex(Rotate(i, n, j - 1), n)
  }

  lemma ModNext(v: nat, n: nat)
    requires v < n
    ensures (v + 1) % n == if v + 1 < n then v + 1 else 0
  {
    if v + 1 == n {
      assert (v + 1) % n == n % n;
    }
  }

  /** Within one round the index climbs from `i` and wraps to 0 after the last key. */
  lemma {:induction false} RotateValue(i: nat, n: nat, j: nat)
    requires n >= 1 && i < n && j <= n
    ensures Rotate(i, n, j) == if i + j < n then i + j else i + j - n
  {
    if j > 0 {
      RotateValue(i, n, j - 1);
      ModNext(Rotate(i, n, j - 1), n);
    }
  }

  /** How many calls after index `i` the key at index `k` comes up. */
  function CallsUntil(i: nat, k: nat, n: nat): nat
    requires i < n && k < n
  {
    if k >= i then k - i else k + n - i
  }

  /** Starting anywhere, each of the `n` keys comes up within `n` calls, and after `n` calls
      the index is back where it started. */
  lemma RotationVisitsEveryKey(i: nat, n: nat)
    requires n >= 1 && i < n
    ensures forall k :: 0 <= k < n ==> CallsUntil(i, k, n) < n && Rotate(i, n, CallsUntil(i, k, n)) == k
    ensures Rotate(i, n, n) == i
  {
    forall k | 0 <= k < n ensures Rotate(i, n, CallsUntil(i, k, n)) == k {
      RotateValue(i, n, CallsUntil(i, k, n));
    }
    RotateValue(i, n, n);
  }

  // ---- the cache file ----------------------------------------------------------------

  /** What the cache file holds: nothing, something that cannot be read or parsed as the
      expected JSON, or the JSON object with its `converted_files` list and `timestamp`. */
  datatype CacheFile =
    | NoCacheFile
    | Unreadable
    | CacheJson(convertedFiles: Option<seq<string>>, timestamp: Option<int>)

  /** The cache `load_conversion_cache` leaves: unchanged without a file, empty after a
      read or parse error, and otherwise the keys listed (none when the list is absent). */
  function LoadedCache(current: set<string>, file: CacheFile): (r: set<string>)
    ensures file.NoCacheFile? ==> r == current
    ensures file.Unreadable? ==> r == {}
    ensures file.CacheJson? ==>
      forall x :: x in r <==> file.convertedFiles.Some? && x in file.convertedFiles.value
  {
    match file
    case NoCacheFile => current
    case Unreadable => {}
    case CacheJson(files, _) => if files.Some? then set x | x in files.value else {}
  }

  /** A file written by `save_conversion_cache` for a cache loads back as exactly that cache,
      whatever the converter held before loading. */
  lemma SaveLoadRoundTrip(current: set<string>, cache: set<string>, list: seq<string>, ts: int)
    requires forall x :: x in list <==> x in cache
    ensures LoadedCache(current, CacheJson(Some(list), Some(ts))) == cache
  {
  }

  // ---- the world the dispatcher runs in ---------------------------------------------

  /** Everything outside the converter: whether the source directory exists, the files a
      walk of it yields (relative to it), the text of each source readable as UTF-8, the digest
      of each source readable as bytes, the reply content the endpoint returns for a source
      (absent for a non-200 status or a failed request), the target paths that cannot be
      written, and whether the cache file can be written. Time runs while jobs run: `delay`
      gives the seconds the clock moves on from the previous job, while the earlier requests
      were under way, to the moment a source's job starts; `stamp` gives the conversion date
      its header prints. */
  datatype World = World(
    sourceExists: bool,
    walk: seq<Path>,
    sources: map<Path, string>,
    digests: map<Path, string>,
    replies: map<Path, string>,
    unwritable: set<Path>,
    delay: Path -> nat,
    stamp: Path -> string,
    cacheWritable: bool)

  /** `get_file_hash`: the MD5 digest of the file's bytes, or "" when it cannot be read. */
  function FileHash(w: World, p: Path): string
  {
    if p in w.digests then w.digests[p] else ""
  }

  function HashOf(w: World): Path -> string
  {
    p => FileHash(w, p)
  }

  /** The three comment lines written before the converted code. */
  function Header(source: Path, stamp: string): (r: string)
    ensures StartsWith(r, "# Converted from ")
    ensures |r| >= 2 && r[|r| - 2..] == "\n\n"
  {
    "# Converted from " + Name(source) + "\n"
      + "# Original path: " + PathText(source) + "\n"
      + "# Conversion date: " + stamp + "\n\n"
  }

  /** The source is read and is not blank, so the endpoint is called. */
  predicate Requested(j: Job, w: World)
  {
    j.source in w.sources && !IsBlank(w.sources[j.source])
  }

  /** Everything a conversion needs from the world: a readable non-blank source, a reply,
      and a writable target. */
  predicate Deliverable(j: Job, w: World)
  {
    Requested(j, w) && j.source in w.replies && j.target !in w.unwritable
  }

  /** The text of the target file of a delivered job. */
  function Output(j: Job, w: World): string
    requires j.source in w.replies
  {
    Header(j.source, w.stamp(j.source)) + CleanReply(w.replies[j.source])
  }

  /** The delivered jobs among the first `n`, in order. */
  function DeliveredUpTo(jobs: seq<Job>, n: nat, w: World): (r: seq<Job>)
    requires n <= |jobs|
    ensures |r| <= n
  {
    if n == 0 then []
    else DeliveredUpTo(jobs, n - 1, w) + if Deliverable(jobs[n - 1], w) then [jobs[n - 1]] else []
  }

  /** The delivered jobs, in order. */
  function Delivered(jobs: seq<Job>, w: World): (r: seq<Job>)
    ensures |r| <= |jobs|
  {
    DeliveredUpTo(jobs, |jobs|, w)
  }

  lemma {:induction false} DeliveredUpToMembers(jobs: seq<Job>, n: nat, w: World, j: Job)
    requires n <= |jobs|
    ensures j in DeliveredUpTo(jobs, n, w) <==> j in jobs[..n] && Deliverable(j, w)
  {
    if n > 0 {
      DeliveredUpToMembers(jobs, n - 1, w, j);
      assert jobs[..n] == jobs[..n - 1] + [jobs[n - 1]];
    }
  }

  /** A job is delivered exactly when it is one of the jobs and is deliverable. */
  lemma DeliveredMembers(jobs: seq<Job>, w: World, j: Job)
    ensures j in Delivered(jobs, w) <==> j in jobs && Deliverable(j, w)
  {
    DeliveredUpToMembers(jobs, |jobs|, w, j);
    assert jobs[..|jobs|] == jobs;
  }

  /** The cache keys of the jobs. */
  function KeysOf(jobs: seq<Job>): set<string>
  {
    if |jobs| == 0 then {} else KeysOf(jobs[..|jobs| - 1]) + {jobs[|jobs| - 1].key}
  }

  /** The target paths of the jobs. */
  function TargetsOf(jobs: seq<Job>): set<Path>
  {
    if |jobs| == 0 then {} else TargetsOf(jobs[..|jobs| - 1]) + {jobs[|jobs| - 1].target}
  }

  /** A job's key and target are among those of the jobs it belongs to. */
  lemma {:induction false} KeysAndTargetsOf(jobs: seq<Job>, j: Job)
    requires j in jobs
    ensures j.key in KeysOf(jobs) && j.target in TargetsOf(jobs)
  {
    var n := |jobs| - 1;
    if j != jobs[n] {
      assert jobs == jobs[..n] + [jobs[n]];
      KeysAndTargetsOf(jobs[..n], j);
    }
  }

  lemma {:induction false} DeliveredUpToCount(jobs: seq<Job>, n: nat, w: World, j: Job)
    requires n <= |jobs|
    ensures multiset(DeliveredUpTo(jobs, n, w))[j] == if Deliverable(j, w) then multiset(jobs[..n])[j] else 0
  {
    if n > 0 {
      var last := jobs[n - 1];
      DeliveredUpToCount(jobs, n - 1, w, j);
      assert jobs[..n] == jobs[..n - 1] + [last];
      assert multiset(jobs[..n]) == multiset(jobs[..n - 1]) + multiset{last};
    }
  }

  /** Which jobs are delivered does not depend on the order they complete in. */
  lemma DeliveredPermutation(a: seq<Job>, b: seq<Job>, w: World)
    requires multiset(a) == multiset(b)
    ensures multiset(Delivered(a, w)) == multiset(Delivered(b, w))
  {
    forall j: Job
      ensures multiset(Delivered(a, w))[j] == multiset(Delivered(b, w))[j]
    {
      DeliveredUpToCount(a, |a|, w, j);
      DeliveredUpToCount(b, |b|, w, j);
      assert a[..|a|] == a && b[..|b|] == b;
    }
  }

  lemma {:induction false} KeysAndTargetsAreImages(jobs: seq<Job>)
    ensures KeysOf(jobs) == set j | j in jobs :: j.key
    ensures TargetsOf(jobs) == set j | j in jobs :: j.target
  {
    if |jobs| > 0 {
      var n := |jobs| - 1;
      KeysAndTargetsAreImages(jobs[..n]);
      assert jobs == jobs[..n] + [jobs[n]];
    }
  }

  /** The keys, the targets and the number of the delivered jobs are the same for every
      order in which the queued jobs complete. */
  lemma OrderFree(a: seq<Job>, b: seq<Job>, w: World)
    requires multiset(a) == multiset(b)
    ensures |Delivered(a, w)| == |Delivered(b, w)|
    ensures KeysOf(Delivered(a, w)) == KeysOf(Delivered(b, w))
    ensures TargetsOf(Delivered(a, w)) == TargetsOf(Delivered(b, w))
  {
    var da, db := Delivered(a, w), Delivered(b, w);
    DeliveredPermutation(a, b, w);
    assert |multiset(da)| == |multiset(db)|;
    KeysAndTargetsAreImages(da);
    KeysAndTargetsAreImages(db);
    forall j: Job
      ensures j in da <==> j in db
    {
      assert j in da <==> j in multiset(da);
      assert j in db <==> j in multiset(db);
    }
  }

  /** The text each delivered job writes. */
  function OutputOf(w: World): Job -> string
  {
    (j: Job) => if j.source in w.replies then Output(j, w) else ""
  }

  /** The target tree after the delivered jobs ran in order: each (over)writes its target. */
  function Written(tree: map<Path, string>, done: seq<Job>, out: Job -> string): map<Path, string>
  {
    if |done| == 0 then tree
    else
      var n := |done| - 1;
      Written(tree, done[..n], out)[done[n].target := out(done[n])]
  }

  /** The tree gains exactly the targets of the delivered jobs. */
  lemma {:induction false} WrittenKeys(tree: map<Path, string>, done: seq<Job>, out: Job -> string)
    ensures Written(tree, done, out).Keys == tree.Keys + TargetsOf(done)
  {
    if |done| > 0 {
      WrittenKeys(tree, done[..|done| - 1], out);
    }
  }

  /** A file no delivered job targets keeps its text. */
  lemma {:induction false} WrittenKeepsOthers(tree: map<Path, string>, done: seq<Job>, out: Job -> string, p: Path)
    requires p in tree && p !in TargetsOf(done)
    ensures p in Written(tree, done, out) && Written(tree, done, out)[p] == tree[p]
  {
    if |done| > 0 {
      WrittenKeepsOthers(tree, done[..|done| - 1], out, p);
    }
  }

  /** The last delivered job writing a target decides its text: a header and a source with
      the same stem in the same directory overwrite each other. */
  lemma LastWriterWins(tree: map<Path, string>, done: seq<Job>, out: Job -> string, j: Job)
    ensures Written(tree, done + [j], out)[j.target] == out(j)
  {
    assert (done + [j])[..|done|] == done;
  }

  /** A delivered job adds its key and writes its output over its target. */
  lemma WrittenStep(tree: map<Path, string>, done: seq<Job>, j: Job, w: World)
    requires j.source in w.replies
    ensures Written(tree, done + [j], OutputOf(w)) == Written(tree, done, OutputOf(w))[j.target := Output(j, w)]
    ensures KeysOf(done + [j]) == KeysOf(done) + {j.key}
  {
    assert (done + [j])[..|done|] == done;
  }

  /** What the completion loop has done so far, relative to where it started, once `done`
    are the jobs that succeeded. */
  predicate Tally(count0: nat, saves0: nat, cache0: set<string>, tree0: map<Path, string>, done: seq<Job>, w: World,
                  count: nat, saves: nat, cache: set<string>, tree: map<Path, string>)
  {
    && count == count0 + |done|
    && saves == saves0 + Checkpoints(|done|)
    && cache == cache0 + KeysOf(done)
    && tree == Written(tree0, done, OutputOf(w))
  }

  lemma TallyStep(count0: nat, saves0: nat, cache0: set<string>, tree0: map<Path, string>, done: seq<Job>, w: World,
                  count: nat, saves: nat, cache: set<string>, tree: map<Path, string>, j: Job)
    requires Tally(count0, saves0, cache0, tree0, done, w, count, saves, cache, tree)
    requires j.source in w.replies
    ensures Tally(count0, saves0, cache0, tree0, done + [j], w, count + 1,
                  saves + (if (|done| + 1) % 5 == 0 then 1 else 0), cache + {j.key}, tree[j.target := Output(j, w)])
  {
    WrittenStep(tree0, done, j, w);
  }

  /** Checkpoints taken during the first `n` successes: one at every multiple of five. */
  function Checkpoints(n: nat): nat
  {
    if n == 0 then 0 else Checkpoints(n - 1) + (if n % 5 == 0 then 1 else 0)
  }

  /** There is one checkpoint per five whole successes. */
  lemma {:induction false} CheckpointCount(n: nat)
    ensures Checkpoints(n) == n / 5
  {
    if n > 0 {
      CheckpointCount(n - 1);
      assert n / 5 == (n - 1) / 5 + (if n % 5 == 0 then 1 else 0);
    }
  }

  /** Nothing is selected when no planned job needs conversion. */
  lemma {:induction false} SelectionEmpty(plan: seq<Job>, cache: set<string>, existing: set<Path>)
    requires forall j :: j in plan ==> !NeedsConversion(j, cache, existing)
    ensures Selection(plan, cache, existing) == []
  {
    if |plan| > 0 {
      assert plan[|plan| - 1] in plan;
      SelectionEmpty(plan[..|plan| - 1], cache, existing);
    }
  }

  /** Checkpointing makes a second run idle: when every job the first run selected was
      delivered, adding their keys to the cache and their targets to the tree leaves nothing
      to convert for the same sources. */
  lemma RerunSelectsNothing(plan: seq<Job>, cache: set<string>, existing: set<Path>, w: World)
    requires forall j :: j in Selection(plan, cache, existing) ==> Deliverable(j, w)
    ensures var done := Delivered(Selection(plan, cache, existing), w);
      Selection(plan, cache + KeysOf(done), existing + TargetsOf(done)) == []
  {
    var sel := Selection(plan, cache, existing);
    var done := Delivered(sel, w);
    forall j | j in plan ensures !NeedsConversion(j, cache + KeysOf(done), existing + TargetsOf(done)) {
      SelectionMembers(plan, cache, existing, j);
      if NeedsConversion(j, cache, existing) {
        DeliveredMembers(sel, w, j);
        KeysAndTargetsOf(done, j);
      }
    }
    SelectionEmpty(plan, cache + KeysOf(done), existing + TargetsOf(done));
  }

  /** What `convert_cpp_to_python` yields: the cleaned reply and the key it was sent with, no
      reply, or the `ValueError` the rate limiter raised. */
  datatype ApiOutcome =
    | Code(text: string, apiKey: string)
    | NoReply
    | LimiterRaised

  /** The jobs `convert_folder` queues for a source tree, given the loaded cache and the
      files already in the target tree. */
  function FolderJobs(sourceDir: Path, targetDir: Path, w: World, cache: set<string>, existing: set<Path>): seq<Job>
  {
    DiscoveredAreUnder(sourceDir, w.walk);
    Selection(Plan(SortPaths(CppFilesIn(Under(sourceDir, w.walk))), sourceDir, targetDir, HashOf(w)), cache, existing)
  }

  /** `as_completed` yields every submitted future once: the completion order is a
      permutation of the queued jobs. */
  predicate IsCompletionOrder(completion: seq<Job>, jobs: seq<Job>)
  {
    multiset(completion) == multiset(jobs)
  }

  class CppToPythonConverter {
    const apiUrl: string
    const apiKeys: seq<string>
    const model: string
    const maxWorkers: int
    const rpmLimit: int
    var currentKeyIndex: nat
    var convertedFilesCache: set<string>
    var conversionCount: nat
    /** `request_times`: for each key index, the instants of its requests still on record. */
    var requestTimes: seq<seq<int>>
    /** The wall clock in whole seconds; `time.sleep` advances it. */
    var clock: int
    /** The target tree: the text of every file in it. */
    var targets: map<Path, string>
    /** The cache file on disk. */
    var cacheFile: CacheFile
    /** How many times `save_conversion_cache` has run. */
    var saves: nat

    predicate Valid()
      reads this
    {
      |apiKeys| >= 1 && |requestTimes| == |apiKeys| && currentKeyIndex < |apiKeys|
    }

    constructor (apiUrl: string, apiKey: string, model: string, maxWorkers: int, rpmLimit: int,
                 now: int, tree: map<Path, string>, onDisk: CacheFile)
      ensures Valid()
      ensures this.apiUrl == apiUrl && apiKeys == ParseKeys(apiKey) && this.model == model
      ensures this.maxWorkers == maxWorkers && this.rpmLimit == rpmLimit
      ensures currentKeyIndex == 0 && convertedFilesCache == {} && conversionCount == 0
      ensures forall i :: 0 <= i < |requestTimes| ==> requestTimes[i] == []
      ensures clock == now && targets == tree && cacheFile == onDisk && saves == 0
    {
      this.apiUrl := apiUrl;
      var keys := ParseKeys(apiKey);
      apiKeys := keys;
      this.model := model;
      this.maxWorkers := maxWorkers;
      this.rpmLimit := rpmLimit;
      currentKeyIndex := 0;
      convertedFilesCache := {};
      conversionCount := 0;
      requestTimes := seq(|keys|, _ => []);
      clock := now;
      targets := tree;
      cacheFile := onDisk;
      saves := 0;
    }

    /** `get_next_api_key`: the key at the current index, and the index moves on cyclically. */
    method GetNextApiKey() returns (key: string)
      requires Valid()
      modifies this`currentKeyIndex
      ensures Valid()
      ensures key == apiKeys[old(currentKeyIndex)]
      ensures currentKeyIndex == NextKeyIndex(old(currentKeyIndex), |apiKeys|)
    {
      key := apiKeys[currentKeyIndex];
      currentKeyIndex := (currentKeyIndex + 1) % |apiKeys|;
    }

    /** `wait_for_rate_limit`, step by step; its effect is `Acquire`. */
    method WaitForRateLimit() returns (g: Grant)
      requires Valid()
      modifies this`requestTimes, this`clock
      ensures Valid()
      ensures g == Acquire(old(requestTimes), rpmLimit, old(clock))
      ensures requestTimes == g.times
      ensures clock == if g.Granted? then g.at else old(clock)
    {
      var now := clock;
      var bestKeyIndex, minRequests := PruneAndPick(now - Window);
      ghost var pruned := requestTimes;
      if minRequests >= rpmLimit {
        // min() over the non-empty lists raises ValueError when there are none
        if AllEmpty(requestTimes) {
          g := Raised(requestTimes);
          return;
        }
        SleepUntilFree();
        assert Pause(requestTimes, clock) == Sleep(pruned, now);
      }
      ghost var before := requestTimes;
      requestTimes := requestTimes[bestKeyIndex := requestTimes[bestKeyIndex] + [clock]];
      assert requestTimes == Record(before, bestKeyIndex, clock);
      g := Granted(requestTimes, bestKeyIndex, clock);
    }

    /** The sleep of `wait_for_rate_limit` when even the least-loaded key is at the budget:
      until the oldest entry leaves the window, then every key is pruned again. */
    method SleepUntilFree()
      requires !AllEmpty(requestTimes)
      modifies this`requestTimes, this`clock
      ensures Pause(requestTimes, clock) == Sleep(old(requestTimes), old(clock))
    {
      var oldestTime := Oldest(requestTimes);
      var waitTime := Window - (clock - oldestTime) + 1;
      if waitTime > 0 {
        clock := clock + waitTime;
        PruneEveryKey(clock - Window);
      }
    }

    /** The first loop: prune every key's list to the last minute while tracking the first
      key with the fewest entries. */
    method PruneAndPick(minuteAgo: int) returns (bestKeyIndex: nat, minRequests: nat)
      requires |requestTimes| >= 1
      modifies this`requestTimes
      ensures requestTimes == PruneAll(old(requestTimes), minuteAgo)
      ensures bestKeyIndex == LeastLoaded(requestTimes)
      ensures minRequests == |requestTimes[bestKeyIndex]|
    {
      bestKeyIndex, minRequests := 0, 0;
      var keyIndex := 0;
      while keyIndex < |requestTimes|
        invariant |requestTimes| == |old(requestTimes)|
        invariant 0 <= keyIndex <= |requestTimes|
        invariant forall j :: 0 <= j < keyIndex ==> requestTimes[j] == Prune(old(requestTimes)[j], minuteAgo)
        invariant forall j :: keyIndex <= j < |requestTimes| ==> requestTimes[j] == old(requestTimes)[j]
        invariant keyIndex > 0 ==> bestKeyIndex == LeastLoaded(requestTimes[..keyIndex])
        invariant keyIndex > 0 ==> minRequests == |requestTimes[bestKeyIndex]|
      {
        ghost var before := requestTimes;
        var recentTimes := Prune(requestTimes[keyIndex], minuteAgo);
        requestTimes := requestTimes[keyIndex := recentTimes];
        assert requestTimes[..keyIndex] == before[..keyIndex];
        assert requestTimes[..keyIndex + 1][..keyIndex] == requestTimes[..keyIndex];
        // the first key is compared against float('inf')
        if keyIndex == 0 || |recentTimes| < minRequests {
          minRequests := |recentTimes|;
          bestKeyIndex := keyIndex;
        }
        keyIndex := keyIndex + 1;
      }
      assert requestTimes[..keyIndex] == requestTimes;
    }

    /** The clean-up loop after sleeping: every key's list pruned at the same cutoff. */
    method PruneEveryKey(cutoff: int)
      modifies this`requestTimes
      ensures requestTimes == PruneAll(old(requestTimes), cutoff)
    {
      var keyIndex := 0;
      while keyIndex < |requestTimes|
        invariant |requestTimes| == |old(requestTimes)|
        invariant 0 <= keyIndex <= |requestTimes|
        invariant forall j :: 0 <= j < keyIndex ==> requestTimes[j] == Prune(old(requestTimes)[j], cutoff)
        invariant forall j :: keyIndex <= j < |requestTimes| ==> requestTimes[j] == old(requestTimes)[j]
      {
        requestTimes := requestTimes[keyIndex := Prune(requestTimes[keyIndex], cutoff)];
        keyIndex := keyIndex + 1;
      }
    }

    /** `convert_cpp_to_python`: takes a slot from the rate limiter, then cleans the reply
      content; `reply` is that content, absent when the request failed or the status was not
      200. The exception the limiter raises is passed on, as `LimiterRaised`. */
    method ConvertCppToPython(reply: Option<string>) returns (outcome: ApiOutcome)
      requires Valid()
      modifies this`requestTimes, this`clock
      ensures Valid()
      ensures var g := Acquire(old(requestTimes), rpmLimit, old(clock));
        && requestTimes == g.times
        && clock == (if g.Granted? then g.at else old(clock))
        && (g.Raised? ==> outcome == LimiterRaised)
        && (g.Granted? && reply.None? ==> outcome == NoReply)
        && (g.Granted? && reply.Some? ==> outcome == Code(CleanReply(reply.value), apiKeys[g.key]))
    {
      var g := WaitForRateLimit();
      if g.Raised? {
        return LimiterRaised;
      }
      AcquireEffect(old(requestTimes), rpmLimit, old(clock));
      var apiKey := apiKeys[g.key];
      if reply.None? {
        return NoReply;
      }
      var pythonCode := CleanReply(reply.value);
      return Code(pythonCode, apiKey);
    }

    /** `convert_single_file`: read, skip a blank source, convert, write the target with its
      header, then record the key and count the conversion. Every failure, the limiter's
      exception included, yields false and leaves cache, count and target tree alone. */
    method ConvertSingleFile(cppFile: Path, pythonFile: Path, cacheKey: string, w: World) returns (ok: bool)
      requires Valid()
      modifies this`requestTimes, this`clock, this`convertedFilesCache, this`conversionCount, this`targets
      ensures Valid()
      ensures var j, g := Job(cppFile, pythonFile, cacheKey), Acquire(old(requestTimes), rpmLimit, old(clock));
        && (Requested(j, w) ==> requestTimes == g.times && clock == (if g.Granted? then g.at else old(clock)))
        && (!Requested(j, w) ==> requestTimes == old(requestTimes) && clock == old(clock))
        && (ok <==> Deliverable(j, w) && g.Granted?)
      ensures rpmLimit >= 1 ==> (ok <==> Deliverable(Job(cppFile, pythonFile, cacheKey), w))
      ensures ok ==>
        && convertedFilesCache == old(convertedFilesCache) + {cacheKey}
        && conversionCount == old(conversionCount) + 1
        && targets == old(targets)[pythonFile := Output(Job(cppFile, pythonFile, cacheKey), w)]
      ensures !ok ==>
        && convertedFilesCache == old(convertedFilesCache)
        && conversionCount == old(conversionCount)
        && targets == old(targets)
    {
      AcquireRaises(requestTimes, rpmLimit, clock);
      ok := false;
      if cppFile in w.sources {
        var cppContent := w.sources[cppFile];
        TrimEmpty(cppContent);
        if Trim(cppContent) != "" {
          var reply := if cppFile in w.replies then Some(w.replies[cppFile]) else None;
          var pythonContent := ConvertCppToPython(reply);
          if pythonContent.Code? && pythonFile !in w.unwritable {
            Deliver(pythonFile, Header(cppFile, w.stamp(cppFile)) + pythonContent.text, cacheKey);
            assert Valid();
            ok := true;
          }
        }
      }
    }

    /** Writing the target, recording the key and counting the conversion. */
    method Deliver(pythonFile: Path, text: string, cacheKey: string)
      modifies this`convertedFilesCache, this`conversionCount, this`targets
      ensures convertedFilesCache == old(convertedFilesCache) + {cacheKey}
      ensures conversionCount == old(conversionCount) + 1
      ensures targets == old(targets)[pythonFile := text]
    {
      targets := targets[pythonFile := text];
      convertedFilesCache := convertedFilesCache + {cacheKey};
      conversionCount := conversionCount + 1;
    }

    /** `load_conversion_cache`. */
    method LoadConversionCache()
      modifies this`convertedFilesCache
      ensures convertedFilesCache == LoadedCache(old(convertedFilesCache), cacheFile)
    {
      match cacheFile
      case NoCacheFile =>
      case Unreadable =>
        convertedFilesCache := {};
      case CacheJson(files, _) =>
        convertedFilesCache := if files.Some? then set x | x in files.value else {};
    }

    /** `save_conversion_cache`: lists the cache, each key once, and writes it with the
      current time; a failed write leaves the file as it was. */
    method SaveConversionCache(w: World)
      modifies this`cacheFile, this`saves
      ensures saves == old(saves) + 1
      ensures w.cacheWritable ==>
        && cacheFile.CacheJson? && cacheFile.timestamp == Some(clock)
        && cacheFile.convertedFiles.Some? && Dicts.Distinct(cacheFile.convertedFiles.value)
        && forall x :: x in cacheFile.convertedFiles.value <==> x in convertedFilesCache
      ensures !w.cacheWritable ==> cacheFile == old(cacheFile)
    {
      var convertedFiles: seq<string> := [];
      var rest := convertedFilesCache;
      while rest != {}
        invariant rest <= convertedFilesCache
        invariant forall x :: x in convertedFiles <==> x in convertedFilesCache && x !in rest
        invariant Dicts.Distinct(convertedFiles)
        decreases |rest|
      {
        var x :| x in rest;
        convertedFiles := convertedFiles + [x];
        rest := rest - {x};
      }
      if w.cacheWritable {
        cacheFile := CacheJson(Some(convertedFiles), Some(clock));
      }
      saves := saves + 1;
    }

    /** Time passing on the clock while the earlier jobs' requests are under way. */
    method Elapse(seconds: nat)
      modifies this`clock
      ensures clock == old(clock) + seconds
    {
      clock := clock + seconds;
    }

    /** One future of the pool as the completion loop sees it: the job starts `w.delay` seconds
      after the previous one, and then come its result, what it did to the cache, the count and
      the target tree, and the checkpoint at every fifth success. */
    method CompleteJob(job: Job, w: World, successful: nat) returns (ok: bool, count: nat)
      requires Valid()
      modifies this`requestTimes, this`clock, this`convertedFilesCache, this`conversionCount, this`targets,
               this`cacheFile, this`saves
      ensures Valid()
      ensures ok ==> Deliverable(job, w)
      ensures rpmLimit >= 1 ==> (ok <==> Deliverable(job, w))
      ensures count == if ok then successful + 1 else successful
      ensures ok ==>
        && convertedFilesCache == old(convertedFilesCache) + {job.key}
        && conversionCount == old(conversionCount) + 1
        && targets == old(targets)[job.target := Output(job, w)]
        && saves == old(saves) + if count % 5 == 0 then 1 else 0
      ensures !ok ==>
        && convertedFilesCache == old(convertedFilesCache)
        && conversionCount == old(conversionCount)
        && targets == old(targets)
        && saves == old(saves)
    {
      Elapse(w.delay(job.source));
      ok := ConvertSingleFile(job.source, job.target, job.key, w);
      count := successful;
      if ok {
        count := count + 1;
        if count % 5 == 0 {
          SaveConversionCache(w);
        }
      }
    }

    /** The completion loop of `convert_folder`, with the jobs finishing in the given order:
      count the successes and checkpoint the cache at every fifth. With a positive budget the
      limiter never raises, so exactly the deliverable jobs succeed. */
    method RunJobs(jobs: seq<Job>, w: World) returns (successful: nat, ghost done: seq<Job>)
      requires Valid()
      modifies this`requestTimes, this`clock, this`convertedFilesCache, this`conversionCount, this`targets,
               this`cacheFile, this`saves
      ensures Valid()
      ensures successful == |done| <= |jobs|
      ensures Tally(old(conversionCount), old(saves), old(convertedFilesCache), old(targets), done, w,
                    conversionCount, saves, convertedFilesCache, targets)
      ensures rpmLimit >= 1 ==> done == Delivered(jobs, w)
    {
      successful := 0;
      done := [];
      var i := 0;
      while i < |jobs|
        invariant Valid()
        invariant 0 <= i <= |jobs|
        invariant successful == |done| <= i
        invariant Tally(old(conversionCount), old(saves), old(convertedFilesCache), old(targets), done, w,
                        conversionCount, saves, convertedFilesCache, targets)
        invariant rpmLimit >= 1 ==> done == DeliveredUpTo(jobs, i, w)
      {
        successful, done := Advance(jobs, i, w, successful, done, old(conversionCount), old(saves),
                                    old(convertedFilesCache), old(targets));
        i := i + 1;
      }
    }

    /** One turn of the completion loop: the `i`-th job completes, and the tally moves on. */
    method Advance(jobs: seq<Job>, i: nat, w: World, successful: nat, ghost done: seq<Job>,
                   ghost count0: nat, ghost saves0: nat, ghost cache0: set<string>, ghost tree0: map<Path, string>)
      returns (successful': nat, ghost done': seq<Job>)
      requires Valid()
      requires i < |jobs| && successful == |done| <= i
      requires Tally(count0, saves0, cache0, tree0, done, w, conversionCount, saves, convertedFilesCache, targets)
      requires rpmLimit >= 1 ==> done == DeliveredUpTo(jobs, i, w)
      modifies this`requestTimes, this`clock, this`convertedFilesCache, this`conversionCount, this`targets,
               this`cacheFile, this`saves
      ensures Valid()
      ensures successful' == |done'| <= i + 1
      ensures Tally(count0, saves0, cache0, tree0, done', w, conversionCount, saves, convertedFilesCache, targets)
      ensures rpmLimit >= 1 ==> done' == DeliveredUpTo(jobs, i + 1, w)
    {
      var job := jobs[i];
      ghost var n, s, c, t := conversionCount, saves, convertedFilesCache, targets;
      var success;
      success, successful' := CompleteJob(job, w, successful);
      done' := done;
      if success {
        TallyStep(count0, saves0, cache0, tree0, done, w, n, s, c, t, job);
        done' := done + [job];
      }
    }

    /** The second half of `convert_folder`: run the selected jobs, then save the cache once
      more. */
    method RunAndSave(jobs: seq<Job>, w: World) returns (successful: nat)
      requires Valid()
      modifies this`requestTimes, this`clock, this`convertedFilesCache, this`conversionCount, this`targets,
               this`cacheFile, this`saves
      ensures Valid()
      ensures successful <= |jobs|
      ensures conversionCount == old(conversionCount) + successful
      ensures saves == old(saves) + Checkpoints(successful) + 1
      ensures w.cacheWritable ==> LoadedCache({}, cacheFile) == convertedFilesCache
      ensures rpmLimit >= 1 ==>
        && successful == |Delivered(jobs, w)|
        && convertedFilesCache == old(convertedFilesCache) + KeysOf(Delivered(jobs, w))
        && targets == Written(old(targets), Delivered(jobs, w), OutputOf(w))
    {
      ghost var done;
      successful, done := RunJobs(jobs, w);
      SaveConversionCache(w);
    }

    /** The first half of `convert_folder`: load the cache, then discover and select. */
    method PlanFolder(sourceDir: Path, targetDir: Path, w: World) returns (jobs: seq<Job>)
      modifies this`convertedFilesCache
      ensures convertedFilesCache == LoadedCache(old(convertedFilesCache), cacheFile)
      ensures jobs == FolderJobs(sourceDir, targetDir, w, convertedFilesCache, targets.Keys)
    {
      LoadConversionCache();
      var cppFiles := FindCppFiles(sourceDir, w.walk);
      SortedUnique(cppFiles, SortPaths(CppFilesIn(Under(sourceDir, w.walk))));
      DiscoveredAreUnder(sourceDir, w.walk);
      jobs := SelectWork(cppFiles, sourceDir, targetDir, HashOf(w), convertedFilesCache, targets.Keys);
    }

    /** `convert_folder`: nothing happens without the source directory; otherwise load the
      cache, discover and select, stop when nothing is selected, and else run the jobs and save
      the cache once more at the end. The pool finishes the queued jobs in `completion`, some
      order of them that the pool chooses (`as_completed`); each job's limiter call and write
      happen in that order. The count, the cache and the set of written targets are the same
      for every order; which text a target shared by two jobs ends with is not. */
    method ConvertFolder(sourceDir: Path, targetDir: Path, w: World, completion: seq<Job>) returns (successful: nat)
      requires Valid()
      requires w.sourceExists ==>
        IsCompletionOrder(completion, FolderJobs(sourceDir, targetDir, w, LoadedCache(convertedFilesCache, cacheFile), targets.Keys))
      modifies this`requestTimes, this`clock, this`convertedFilesCache, this`conversionCount, this`targets,
               this`cacheFile, this`saves
      ensures Valid()
      ensures !w.sourceExists ==> successful == 0 && unchanged(this)
      ensures w.sourceExists ==>
        var jobs := FolderJobs(sourceDir, targetDir, w, LoadedCache(old(convertedFilesCache), old(cacheFile)), old(targets).Keys);
        && successful <= |jobs|
        && conversionCount == old(conversionCount) + successful
        && (|jobs| == 0 ==> convertedFilesCache == LoadedCache(old(convertedFilesCache), old(cacheFile)))
        && (|jobs| == 0 ==> saves == old(saves) && targets == old(targets))
        && (|jobs| > 0 ==> saves == old(saves) + Checkpoints(successful) + 1)
        && (|jobs| > 0 && w.cacheWritable ==> LoadedCache({}, cacheFile) == convertedFilesCache)
      ensures w.sourceExists && rpmLimit >= 1 ==>
        var loaded := LoadedCache(old(convertedFilesCache), old(cacheFile));
        var done := Delivered(FolderJobs(sourceDir, targetDir, w, loaded, old(targets).Keys), w);
        && successful == |done|
        && convertedFilesCache == loaded + KeysOf(done)
        && targets.Keys == old(targets).Keys + TargetsOf(done)
        && targets == Written(old(targets), Delivered(completion, w), OutputOf(w))
    {
      if !w.sourceExists {
        return 0;
      }
      ghost var jobs := FolderJobs(sourceDir, targetDir, w, LoadedCache(convertedFilesCache, cacheFile), targets.Keys);
      var filesToConvert := PlanFolder(sourceDir, targetDir, w);
      assert filesToConvert == jobs;
      if |filesToConvert| == 0 {
        return 0;
      }
      successful := RunQueued(filesToConvert, completion, w);
    }

    /** The jobs `convert_folder` queued, finishing in the order `completion`, then the final
      save; with a positive budget the count, the cache and the written targets are those of
      the queued jobs, whatever the order. */
    method RunQueued(jobs: seq<Job>, completion: seq<Job>, w: World) returns (successful: nat)
      requires Valid()
      requires IsCompletionOrder(completion, jobs)
      modifies this`requestTimes, this`clock, this`convertedFilesCache, this`conversionCount, this`targets,
               this`cacheFile, this`saves
      ensures Valid()
      ensures successful <= |jobs|
      ensures conversionCount == old(conversionCount) + successful
      ensures saves == old(saves) + Checkpoints(successful) + 1
      ensures w.cacheWritable ==> LoadedCache({}, cacheFile) == convertedFilesCache
      ensures rpmLimit >= 1 ==>
        && successful == |Delivered(jobs, w)|
        && convertedFilesCache == old(convertedFilesCache) + KeysOf(Delivered(jobs, w))
        && targets.Keys == old(targets).Keys + TargetsOf(Delivered(jobs, w))
        && targets == Written(old(targets), Delivered(completion, w), OutputOf(w))
    {
      assert |completion| == |jobs| by {
        assert |multiset(completion)| == |multiset(jobs)|;
      }
      ghost var tree0 := targets;
      successful := RunAndSave(completion, w);
      OrderFree(completion, jobs, w);
      WrittenKeys(tree0, Delivered(completion, w), OutputOf(w));
    }
  }
}
