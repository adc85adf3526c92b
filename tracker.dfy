/** The per-account record of submission status and local solution files
    (codefun_autosubmit/core/tracker.py): a JSON document mapping each username to its
    problems table. The tracking file is a value the tracker reads and writes, the clock
    reading and whether the file can be written are given to each call, and the username
    is what the environment holds. */
module Tracker {
  import opened Wrappers
  import opened Seqs
  import opened Dicts

  /** The `local_file` object of a problem entry. */
  datatype LocalFile = LocalFile(fileExists: bool, path: string, language: string, lastChecked: string)

  /** A problem entry. Every key of the JSON object may be missing. */
  datatype Problem = Problem(
    status: Option<string>,
    lastUpdated: Option<string>,
    submissionId: Option<string>,
    language: Option<string>,
    localFile: Option<LocalFile>)

  /** The `{}` a new entry starts as. */
  const NewProblem := Problem(None, None, None, None, None)

  type Problems = Dict<Problem>

  /** One user's object: `{"problems": {...}, "last_updated": ...}`. */
  datatype UserRecord = UserRecord(problems: Problems, lastUpdated: string)

  type Data = map<string, UserRecord>

  /** The tracking file as the loader finds it: absent; not readable, or not valid JSON
      (the `IOError` and `JSONDecodeError` the loader catches); bytes that are not valid UTF-8
      (a `UnicodeDecodeError`, which it does not catch); valid JSON that is not an object and
      for which `username in data` is false, so that storing the user into it raises
      `TypeError`; or a document. */
  datatype TrackingFile = Missing | Unreadable | NotUtf8 | NotAnObject | Stored(data: Data)

  /** The clock reading (`datetime.now().isoformat()`) and whether opening the tracking file
      for writing succeeds, at the moment of a call. */
  datatype Env = Env(now: string, writable: bool)

  const NoUsername := "CF_USERNAME environment variable not set"

  /** Why `AccountTracker()` raises: the `ValueError` of a missing username, or the exception
      the loader lets through. */
  datatype OpenError = UsernameNotSet(message: string) | UnicodeDecodeError | TypeError

  /** Python's truth value of an optional string. */
  predicate Truthy(s: Option<string>)
  {
    s.Some? && s.value != ""
  }

  /** The entry of `id`, or `{}` when there is none. */
  function Entry(t: Problems, id: string): Problem
  {
    match Get(t, id)
    case Some(p) => p
    case None => NewProblem
  }

  // ---- loading ------------------------------------------------------------------------

  /** `_load_tracking_data`: the stored document with the current user added when it lacks
      one, or a document holding only the current user when the file is missing or cannot be
      read or parsed; `None` where the loader raises. */
  function LoadTrackingData(file: TrackingFile, username: string, now: string): (r: Option<Data>)
    ensures r.None? <==> file.NotUtf8? || file.NotAnObject?
    ensures r.Some? ==> username in r.value
  {
    var blank := UserRecord(Empty(), now);
    match file
    case Stored(data) => Some(if username in data then data else data[username := blank])
    case NotUtf8 => None
    case NotAnObject => None
    case _ => Some(map[username := blank])
  }

  /** The loader raises exactly on a file that is not UTF-8 and on a document that is not an
      object. After a load, the current user is present (with its stored record, or with an
      empty problems table), and exactly the stored other users are kept, unchanged. */
  lemma LoadKeepsUsers(file: TrackingFile, username: string, now: string)
    ensures LoadTrackingData(file, username, now).None? <==> file.NotUtf8? || file.NotAnObject?
    ensures LoadTrackingData(file, username, now).Some? ==>
      var d := LoadTrackingData(file, username, now).value;
      && username in d
      && (file.Stored? && username in file.data ==> d[username] == file.data[username])
      && (!(file.Stored? && username in file.data) ==> d[username] == UserRecord(Empty(), now))
      && (forall u :: u != username ==> (u in d <==> file.Stored? && u in file.data))
      && (forall u :: u != username && u in d ==> file.Stored? && d[u] == file.data[u])
  {
  }

  // ---- updates on the problems table ---------------------------------------------------

  /** The entry `update_problem_status` leaves: the status and timestamp are written, the
      submission id and language only when given and non-empty. */
  function StatusUpdated(p: Problem, status: string, submissionId: Option<string>,
                         language: Option<string>, now: string): Problem
  {
    p.(status := Some(status), lastUpdated := Some(now),
       submissionId := if Truthy(submissionId) then submissionId else p.submissionId,
       language := if Truthy(language) then language else p.language)
  }

  /** `update_problem_status` on the table. */
  function UpdateStatus(t: Problems, id: string, status: string, submissionId: Option<string>,
                        language: Option<string>, now: string): Problems
  {
    Put(t, id, StatusUpdated(Entry(t, id), status, submissionId, language, now))
  }

  lemma UpdateStatusEffect(t: Problems, id: string, status: string, submissionId: Option<string>,
                           language: Option<string>, now: string)
    ensures var r := UpdateStatus(t, id, status, submissionId, language, now);
      var before, after := Entry(t, id), Entry(r, id);
      && Get(r, id).Some?
      && after.status == Some(status)
      && after.lastUpdated == Some(now)
      && (Truthy(submissionId) ==> after.submissionId == submissionId)
      && (!Truthy(submissionId) ==> after.submissionId == before.submissionId)
      && (Truthy(language) ==> after.language == language)
      && (!Truthy(language) ==> after.language == before.language)
      && after.localFile == before.localFile
      && (forall other :: other != id ==> Get(r, other) == Get(t, other))
      && r.keys == if id in t.keys then t.keys else t.keys + [id]
  {
    var r := UpdateStatus(t, id, status, submissionId, language, now);
    forall other | other != id
      ensures Get(r, other) == Get(t, other)
    {
      PutGet(t, id, Entry(r, id), other);
    }
  }

  /** `mark_accepted` sets "AC" and never touches the language. */
  lemma MarkAcceptedKeepsLanguage(t: Problems, id: string, submissionId: Option<string>, now: string)
    ensures var r := UpdateStatus(t, id, "AC", submissionId, None, now);
      Entry(r, id).status == Some("AC") && Entry(r, id).language == Entry(t, id).language
  {
    UpdateStatusEffect(t, id, "AC", submissionId, None, now);
  }

  /** `mark_local_file_exists` on the table: only `local_file` changes. */
  function MarkLocalFile(t: Problems, id: string, path: string, language: string, now: string): Problems
  {
    Put(t, id, Entry(t, id).(localFile := Some(LocalFile(true, path, language, now))))
  }

  lemma MarkLocalFileEffect(t: Problems, id: string, path: string, language: string, now: string)
    ensures var r := MarkLocalFile(t, id, path, language, now);
      var before, after := Entry(t, id), Entry(r, id);
      && Get(r, id).Some?
      && after.localFile == Some(LocalFile(true, path, language, now))
      && after.status == before.status
      && after.submissionId == before.submissionId
      && after.language == before.language
      && after.lastUpdated == before.lastUpdated
      && (forall other :: other != id ==> Get(r, other) == Get(t, other))
      && r.keys == if id in t.keys then t.keys else t.keys + [id]
  {
    var r := MarkLocalFile(t, id, path, language, now);
    forall other | other != id
      ensures Get(r, other) == Get(t, other)
    {
      PutGet(t, id, Entry(r, id), other);
    }
  }

  /** `sync_with_api` marks an id unless its entry exists (and is not `{}`) with "AC". */
  predicate NeedsAccepting(t: Problems, id: string)
  {
    Get(t, id).None? || Get(t, id).value.status != Some("AC")
  }

  /** One turn of the `sync_with_api` loop. */
  function SyncStep(t: Problems, id: string, now: string): Problems
  {
    if NeedsAccepting(t, id) then UpdateStatus(t, id, "AC", None, None, now) else t
  }

  /** A turn changes at most the entry of its own id, and leaves that one accepted. */
  lemma SyncStepGet(t: Problems, id: string, now: string, other: string)
    ensures var r := SyncStep(t, id, now);
      && (other == id ==> Get(r, id).Some? && Get(r, id).value.status == Some("AC"))
      && (other != id ==> Get(r, other) == Get(t, other))
      && (r.keys == t.keys || r.keys == t.keys + [id])
  {
    if NeedsAccepting(t, id) {
      PutGet(t, id, StatusUpdated(Entry(t, id), "AC", None, None, now), other);
    }
  }

  /** A turn keeps the ids in place and at most adds its own at the end. */
  lemma SyncStepKeys(t: Problems, id: string, now: string)
    ensures var r := SyncStep(t, id, now);
      |t.keys| <= |r.keys| && r.keys[..|t.keys|] == t.keys
  {
    var r := SyncStep(t, id, now);
    assert r.keys == t.keys || r.keys == t.keys + [id];
  }

  /** The table after `sync_with_api` has handled the first `n` accepted ids. */
  function SyncUpTo(t: Problems, accepted: seq<string>, n: nat, now: string): Problems
    requires n <= |accepted|
  {
    if n == 0 then t
    else SyncStep(SyncUpTo(t, accepted, n - 1, now), accepted[n - 1], now)
  }

  /** The tables `sync_with_api` passes through, one per prefix of the accepted ids. */
  function SyncTables(t: Problems, accepted: seq<string>, now: string): (r: seq<Problems>)
    ensures |r| == |accepted| + 1
    ensures forall k :: 0 <= k <= |accepted| ==> r[k] == SyncUpTo(t, accepted, k, now)
  {
    seq(|accepted| + 1, k requires 0 <= k <= |accepted| => SyncUpTo(t, accepted, k, now))
  }

  /** Each table of the sequence is one loop turn after the one before it. */
  lemma SyncTablesStep(t: Problems, accepted: seq<string>, now: string)
    ensures var r := SyncTables(t, accepted, now);
      forall k :: 0 <= k < |accepted| ==> r[k + 1] == SyncStep(r[k], accepted[k], now)
  {
    var r := SyncTables(t, accepted, now);
    forall k | 0 <= k < |accepted| ensures r[k + 1] == SyncStep(r[k], accepted[k], now) {
      assert r[k + 1] == SyncUpTo(t, accepted, k + 1, now);
      assert r[k] == SyncUpTo(t, accepted, k, now);
    }
  }

  /** Every handled id ends up present with status "AC". */
  lemma {:induction false} SyncUpToAccepts(t: Problems, accepted: seq<string>, n: nat, now: string)
    requires n <= |accepted|
    ensures var r := SyncUpTo(t, accepted, n, now);
      forall k :: 0 <= k < n ==> Get(r, accepted[k]).Some? && Get(r, accepted[k]).value.status == Some("AC")
  {
    if n > 0 {
      var prev := SyncUpTo(t, accepted, n - 1, now);
      SyncUpToAccepts(t, accepted, n - 1, now);
      forall k | 0 <= k < n
        ensures var r := SyncStep(prev, accepted[n - 1], now);
          Get(r, accepted[k]).Some? && Get(r, accepted[k]).value.status == Some("AC")
      {
        SyncStepGet(prev, accepted[n - 1], now, accepted[k]);
      }
    }
  }

  /** Ids that were not handled keep their entries. */
  lemma {:induction false} SyncUpToKeepsUnlisted(t: Problems, accepted: seq<string>, n: nat, now: string)
    requires n <= |accepted|
    ensures forall id :: id !in accepted[..n] ==> Get(SyncUpTo(t, accepted, n, now), id) == Get(t, id)
  {
    if n > 0 {
      var prev := SyncUpTo(t, accepted, n - 1, now);
      SyncUpToKeepsUnlisted(t, accepted, n - 1, now);
      assert accepted[..n] == accepted[..n - 1] + [accepted[n - 1]];
      forall id | id !in accepted[..n]
        ensures Get(SyncStep(prev, accepted[n - 1], now), id) == Get(t, id)
      {
        assert id != accepted[n - 1] && id !in accepted[..n - 1];
        SyncStepGet(prev, accepted[n - 1], now, id);
      }
    }
  }

  /** Entries that already had "AC" are left alone. */
  lemma {:induction false} SyncUpToKeepsAccepted(t: Problems, accepted: seq<string>, n: nat, now: string)
    requires n <= |accepted|
    ensures forall id :: !NeedsAccepting(t, id) ==> Get(SyncUpTo(t, accepted, n, now), id) == Get(t, id)
  {
    if n > 0 {
      var prev := SyncUpTo(t, accepted, n - 1, now);
      SyncUpToKeepsAccepted(t, accepted, n - 1, now);
      forall id | !NeedsAccepting(t, id)
        ensures Get(SyncStep(prev, accepted[n - 1], now), id) == Get(t, id)
      {
        SyncStepGet(prev, accepted[n - 1], now, id);
      }
    }
  }

  /** The ids already in the table keep their order ahead of any new ones. */
  lemma {:induction false} SyncUpToKeepsOrder(t: Problems, accepted: seq<string>, n: nat, now: string)
    requires n <= |accepted|
    ensures var r := SyncUpTo(t, accepted, n, now);
      |t.keys| <= |r.keys| && r.keys[..|t.keys|] == t.keys
  {
    if n > 0 {
      var prev := SyncUpTo(t, accepted, n - 1, now);
      SyncUpToKeepsOrder(t, accepted, n - 1, now);
      SyncStepKeys(prev, accepted[n - 1], now);
      PrefixOfPrefix(t.keys, prev.keys, SyncStep(prev, accepted[n - 1], now).keys);
    }
  }

  /** After `sync_with_api(accepted)`: every listed id is present with "AC"; unlisted ids and
      entries that already had "AC" are unchanged. */
  lemma SyncEffect(t: Problems, accepted: seq<string>, now: string)
    ensures var r := SyncUpTo(t, accepted, |accepted|, now);
      && (forall id :: id in accepted ==> Get(r, id).Some? && Get(r, id).value.status == Some("AC"))
      && (forall id :: id !in accepted ==> Get(r, id) == Get(t, id))
      && (forall id :: !NeedsAccepting(t, id) ==> Get(r, id) == Get(t, id))
  {
    SyncUpToAccepts(t, accepted, |accepted|, now);
    SyncUpToKeepsUnlisted(t, accepted, |accepted|, now);
    SyncUpToKeepsAccepted(t, accepted, |accepted|, now);
    assert accepted[..|accepted|] == accepted;
  }

  // ---- queries --------------------------------------------------------------------------

  function WithStatus(t: Problems, status: string): set<string>
  {
    set id | id in t.values && t.values[id].status == Some(status)
  }

  /** `pdata.get("local_file", {}).get("exists", False)`. */
  predicate HasLocalFile(p: Problem)
  {
    p.localFile.Some? && p.localFile.value.fileExists
  }

  function WithLocalFiles(t: Problems): set<string>
  {
    set id | id in t.values && HasLocalFile(t.values[id])
  }

  /** `get_problems_by_status`: the ids in table order whose status is `status`. */
  function ProblemsByStatus(t: Problems, status: string): seq<string>
  {
    KeepUpTo(t.keys, |t.keys|, WithStatus(t, status))
  }

  /** `get_problems_with_local_files`: the ids in table order whose local file exists. */
  function ProblemsWithLocalFiles(t: Problems): seq<string>
  {
    KeepUpTo(t.keys, |t.keys|, WithLocalFiles(t))
  }

  lemma ProblemsByStatusExact(t: Problems, status: string, id: string)
    ensures id in ProblemsByStatus(t, status) <==> Get(t, id).Some? && Get(t, id).value.status == Some(status)
    ensures IsSubsequence(ProblemsByStatus(t, status), t.keys)
  {
    KeepUpToMembers(t.keys, |t.keys|, WithStatus(t, status), id);
    KeepUpToKeepsOrder(t.keys, |t.keys|, WithStatus(t, status));
    assert t.keys[..|t.keys|] == t.keys;
  }

  lemma ProblemsWithLocalFilesExact(t: Problems, id: string)
    ensures id in ProblemsWithLocalFiles(t) <==> Get(t, id).Some? && HasLocalFile(Get(t, id).value)
    ensures IsSubsequence(ProblemsWithLocalFiles(t), t.keys)
  {
    KeepUpToMembers(t.keys, |t.keys|, WithLocalFiles(t), id);
    KeepUpToKeepsOrder(t.keys, |t.keys|, WithLocalFiles(t));
    assert t.keys[..|t.keys|] == t.keys;
  }

  /** `ProblemsByStatusExact` for every id at once. */
  lemma ProblemsByStatusAll(t: Problems, status: string)
    ensures forall id :: id in ProblemsByStatus(t, status) <==> id in t.keys && Entry(t, id).status == Some(status)
    ensures IsSubsequence(ProblemsByStatus(t, status), t.keys)
  {
    forall id ensures id in ProblemsByStatus(t, status) <==> id in t.keys && Entry(t, id).status == Some(status) {
      ProblemsByStatusExact(t, status, id);
    }
    ProblemsByStatusExact(t, status, "");
  }

  /** `ProblemsWithLocalFilesExact` for every id at once. */
  lemma ProblemsWithLocalFilesAll(t: Problems)
    ensures forall id :: id in ProblemsWithLocalFiles(t) <==> id in t.keys && HasLocalFile(Entry(t, id))
    ensures IsSubsequence(ProblemsWithLocalFiles(t), t.keys)
  {
    forall id ensures id in ProblemsWithLocalFiles(t) <==> id in t.keys && HasLocalFile(Entry(t, id)) {
      ProblemsWithLocalFilesExact(t, id);
    }
    ProblemsWithLocalFilesExact(t, "");
  }

  /** What `get_summary` returns. */
  datatype Summary = Summary(total: nat, accepted: nat, submitted: nat, withLocalFiles: nat)

  /** The summary in terms of the queries: the size of the table and the lengths of the
      accepted, submitted and local-file lists. */
  function Summarize(t: Problems): Summary
  {
    Summary(|t.values|, |ProblemsByStatus(t, "AC")|, |ProblemsByStatus(t, "submitted")|,
            |ProblemsWithLocalFiles(t)|)
  }

  /** No entry is counted as both accepted and submitted, so the two counts fit in the total;
      so does the local-file count. */
  lemma SummaryBounds(t: Problems)
    ensures var s := Summarize(t);
      s.accepted + s.submitted <= s.total && s.withLocalFiles <= s.total
  {
    DictSize(t);
    KeepUpToDisjoint(t.keys, |t.keys|, WithStatus(t, "AC"), WithStatus(t, "submitted"));
  }

  /** The in-place edits of `update_problem_status` on the user's problems table: create
      `{}` when the id is new, then write the fields into that entry. */
  method WithStatusUpdate(problems: Problems, problemId: string, status: string, submissionId: Option<string>,
                          language: Option<string>, now: string) returns (problems': Problems)
    ensures problems' == UpdateStatus(problems, problemId, status, submissionId, language, now)
  {
    problems' := problems;
    if problemId !in problems'.values {
      problems' := Put(problems', problemId, NewProblem);
    }
    var problemData := Entry(problems', problemId);
    assert problemData == Entry(problems, problemId);
    problemData := problemData.(status := Some(status), lastUpdated := Some(now));
    if Truthy(submissionId) {
      problemData := problemData.(submissionId := submissionId);
    }
    if Truthy(language) {
      problemData := problemData.(language := language);
    }
    PutPut(problems, problemId, NewProblem, problemData);
    problems' := Put(problems', problemId, problemData);
  }

  /** The in-place edit of `mark_local_file_exists` on the user's problems table. */
  method WithLocalFile(problems: Problems, problemId: string, filePath: string, language: string,
                       now: string) returns (problems': Problems)
    ensures problems' == MarkLocalFile(problems, problemId, filePath, language, now)
  {
    problems' := problems;
    if problemId !in problems'.values {
      problems' := Put(problems', problemId, NewProblem);
    }
    var problemData := Entry(problems', problemId);
    assert problemData == Entry(problems, problemId);
    problemData := problemData.(localFile := Some(LocalFile(true, filePath, language, now)));
    PutPut(problems, problemId, NewProblem, problemData);
    problems' := Put(problems', problemId, problemData);
  }

  // ---- the tracker --------------------------------------------------------------------

  class AccountTracker {
    const trackingFile: string
    const username: string
    var data: Data
    /** What the tracking file holds. */
    var disk: TrackingFile

    predicate Valid()
      reads this
    {
      username in data
    }

    /** `__init__` once the username is known to be set and the tracking file loads. */
    constructor (trackingFile: string, username: string, disk: TrackingFile, now: string)
      requires username != ""
      requires LoadTrackingData(disk, username, now).Some?
      ensures Valid()
      ensures this.trackingFile == trackingFile && this.username == username
      ensures Some(data) == LoadTrackingData(disk, username, now) && this.disk == disk
    {
      this.trackingFile := trackingFile;
      this.username := username;
      this.disk := disk;
      this.data := LoadTrackingData(disk, username, now).value;
    }

    /** `AccountTracker(tracking_file)`: raises `ValueError` unless `CF_USERNAME` is set and
      non-empty, and passes on what the loader raises. */
    static method Open(trackingFile: string, username: Option<string>, disk: TrackingFile, now: string)
      returns (r: Result<AccountTracker, OpenError>)
      ensures !Truthy(username) ==> r == Failure(UsernameNotSet(NoUsername))
      ensures Truthy(username) && disk.NotUtf8? ==> r == Failure(UnicodeDecodeError)
      ensures Truthy(username) && disk.NotAnObject? ==> r == Failure(TypeError)
      ensures r.Success? <==> Truthy(username) && !disk.NotUtf8? && !disk.NotAnObject?
      ensures r.Success? ==>
        && fresh(r.value) && r.value.Valid() && r.value.username == username.value
        && Some(r.value.data) == LoadTrackingData(disk, username.value, now) && r.value.disk == disk
    {
      if !Truthy(username) {
        return Failure(UsernameNotSet(NoUsername));
      }
      match disk {
        case NotUtf8 => return Failure(UnicodeDecodeError);
        case NotAnObject => return Failure(TypeError);
        case _ =>
      }
      var tracker := new AccountTracker(trackingFile, username.value, disk, now);
      r := Success(tracker);
    }

    /** The current user's problems table. */
    function Problems(): Problems
      reads this
      requires Valid()
    {
      data[username].problems
    }

    /** `_save_tracking_data`: stamps the user's record, then writes the document when the
      file can be opened for writing. */
    method SaveTrackingData(env: Env)
      requires Valid()
      modifies this
      ensures Valid()
      ensures data == old(data)[username := old(data)[username].(lastUpdated := env.now)]
      ensures disk == if env.writable then Stored(data) else old(disk)
    {
      data := data[username := data[username].(lastUpdated := env.now)];
      if env.writable {
        disk := Stored(data);
      }
    }

    method UpdateProblemStatus(problemId: string, status: string, submissionId: Option<string>,
                               language: Option<string>, env: Env)
      requires Valid()
      modifies this
      ensures Valid()
      ensures data == old(data)[username := UserRecord(
        UpdateStatus(old(Problems()), problemId, status, submissionId, language, env.now), env.now)]
      ensures disk == if env.writable then Stored(data) else old(disk)
    {
      var problems := WithStatusUpdate(data[username].problems, problemId, status, submissionId, language, env.now);
      data := data[username := UserRecord(problems, data[username].lastUpdated)];
      SaveTrackingData(env);
    }

    method MarkLocalFileExists(problemId: string, filePath: string, language: string, env: Env)
      requires Valid()
      modifies this
      ensures Valid()
      ensures data == old(data)[username := UserRecord(
        MarkLocalFile(old(Problems()), problemId, filePath, language, env.now), env.now)]
      ensures disk == if env.writable then Stored(data) else old(disk)
    {
      var problems := WithLocalFile(data[username].problems, problemId, filePath, language, env.now);
      data := data[username := UserRecord(problems, data[username].lastUpdated)];
      SaveTrackingData(env);
    }

    method MarkAccepted(problemId: string, submissionId: Option<string>, env: Env)
      requires Valid()
      modifies this
      ensures Valid()
      ensures data == old(data)[username := UserRecord(
        UpdateStatus(old(Problems()), problemId, "AC", submissionId, None, env.now), env.now)]
      ensures disk == if env.writable then Stored(data) else old(disk)
    {
      UpdateProblemStatus(problemId, "AC", submissionId, None, env);
    }

    method MarkSubmitted(problemId: string, submissionId: Option<string>, language: Option<string>, env: Env)
      requires Valid()
      modifies this
      ensures Valid()
      ensures data == old(data)[username := UserRecord(
        UpdateStatus(old(Problems()), problemId, "submitted", submissionId, language, env.now), env.now)]
      ensures disk == if env.writable then Stored(data) else old(disk)
    {
      UpdateProblemStatus(problemId, "submitted", submissionId, language, env);
    }

    /** `get_problem_status`: the entry of the id, absent exactly when the table has none. */
    function GetProblemStatus(problemId: string): (r: Option<Problem>)
      reads this
      requires Valid()
      ensures r.Some? <==> problemId in Problems().keys
      ensures r.Some? ==> r.value == Entry(Problems(), problemId)
    {
      Get(Problems(), problemId)
    }

    function GetAllProblems(): Problems
      reads this
      requires Valid()
    {
      Problems()
    }

    /** `get_problems_by_status`: the ids with that status, in table order. */
    function GetProblemsByStatus(status: string): (r: seq<string>)
      reads this
      requires Valid()
      ensures forall id :: id in r <==> id in Problems().keys && Entry(Problems(), id).status == Some(status)
      ensures IsSubsequence(r, Problems().keys)
    {
      ProblemsByStatusAll(Problems(), status);
      ProblemsByStatus(Problems(), status)
    }

    function GetAcceptedProblems(): (r: seq<string>)
      reads this
      requires Valid()
      ensures forall id :: id in r <==> id in Problems().keys && Entry(Problems(), id).status == Some("AC")
    {
      GetProblemsByStatus("AC")
    }

    function GetSubmittedProblems(): (r: seq<string>)
      reads this
      requires Valid()
      ensures forall id :: id in r <==> id in Problems().keys && Entry(Problems(), id).status == Some("submitted")
    {
      GetProblemsByStatus("submitted")
    }

    /** `get_problems_with_local_files`: the ids whose local file exists, in table order. */
    function GetProblemsWithLocalFiles(): (r: seq<string>)
      reads this
      requires Valid()
      ensures forall id :: id in r <==> id in Problems().keys && HasLocalFile(Entry(Problems(), id))
      ensures IsSubsequence(r, Problems().keys)
    {
      ProblemsWithLocalFilesAll(Problems());
      ProblemsWithLocalFiles(Problems())
    }

    method SyncWithApi(acceptedProblems: seq<string>, env: Env)
      requires Valid()
      modifies this
      ensures Valid()
      ensures data == old(data)[username := UserRecord(
        SyncUpTo(old(Problems()), acceptedProblems, |acceptedProblems|, env.now), env.now)]
      ensures disk == if env.writable then Stored(data) else old(disk)
    {
      ghost var data0, table0, disk0 := data, data[username].problems, disk;
      ghost var tables := SyncTables(table0, acceptedProblems, env.now);
      SyncTablesStep(table0, acceptedProblems, env.now);
      AcceptEach(acceptedProblems, env, tables, data0, disk0);
      ghost var d := data;
      assert d[username] == UserRecord(SyncUpTo(table0, acceptedProblems, |acceptedProblems|, env.now),
                                       d[username].lastUpdated);
      SaveTrackingData(env);
    }

    /** The loop of `sync_with_api`: every listed id handled in turn. */
    method AcceptEach(acceptedProblems: seq<string>, env: Env, ghost tables: seq<Problems>,
                      ghost data0: Data, ghost disk0: TrackingFile)
      requires |tables| == |acceptedProblems| + 1
      requires forall k :: 0 <= k < |acceptedProblems| ==> tables[k + 1] == SyncStep(tables[k], acceptedProblems[k], env.now)
      requires Synced(data0, tables[0], disk0, env)
      modifies this
      ensures Synced(data0, tables[|acceptedProblems|], disk0, env)
    {
      var i := 0;
      while i < |acceptedProblems|
        invariant i <= |acceptedProblems|
        invariant Synced(data0, tables[i], disk0, env)
      {
        AcceptNext(acceptedProblems[i], env, data0, tables[i], disk0);
        i := i + 1;
      }
    }

    /** Where the `sync_with_api` loop stands, relative to where it started: only the user's
        table has moved on, to `table`, and the file is as before or holds the document. */
    ghost predicate Synced(data0: Data, table: Problems, disk0: TrackingFile, env: Env)
      reads this
    {
      && username in data
      && data == data0[username := data[username]]
      && data[username].problems == table
      && (disk == disk0 || (env.writable && disk == Stored(data)))
    }

    /** One turn of the `sync_with_api` loop: `Synced` moves on by one `SyncStep`. */
    method AcceptNext(problemId: string, env: Env, ghost data0: Data, ghost table: Problems, ghost disk0: TrackingFile)
      requires Synced(data0, table, disk0, env)
      modifies this
      ensures Synced(data0, SyncStep(table, problemId, env.now), disk0, env)
    {
      AcceptUnlessAccepted(problemId, env);
    }

    /** One turn of the `sync_with_api` loop: marks the id accepted unless its entry already
        says "AC". */
    method AcceptUnlessAccepted(problemId: string, env: Env)
      requires Valid()
      modifies this
      ensures Valid()
      ensures data == old(data)[username := data[username]]
      ensures Problems() == SyncStep(old(Problems()), problemId, env.now)
      ensures NeedsAccepting(old(Problems()), problemId) ==>
        disk == if env.writable then Stored(data) else old(disk)
      ensures !NeedsAccepting(old(Problems()), problemId) ==> data == old(data) && disk == old(disk)
    {
      var currentStatus := GetProblemStatus(problemId);
      // `not current_status` also holds for an entry that is still `{}`
      if currentStatus.None? || currentStatus.value == NewProblem || currentStatus.value.status != Some("AC") {
        MarkAccepted(problemId, None, env);
      }
    }

    /** `remove_problem`: deletes the entry and saves; an absent id changes nothing and
        saves nothing. */
    method RemoveProblem(problemId: string, env: Env)
      requires Valid()
      modifies this
      ensures Valid()
      ensures problemId in old(Problems()).keys ==>
        && data == old(data)[username := UserRecord(Remove(old(Problems()), problemId), env.now)]
        && disk == if env.writable then Stored(data) else old(disk)
      ensures problemId !in old(Problems()).keys ==> data == old(data) && disk == old(disk)
    {
      var problems := data[username].problems;
      if problemId in problems.values {
        data := data[username := data[username].(problems := Remove(problems, problemId))];
        SaveTrackingData(env);
      }
    }

    /** `get_summary`: one pass over the entries counting accepted, submitted (the two are
        exclusive) and local files. */
    method GetSummary() returns (summary: Summary)
      requires Valid()
      ensures summary == Summarize(Problems())
    {
      var problems := data[username].problems;
      var accepted, submitted, withLocalFiles := 0, 0, 0;
      for i := 0 to |problems.keys|
        invariant accepted == |KeepUpTo(problems.keys, i, WithStatus(problems, "AC"))|
        invariant submitted == |KeepUpTo(problems.keys, i, WithStatus(problems, "submitted"))|
        invariant withLocalFiles == |KeepUpTo(problems.keys, i, WithLocalFiles(problems))|
      {
        var pdata := problems.values[problems.keys[i]];
        if pdata.status == Some("AC") {
          accepted := accepted + 1;
        } else if pdata.status == Some("submitted") {
          submitted := submitted + 1;
        }
        if pdata.localFile.Some? && pdata.localFile.value.fileExists {
          withLocalFiles := withLocalFiles + 1;
        }
      }
      summary := Summary(|problems.values|, accepted, submitted, withLocalFiles);
    }
  }
}
