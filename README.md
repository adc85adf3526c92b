# Verified model: C++-to-Python batch converter and Codefun account tracker

This project models two tools of one repository in Dafny and proves properties of the
models.

**`CppToPythonConverter`** (`exp_conv/cpp_to_python_converter.py`) is a batch converter. Each run it:

- walks a source tree for C++ sources and headers;
- skips the files whose `path:digest` key is already in its cache file and whose target exists;
- sends each remaining file to a chat-completion endpoint through a sliding-window rate limiter with one budget per API key;
- strips the code fences from each reply and writes it, behind a three-line header, into a mirrored target tree;
- checkpoints the cache after every fifth success and once more at the end.

The Codefun autosubmit tools keep two things:

- **`AccountTracker`** (`codefun_autosubmit/core/tracker.py`): a JSON document that maps each user to a table of problems. Each problem has a status, a submission id, a language and a local solution file. The tracker updates, marks, removes and syncs entries, and answers queries and a summary.
- **`utils.py`** (`codefun_autosubmit/core/utils.py`): the judge's language/extension tables, and the filter that chooses which solution files of a folder still need submitting.

**Modules.** Each source file is split into modules that follow its structure:

- Utilities:
  - `Wrappers`: `Option` and `Result`.
  - `Strings`: Python's `strip`, `split`, `join` and `startswith`.
  - `Seqs`: order-preserving subsequences and the generic order-keeping filter `KeepUpTo`.
  - `Paths`: `pathlib` names, suffixes, stems, `relative_to`, and Python's ordering of paths.
  - `Dicts`: Python dictionaries with insertion order.
- Converter:
  - `RateLimit`: `wait_for_rate_limit` as a function of the timestamp table.
  - `Reply`: the fence clean-up.
  - `Discovery`: `find_cpp_files`, `get_python_filename` and the change-aware selection.
  - `Converter`: the class `CppToPythonConverter` itself.
- Tracker and filter: `Tracker` and `Utils`.

**State and the outside world.** Where the source updates state in place, the model is a
class with those fields. The methods state their new state:

- `CppToPythonConverter`: key index, cache set, counter, timestamp table, clock, target tree, cache file.
- `AccountTracker`: the document and the tracking file.

Everything outside the process is a parameter:

- the converter's `World`: the walk, the file contents and digests, the endpoint's reply per file, the unwritable targets, the seconds that pass before each job starts, the header date of each file, and whether the cache can be written;
- the tracker's `Env`: the clock reading, and whether the tracking file can be written;
- the folder listing and the accepted-problem list given to the filter.

Time is whole seconds. The clock moves on by the given delay before each job starts (the
time the earlier requests take), and "sleep" advances it too. The thread pool is a
sequential loop over the queued jobs. `ConvertFolder` takes the order in which the pool
finishes them as a parameter, any permutation of the queued jobs; each job's limiter call and
write happen in that order.

**The limiter's budget.** `rpm_limit` is a budget per API key, and the docstring of
`wait_for_rate_limit` (exp_conv/cpp_to_python_converter.py:95) says that it waits when a key
approaches that limit. After waiting, though, the code records the request for the key it
picked before the wait, so a key can go over its budget. The model does what the code does,
and the budget bound is proved only where the code keeps it (see Findings).

**Key rotation.** `get_next_api_key` is defined but is never called: the converter uses the
key index that `wait_for_rate_limit` returns. Both are modelled.

## Model

| member | source | states |
|---|---|---|
| Converter.ParseKeys | exp_conv/cpp_to_python_converter.py:28 | Always at least one key. Without a comma, the text itself, unstripped. With one, as many keys as comma-separated pieces, none with surrounding whitespace. |
| Converter.ParseKeysJoin | exp_conv/cpp_to_python_converter.py:28 | Key k is the k-th comma-separated piece, stripped: any two or more comma-free pieces joined by commas parse to their stripped texts, in order. With `JoinSplit`, this covers every key string that holds a comma. |
| Converter.ParseKeysRoundTrip | exp_conv/cpp_to_python_converter.py:28 | Two or more stripped, comma-free keys joined by commas parse back to exactly those keys. |
| Converter.CppToPythonConverter.constructor | exp_conv/cpp_to_python_converter.py:25-36 | One empty timestamp list per parsed key. Key index 0, empty cache, zero count. |
| Converter.CppToPythonConverter.GetNextApiKey | exp_conv/cpp_to_python_converter.py:87-92 | Returns the key at the current index and advances the index cyclically, staying in range. |
| Converter.RotationVisitsEveryKey | exp_conv/cpp_to_python_converter.py:87-92 | From any index, every key comes up within n calls, and after n calls the index is back where it started. |
| Converter.LoadedCache | exp_conv/cpp_to_python_converter.py:50-60 | No file leaves the cache unchanged. An unreadable file empties it. A JSON file yields exactly the listed keys (none when the list is absent). |
| Converter.CppToPythonConverter.LoadConversionCache | exp_conv/cpp_to_python_converter.py:50-60 | The cache after loading is `LoadedCache` of the old cache and the file. |
| Converter.CppToPythonConverter.SaveConversionCache | exp_conv/cpp_to_python_converter.py:62-72 | A writable file gets a list holding each cached key exactly once, stamped with the current time. A failed write leaves the file as it was. The save is counted. |
| Converter.SaveLoadRoundTrip | exp_conv/cpp_to_python_converter.py:50-72 | A saved cache loads back as exactly the same set, whatever was held before loading. |
| Converter.CppToPythonConverter.WaitForRateLimit | exp_conv/cpp_to_python_converter.py:94-126 | The loop-and-sleep code yields exactly `Acquire` of the old table, budget and clock: the new table, the granted key and the clock after any sleep. |
| Converter.CppToPythonConverter.PruneAndPick | exp_conv/cpp_to_python_converter.py:101-111 | Every list is pruned to the last minute. The returned index is the first least-loaded key, and the returned count is its length. |
| Converter.CppToPythonConverter.SleepUntilFree | exp_conv/cpp_to_python_converter.py:113-122 | Sleeps until the oldest timestamp leaves the window, then prunes every key at the new instant (`Sleep`). |
| Converter.CppToPythonConverter.PruneEveryKey | exp_conv/cpp_to_python_converter.py:121-122 | Every key's list is pruned at the same cutoff. |
| Converter.CppToPythonConverter.ConvertCppToPython | exp_conv/cpp_to_python_converter.py:128-200 | The limiter's exception is passed on. No reply gives None. Otherwise the result is the cleaned reply, with the API key at the granted index. |
| Converter.Header | exp_conv/cpp_to_python_converter.py:240-242 | The header opens with the "# Converted from " line and ends with a blank line, so the code starts on a line of its own. |
| Converter.CppToPythonConverter.Deliver | exp_conv/cpp_to_python_converter.py:239-248 | The target gets the text, the cache gains the key, and the count rises by one. |
| Converter.CppToPythonConverter.ConvertSingleFile | exp_conv/cpp_to_python_converter.py:217-255 | Succeeds iff the source is read and not blank, a reply arrives, the target is writable and the limiter grants. With a positive budget: iff deliverable. On success the key is cached, the count rises by one, and the target holds header plus cleaned reply. On failure, cache, count and tree are unchanged. The limiter runs only for a non-blank source. |
| Converter.CppToPythonConverter.CompleteJob | exp_conv/cpp_to_python_converter.py:305-317 | One completed future, which starts the given delay after the previous one. A success is counted, and triggers a cache save exactly when the new count is a multiple of five. A failure changes nothing. |
| Converter.CppToPythonConverter.RunJobs | exp_conv/cpp_to_python_converter.py:296-317 | The count, checkpoints, cache and target tree add up over the successes (`Tally`), which are never more than the jobs. With a positive budget, the successes are exactly the deliverable jobs in completion order. |
| Converter.CppToPythonConverter.RunAndSave | exp_conv/cpp_to_python_converter.py:296-320 | The count rises by the successes, and there are `Checkpoints(s)` saves plus a final one. When the cache file can be written, the final file reloads as the cache. With a positive budget, the successes add exactly their keys to the cache and their outputs to the tree. |
| Converter.CppToPythonConverter.PlanFolder | exp_conv/cpp_to_python_converter.py:267-282 | Loads the cache, then queues exactly `FolderJobs`: the discovered, sorted files whose key is not cached or whose target is missing. |
| Converter.CppToPythonConverter.ConvertFolder | exp_conv/cpp_to_python_converter.py:257-325 | No source directory: nothing changes. Nothing selected: no save and no write. Otherwise the saves number s/5 + 1 and, when the cache file can be written, the final file reloads as the cache. With a positive budget, for any completion order of the queued jobs: s is the number of deliverable queued jobs, the cache gains their keys and the tree their targets (all independent of the order), and each target holds the output of the last job in completion order that wrote it. |
| Converter.CppToPythonConverter.RunQueued | exp_conv/cpp_to_python_converter.py:296-320 | The queued jobs, finishing in any permutation of them, then the final save. The count rises by s and there are s/5 + 1 saves. When the cache file can be written, it reloads as the cache. With a positive budget: s, the keys added to the cache and the targets added to the tree are those of the deliverable queued jobs whatever the order, and each target's text is that of its last writer in completion order. |
| Converter.DeliveredPermutation | exp_conv/cpp_to_python_converter.py:305-317 | Two completion orders of the same jobs deliver the same jobs, counted with multiplicity. |
| Converter.OrderFree | exp_conv/cpp_to_python_converter.py:305-317 | The number, the cache keys and the targets of the delivered jobs are the same for every completion order. |
| Converter.DeliveredMembers | exp_conv/cpp_to_python_converter.py:305-310 | A job succeeds exactly when it is queued and deliverable. |
| Converter.WrittenKeys | exp_conv/cpp_to_python_converter.py:236-243 | The target tree gains exactly the targets of the successful jobs. |
| Converter.WrittenKeepsOthers | exp_conv/cpp_to_python_converter.py:236-243 | A file that no successful job targets keeps its text. |
| Converter.LastWriterWins | exp_conv/cpp_to_python_converter.py:239-243 | The last job to write a target decides its text, so a header and a source with the same stem overwrite each other. |
| Converter.CheckpointCount | exp_conv/cpp_to_python_converter.py:312-314 | s successes take exactly s/5 checkpoint saves. |
| Converter.SelectionEmpty | exp_conv/cpp_to_python_converter.py:281-290 | When no planned file needs conversion, nothing is queued. |
| Converter.RerunSelectsNothing | exp_conv/cpp_to_python_converter.py:276-290 | After a run in which every queued job succeeded, a second run over the same sources queues nothing. |
| RateLimit.Acquire | exp_conv/cpp_to_python_converter.py:94-126 | One list per key is kept. A grant names a key in range, recorded at an instant no earlier than the call. |
| RateLimit.PruneMembers | exp_conv/cpp_to_python_converter.py:106-107 | Pruning keeps exactly the timestamps newer than the cutoff. |
| RateLimit.PruneTwice | exp_conv/cpp_to_python_converter.py:121-122 | Pruning again at a later cutoff equals pruning once at that cutoff. |
| RateLimit.LeastLoadedIsFirstLeast | exp_conv/cpp_to_python_converter.py:101-111 | The scan's key has the fewest entries, and every lower-numbered key has strictly more. |
| RateLimit.OldestIsOldest | exp_conv/cpp_to_python_converter.py:115 | The oldest timestamp belongs to some key, and no key holds an older one. |
| RateLimit.WaitIsPositive | exp_conv/cpp_to_python_converter.py:116-117 | After pruning, the computed wait is always more than one second, so the `wait_time > 0` test never fails. |
| RateLimit.AcquireRaises | exp_conv/cpp_to_python_converter.py:114-115 | The call raises exactly when the budget is not positive and every list is empty after pruning. |
| RateLimit.AcquireEffect | exp_conv/cpp_to_python_converter.py:104-126 | A granted key is in range, and the recorded instant is never before `now`. The new table is the old one pruned at that instant, with the instant appended to the granted key only. |
| RateLimit.AcquireOnlyGrowsGrantedKey | exp_conv/cpp_to_python_converter.py:104-126 | Every other key's list is only pruned, never grown. The granted key gains exactly one timestamp. |
| RateLimit.AcquireKeepsOnlyRecent | exp_conv/cpp_to_python_converter.py:104-125 | After a grant, every stored timestamp of every key is newer than one minute before the recorded instant. |
| RateLimit.AcquirePicksLeastLoaded | exp_conv/cpp_to_python_converter.py:101-111 | The granted key has the minimum pruned count, with ties going to the lowest index. |
| RateLimit.AcquireWithoutWait | exp_conv/cpp_to_python_converter.py:114-125 | If the minimum count is below the budget, there is no wait and the chosen key ends with at most `rpm` entries. |
| RateLimit.AcquireKeepsBudget | exp_conv/cpp_to_python_converter.py:114-125 | The per-key budget is kept by a call that does not wait, and by every call when there is a single key. |
| RateLimit.AcquireCanExceedBudget | exp_conv/cpp_to_python_converter.py:114-125 | A two-key table within a budget of one leaves key 0 with two timestamps in one minute. |
| RateLimit.AcquireReselectingKeepsBudget | exp_conv/cpp_to_python_converter.py:113-125 | With selection repeated after the wait, every call with a positive budget grants and keeps every key within budget. |
| Reply.CleanReply | exp_conv/cpp_to_python_converter.py:183-193 | The cleaned reply is always stripped, and never longer than the reply. |
| Reply.UnfencedReply | exp_conv/cpp_to_python_converter.py:183-193 | A reply that neither starts nor ends with three backticks (once stripped) comes back as its stripped self. |
| Reply.PythonFencedReply | exp_conv/cpp_to_python_converter.py:183-193 | "```python" + body + "```" yields the stripped body, when the body does not itself open with a fence. |
| Reply.PlainFencedReply | exp_conv/cpp_to_python_converter.py:183-193 | "```" + body + "```" yields the stripped body, when the body opens neither with a fence nor with "python". |
| Reply.PythonFenceCut | exp_conv/cpp_to_python_converter.py:186-191 | The three cuts applied to "```python" + body + "```" leave exactly the body. |
| Discovery.CppFilesInMembers | exp_conv/cpp_to_python_converter.py:76-83 | A path is kept exactly when its lower-cased suffix is one of the eight C++ extensions. |
| Discovery.CollectCppFiles | exp_conv/cpp_to_python_converter.py:77-83 | The walk loop collects, in walk order, exactly the C++ files under the source directory. |
| Discovery.FindCppFiles | exp_conv/cpp_to_python_converter.py:74-85 | The result is sorted and is a permutation of the walk's C++ files. |
| Discovery.FoundMembers | exp_conv/cpp_to_python_converter.py:74-85 | A path is found exactly when it lies under the source directory, is one of the walk's files, and is a C++ file. None is dropped. |
| Discovery.SortPaths | exp_conv/cpp_to_python_converter.py:85 | `sorted()` yields a sorted permutation. |
| Discovery.SortedUnique | exp_conv/cpp_to_python_converter.py:85 | Two sorted permutations of the same paths are equal, so the order is fully determined. |
| Discovery.GetPythonFilename | exp_conv/cpp_to_python_converter.py:202-215 | Defined exactly when the source lies under the source directory, which `relative_to` demands. |
| Discovery.TargetLayout | exp_conv/cpp_to_python_converter.py:202-215 | The target is under the target directory, in the mirrored relative parent, and is named stem + ".py". |
| Discovery.SameStemSameTarget | exp_conv/cpp_to_python_converter.py:207-214 | A header and a source with the same stem in the same directory map to the same target. |
| Discovery.SameTargetSameStem | exp_conv/cpp_to_python_converter.py:202-215 | Equal targets come only from sources with the same relative directory and the same stem. |
| Discovery.CacheKey | exp_conv/cpp_to_python_converter.py:279 | The key is the path text, a ':' and the digest: for a colon-free digest, its last ':' comes right after the path text. |
| Discovery.CacheKeyInjective | exp_conv/cpp_to_python_converter.py:279 | With colon-free digests, equal cache keys mean the same path text and the same digest. |
| Discovery.Plan | exp_conv/cpp_to_python_converter.py:276-279 | One job per discovered file, in order, holding its target and its `path:digest` key. |
| Discovery.SelectionMembers | exp_conv/cpp_to_python_converter.py:281-282 | A job is queued iff its key is not cached or its target is missing. |
| Discovery.SelectionKeepsOrder | exp_conv/cpp_to_python_converter.py:275-282 | The queued jobs keep discovery order. |
| Discovery.CachedIsTotalMinusQueued | exp_conv/cpp_to_python_converter.py:285 | The reported cached count (total minus queued) counts exactly the files with a cached key and an existing target. |
| Discovery.SelectWork | exp_conv/cpp_to_python_converter.py:275-282 | The filter loop queues exactly `Selection` of the planned jobs. |
| Paths.RelativeTo | exp_conv/cpp_to_python_converter.py:204 | Defined iff the base is a prefix, and then base + result is the path. |
| Paths.StemSuffix | exp_conv/cpp_to_python_converter.py:207-211 | A name is its stem followed by its suffix. |
| Paths.SuffixShape | exp_conv/cpp_to_python_converter.py:82 | A suffix is empty, or a dot followed by at least one character containing no further dot. |
| Paths.PathLeTotal | exp_conv/cpp_to_python_converter.py:85 | Python's path order is total, which `sorted()` relies on. |
| Strings.TrimEmpty | exp_conv/cpp_to_python_converter.py:224 | `strip()` is empty exactly when the text is all whitespace. |
| Strings.TrimRemovesOnlySpace | exp_conv/cpp_to_python_converter.py:193 | `strip()` leaves an infix of the text and removes only whitespace. |
| Strings.TrimIdempotent | exp_conv/cpp_to_python_converter.py:183-193 | Stripping twice is stripping once. |
| Strings.SplitJoin | exp_conv/cpp_to_python_converter.py:28 | Joining separator-free pieces and splitting again gives the pieces back. |
| Strings.JoinSplit | exp_conv/cpp_to_python_converter.py:28 | Splitting and joining back with the same separator gives the text back. |
| Strings.SplitFirstPiece | codefun_autosubmit/core/utils.py:93 | The first piece of a split is the longest separator-free prefix: followed by the first separator when there is one, the whole text otherwise. |
| Strings.SplitLastPiece | codefun_autosubmit/core/utils.py:99 | With a separator, the last piece of a split is the separator-free text after the last separator. |
| Utils.GetExtension | codefun_autosubmit/core/utils.py:30-42 | Succeeds exactly for the four judge languages. Any other name fails with "Language not found". |
| Utils.GetLanguage | codefun_autosubmit/core/utils.py:45-57 | Succeeds exactly for the four extensions. Any other fails with "Not a valid language". |
| Utils.LanguageRoundTrip | codefun_autosubmit/core/utils.py:30-57 | `get_language(get_extension(l)) == l` for every known language. |
| Utils.ExtensionRoundTrip | codefun_autosubmit/core/utils.py:30-57 | `get_extension(get_language(e)) == e` for every known extension. |
| Utils.TablesInverse | codefun_autosubmit/core/utils.py:32-52 | The two tables are inverse bijections. |
| Utils.KnownPairs | tests/test_core.py:16-34 | The eight pairs the unit tests expect, and the two names they expect to be rejected. |
| Utils.ProblemNameMeaning | codefun_autosubmit/core/utils.py:93 | `problem_name` is the longest dot-free prefix of the file name: followed by the first dot when there is one, the whole name otherwise. |
| Utils.ExtensionMeaning | codefun_autosubmit/core/utils.py:99 | `file_ext` is "" without a dot, and otherwise the dot-free text after the last dot. |
| Utils.SupportedExtsAreKnown | codefun_autosubmit/core/utils.py:86 | The filter's supported extensions are exactly those `get_language` accepts. |
| Utils.GetLoopList | codefun_autosubmit/core/utils.py:82-108 | The loop with its `continue` skips returns exactly `LoopList` of the listing and accepted list. |
| Utils.LoopListKeepsOrder | codefun_autosubmit/core/utils.py:88-106 | The result is an order-preserving subsequence of the listing. |
| Utils.LoopListEligible | codefun_autosubmit/core/utils.py:88-103 | Every returned name does not start with "pass" and contains a dot. Its extension is supported, and its problem is not accepted. |
| Utils.LoopListDistinct | codefun_autosubmit/core/utils.py:95-106 | No two returned files share a problem name. |
| Utils.LoopListPicksFirst | codefun_autosubmit/core/utils.py:93-106 | Exactly the problems with an eligible file are covered, each by its first eligible file. An earlier rejected file never blocks a later eligible one. |
| Utils.FirstEligibleMeaning | codefun_autosubmit/core/utils.py:93-106 | The reference choice is an eligible file of the problem, and is absent iff the prefix has none. |
| Dicts.Get | codefun_autosubmit/core/tracker.py:106 | `dict.get` finds a value exactly for a present key. |
| Dicts.Put | codefun_autosubmit/core/tracker.py:63-64 | A new key goes last. An existing key keeps its place. |
| Dicts.PutGet | codefun_autosubmit/core/tracker.py:63-73 | After `d[k] = v`, k reads v and every other key reads what it read before. |
| Dicts.PutPut | codefun_autosubmit/core/tracker.py:63-66 | Creating `{}` and then writing the entry is a single write in the first write's place. |
| Dicts.RemoveGet | codefun_autosubmit/core/tracker.py:148-149 | After `del`, the key is gone, every other key is untouched, and the remaining keys keep their order, one fewer. |
| Dicts.DictSize | codefun_autosubmit/core/tracker.py:157 | `len()` counts the listed keys. |
| Tracker.LoadTrackingData | codefun_autosubmit/core/tracker.py:23-46 | Raises exactly on a file that is not UTF-8 and on a document that is not an object. Otherwise the document holds the current user. |
| Tracker.LoadKeepsUsers | codefun_autosubmit/core/tracker.py:23-46 | The loader raises exactly on a non-UTF-8 file and on a non-object document. After a load, the current user is present (its stored record, or an empty table). Exactly the stored other users are kept, unchanged. |
| Tracker.AccountTracker.Open | codefun_autosubmit/core/tracker.py:13-46 | Raises the missing-username `ValueError` exactly when the username is unset or empty. Otherwise raises `UnicodeDecodeError` for a non-UTF-8 file and `TypeError` for a non-object document, and else holds the loaded document. |
| Tracker.AccountTracker.constructor | codefun_autosubmit/core/tracker.py:13-21 | For a set username and a loadable file: fields set, and the document is `LoadTrackingData` of the file. |
| Tracker.AccountTracker.SaveTrackingData | codefun_autosubmit/core/tracker.py:48-56 | The user's record is stamped. The file holds the document when writable, and is unchanged otherwise. |
| Tracker.UpdateStatusEffect | codefun_autosubmit/core/tracker.py:58-75 | The entry is created if absent. Status and timestamp are set. Submission id and language are written only when truthy. The local file and all other problems are unchanged, and a new id goes last. |
| Tracker.WithStatusUpdate | codefun_autosubmit/core/tracker.py:62-74 | The in-place edits of one problem entry equal `UpdateStatus`. |
| Tracker.AccountTracker.UpdateProblemStatus | codefun_autosubmit/core/tracker.py:58-75 | Only the current user's record changes, to the updated table stamped now. The file is saved when writable. |
| Tracker.MarkLocalFileEffect | codefun_autosubmit/core/tracker.py:77-92 | `local_file` becomes {exists, path, language, last checked}, and no other field or problem changes. |
| Tracker.WithLocalFile | codefun_autosubmit/core/tracker.py:80-90 | The in-place edits of one problem entry equal `MarkLocalFile`. |
| Tracker.AccountTracker.MarkLocalFileExists | codefun_autosubmit/core/tracker.py:77-92 | Only the current user's record changes, to the marked table stamped now. The file is saved when writable. |
| Tracker.MarkAcceptedKeepsLanguage | codefun_autosubmit/core/tracker.py:94-96 | `mark_accepted` sets "AC" and never touches the language. |
| Tracker.AccountTracker.MarkAccepted | codefun_autosubmit/core/tracker.py:94-96 | An update with status "AC" and no language. |
| Tracker.AccountTracker.MarkSubmitted | codefun_autosubmit/core/tracker.py:98-101 | An update with status "submitted". |
| Tracker.AccountTracker.GetProblemStatus | codefun_autosubmit/core/tracker.py:103-106 | The entry of the id, absent exactly when it is not in the table. |
| Tracker.AccountTracker.GetProblemsByStatus | codefun_autosubmit/core/tracker.py:113-119 | Exactly the ids whose status is the given one, in table order. |
| Tracker.AccountTracker.GetAcceptedProblems | codefun_autosubmit/core/tracker.py:121-123 | Exactly the ids with status "AC". |
| Tracker.AccountTracker.GetSubmittedProblems | codefun_autosubmit/core/tracker.py:125-127 | Exactly the ids with status "submitted". |
| Tracker.AccountTracker.GetProblemsWithLocalFiles | codefun_autosubmit/core/tracker.py:129-134 | Exactly the ids whose local file exists, in table order. |
| Tracker.ProblemsByStatusExact | codefun_autosubmit/core/tracker.py:113-119 | An id is listed iff present with that status, and the list is a subsequence of the table's keys. |
| Tracker.ProblemsWithLocalFilesExact | codefun_autosubmit/core/tracker.py:129-134 | An id is listed iff present with an existing local file, and the list is a subsequence of the keys. |
| Tracker.SyncStepGet | codefun_autosubmit/core/tracker.py:138-141 | One loop turn changes at most its own id, and leaves that id present with "AC". |
| Tracker.SyncEffect | codefun_autosubmit/core/tracker.py:136-143 | Every listed id ends with "AC". Unlisted ids, and entries already "AC", are unchanged. |
| Tracker.SyncUpToKeepsOrder | codefun_autosubmit/core/tracker.py:136-143 | The ids already in the table keep their order, ahead of any added ones. |
| Tracker.AccountTracker.AcceptUnlessAccepted | codefun_autosubmit/core/tracker.py:139-141 | An id not already "AC" is marked accepted and saved. Otherwise nothing changes and nothing is saved. |
| Tracker.AccountTracker.SyncWithApi | codefun_autosubmit/core/tracker.py:136-143 | Only the current user's table changes, to the table after handling every listed id (`SyncUpTo`). It is then saved once more. |
| Tracker.AccountTracker.RemoveProblem | codefun_autosubmit/core/tracker.py:145-150 | A present id is deleted and the file saved. An absent id changes nothing and saves nothing. |
| Tracker.AccountTracker.GetSummary | codefun_autosubmit/core/tracker.py:152-172 | The counting loop returns exactly `Summarize`: the table size and the lengths of the accepted, submitted and local-file lists. |
| Tracker.SummaryBounds | codefun_autosubmit/core/tracker.py:156-170 | accepted + submitted ≤ total, and local files ≤ total. |

## Left out

- HTTP: the request to the chat-completion endpoint and the parsing of its JSON reply are left out. The endpoint's reply content for each file is a `World` input, absent for a non-200 status or a failed request. Prompts, headers, the timeout and the model parameters are left out.
- Concurrency: the thread pool and the three locks are left out. The pool is a sequential loop over a completion order given to `ConvertFolder`, and each lock only serialises one operation. Jobs whose limiter calls and writes interleave in a different order from their completions are not modelled: in the model, a job's limiter call, write and cache update happen together, at its turn in the completion order.
- The MD5 digest is a `World` input, with "" for an unreadable file. `os.walk` is a given list of relative file paths. `mkdir` is left out.
- Clock: `datetime.now()` and `time.time()` read the converter's clock, which the given per-job delays and the sleeps move on. `time.strftime` in the header is a given date per file. Instants are whole seconds, so the float seconds of `wait_time` and `time.sleep` are not modelled.
- Converter.CppToPythonConverter.ConvertSingleFile: inside one call the clock moves only by the limiter's sleep. The time the request itself takes is counted in the next job's delay, so the checkpoint `timestamp` and the next limiter call see it.
- Converter.CppToPythonConverter.ConvertSingleFile: an unwritable target is one that `open(…, 'w')` refuses. A write that fails after the open has truncated the file leaves the target truncated in the code. The model leaves the old text in place.
- Converter.CppToPythonConverter.SaveConversionCache: a `json.dump` that fails after `open(…, 'w')` has truncated the cache file is not modelled. The code leaves the file truncated, and the next load then finds it unreadable and starts from an empty cache. The model leaves the old file in place.
- Paths.PathText: the anchor of an absolute path is not modelled. For an absolute source directory, the cache keys and the "Original path:" header therefore lack the leading '/'.
- Converter.CppToPythonConverter.SleepUntilFree: the code's re-pruning loop reads `datetime.now()` once per key after the sleep. The model prunes every key at the single instant the sleep ends.
- Paths.LowerAscii: lower-cases ASCII letters only. No non-ASCII character lower-cases to an ASCII letter of the eight suffixes, so which files count as C++ is unaffected.
- Cache file: JSON encoding is not modelled, and neither is a JSON document of another shape (for example `converted_files` that is not a list of strings). `list(set)` order is left out: the saved list only holds each key once.
- `load_env_config`, `main` and argparse are left out, and so are the `print` calls.
- Tracker.AccountTracker.Open: `load_dotenv` and `os.getenv("CF_USERNAME")` become the `username` parameter.
- Tracker.LoadTrackingData: does not model a stored user entry without a `problems` object, which the loader returns and later calls fail on. It also does not model a non-object document for which `username in data` holds (a list holding the username, or a string containing it): the loader returns that too. A non-object document without the username raises `TypeError` in the constructor, and so does a file that is not UTF-8 (`UnicodeDecodeError`, which the `except` does not catch); both are modelled. One `now` is given per call, where the code reads `datetime.now()` anew.
- Tracker.AccountTracker.SyncWithApi: each `mark_accepted` inside the loop reads the clock anew. The model uses the one `Env` of the call for all of them, and a write that succeeds or fails the same way throughout.
- Tracker.AccountTracker.SaveTrackingData: `json.dump` failing halfway through a file is not modelled. A write either succeeds entirely or leaves the file as it was.
- Tracker.AccountTracker.GetAllProblems: returns the user's table itself and carries no contract beyond that.
- The rest of `utils.py` is not part of this model: `get_accepted_problems` (an HTTP call with a float score tolerance), `get_config_path` and `load_config`. `get_loop_list`'s listing and accepted list are inputs, and its `print` is left out.
- The browser and submission modules, the CLI and the scripts are not part of this model.

## Findings

| source | as written | input that shows it | evidently intended | confidence | as-written member | corrected member |
|---|---|---|---|---|---|---|
| exp_conv/cpp_to_python_converter.py:113-125 | After waiting, the request is recorded for the key chosen before the wait, even though the oldest timestamp that expired may belong to another key. | Two keys, `rpm_limit` 1, key 0 holding [30] and key 1 holding [0], call at 50. Key 0 is picked, the wait is 11 s, key 1's entry expires, and key 0 ends with [30, 61]: two requests in one minute. | Select the least-loaded key again after re-pruning, so that no key ever exceeds its per-minute budget. | not executed | RateLimit.AcquireCanExceedBudget | RateLimit.AcquireReselectingKeepsBudget |

With the selection repeated after the wait (`RateLimit.AcquireReselecting`), every call with a
positive budget grants a key and keeps every key within budget. The dispatcher model itself
keeps the limiter as written (`RateLimit.Acquire`), so its contracts describe what the code
does.
