/** The per-key sliding-window rate limiter of `CppToPythonConverter.wait_for_rate_limit`,
    as a function of the timestamp table, the per-minute budget and the current instant.
    Instants are whole seconds; the table holds one timestamp list per API key, in key order. */
module RateLimit {

  /** Length of the sliding window in seconds (`timedelta(minutes=1)`). */
  const Window: int := 60

  /** `[t for t in times if t > cutoff]`. */
  function Prune(times: seq<int>, cutoff: int): (r: seq<int>)
    ensures |r| <= |times|
  {
    if |times| == 0 then []
    else
      var rest := Prune(times[1..], cutoff);
      if times[0] > cutoff then [times[0]] + rest else rest
  }

  /** Pruning keeps exactly the instants after the cutoff. */
  lemma {:induction false} PruneMembers(times: seq<int>, cutoff: int)
    ensures forall t :: t in Prune(times, cutoff) <==> t in times && t > cutoff
  {
    if |times| > 0 {
      PruneMembers(times[1..], cutoff);
      assert times == [times[0]] + times[1..];
    }
  }

  /** Pruning twice is pruning once at the later cutoff. */
  lemma {:induction false} PruneTwice(times: seq<int>, a: int, b: int)
    requires a <= b
    ensures Prune(Prune(times, a), b) == Prune(times, b)
  {
    if |times| > 0 {
      PruneTwice(times[1..], a, b);
    }
  }

  /** Pruning drops at least one entry when some entry is at or before the cutoff. */
  lemma {:induction false} PruneShrinks(times: seq<int>, cutoff: int, old_: int)
    requires old_ in times && old_ <= cutoff
    ensures |Prune(times, cutoff)| < |times|
  {
    if times[0] != old_ {
      PruneShrinks(times[1..], cutoff, old_);
    }
  }

  /** Every list of the table pruned at the same cutoff. */
  function PruneAll(tables: seq<seq<int>>, cutoff: int): (r: seq<seq<int>>)
    ensures |r| == |tables|
    ensures forall i :: 0 <= i < |tables| ==> r[i] == Prune(tables[i], cutoff)
  {
    seq(|tables|, i requires 0 <= i < |tables| => Prune(tables[i], cutoff))
  }

  /** The key the scan over `request_times.items()` settles on: the first key with the fewest
      entries, since a later key replaces the current best only when strictly smaller. */
  function LeastLoaded(tables: seq<seq<int>>): (k: nat)
    requires |tables| >= 1
    ensures k < |tables|
  {
    if |tables| == 1 then 0
    else
      var b := LeastLoaded(tables[..|tables| - 1]);
      if |tables[|tables| - 1]| < |tables[b]| then |tables| - 1 else b
  }

  /** The key picked has the fewest entries, and every lower-numbered key has strictly more. */
  lemma {:induction false} LeastLoadedIsFirstLeast(tables: seq<seq<int>>)
    requires |tables| >= 1
    ensures var k := LeastLoaded(tables);
      && (forall j :: 0 <= j < |tables| ==> |tables[k]| <= |tables[j]|)
      && (forall j :: 0 <= j < k ==> |tables[j]| > |tables[k]|)
  {
    if |tables| > 1 {
      var init := tables[..|tables| - 1];
      LeastLoadedIsFirstLeast(init);
      assert forall j :: 0 <= j < |init| ==> init[j] == tables[j];
    }
  }

  predicate AllEmpty(tables: seq<seq<int>>)
  {
    forall i :: 0 <= i < |tables| ==> tables[i] == []
  }

  function Flatten(tables: seq<seq<int>>): (r: seq<int>)
    ensures forall i, t :: 0 <= i < |tables| && t in tables[i] ==> t in r
    ensures forall t :: t in r ==> exists i :: 0 <= i < |tables| && t in tables[i]
  {
    if |tables| == 0 then []
    else
      var rest := Flatten(tables[1..]);
      assert forall i :: 1 <= i < |tables| ==> tables[i] == tables[1..][i - 1];
      tables[0] + rest
  }

  function SeqMin(s: seq<int>): (m: int)
    requires |s| > 0
    ensures m in s && forall t :: t in s ==> m <= t
  {
    if |s| == 1 then s[0]
    else
      var m := SeqMin(s[1..]);
      assert s == [s[0]] + s[1..];
      if s[0] <= m then s[0] else m
  }

  /** `min(min(times) for times in request_times.values() if times)`: the oldest timestamp. */
  function Oldest(tables: seq<seq<int>>): (o: int)
    requires !AllEmpty(tables)
  {
    var k :| 0 <= k < |tables| && tables[k] != [];
    assert tables[k][0] in Flatten(tables);
    SeqMin(Flatten(tables))
  }

  /** The oldest timestamp is held by some key, and no key holds an older one. */
  lemma OldestIsOldest(tables: seq<seq<int>>)
    requires !AllEmpty(tables)
    ensures exists i :: 0 <= i < |tables| && Oldest(tables) in tables[i]
    ensures forall i, t :: 0 <= i < |tables| && t in tables[i] ==> Oldest(tables) <= t
  {
    var m := Oldest(tables);
    forall i, t | 0 <= i < |tables| && t in tables[i] ensures m <= t {
      assert t in Flatten(tables);
    }
  }

  /** Appends instant `t` to the list of key `k`. */
  function Record(tables: seq<seq<int>>, k: nat, t: int): (r: seq<seq<int>>)
    ensures |r| == |tables|
    ensures forall i :: 0 <= i < |tables| && i != k ==> r[i] == tables[i]
    ensures k < |tables| ==> r[k] == tables[k] + [t]
  {
    if k < |tables| then tables[k := tables[k] + [t]] else tables
  }

  /** Result of one call: the key granted with the instant recorded for it, or the
      `ValueError` that `min()` of an empty sequence raises, with the table as pruned so far. */
  datatype Grant =
    | Granted(times: seq<seq<int>>, key: nat, at: int)
    | Raised(times: seq<seq<int>>)

  /** Seconds to sleep so that the oldest entry leaves the window, plus one. */
  function WaitTime(pruned: seq<seq<int>>, now: int): int
    requires !AllEmpty(pruned)
  {
    Window - (now - Oldest(pruned)) + 1
  }

  /** The table and the instant after sleeping until the oldest entry has left the window,
      with the table pruned once more at the new instant; no sleep when the wait is not positive. */
  datatype Pause = Pause(times: seq<seq<int>>, at: int)

  function Sleep(pruned: seq<seq<int>>, now: int): (p: Pause)
    requires !AllEmpty(pruned)
  {
    var wait := WaitTime(pruned, now);
    if wait > 0 then Pause(PruneAll(pruned, now + wait - Window), now + wait) else Pause(pruned, now)
  }

  /** `wait_for_rate_limit` as written: prune, pick the least-loaded key, sleep if that key is
      at the budget, prune again, and record the request for the key picked BEFORE sleeping. */
  function Acquire(tables: seq<seq<int>>, rpm: int, now: int): (g: Grant)
    requires |tables| >= 1
    ensures |g.times| == |tables|
    ensures g.Granted? ==> g.key < |tables| && now <= g.at
  {
    var pruned := PruneAll(tables, now - Window);
    var best := LeastLoaded(pruned);
    if |pruned[best]| < rpm then Granted(Record(pruned, best, now), best, now)
    else if AllEmpty(pruned) then Raised(pruned)
    else
      var p := Sleep(pruned, now);
      Granted(Record(p.times, best, p.at), best, p.at)
  }

  /** The fewest entries any key holds. */
  function MinLoad(tables: seq<seq<int>>): nat
    requires |tables| >= 1
  {
    |tables[LeastLoaded(tables)]|
  }

  /** Every key holds at most `rpm` timestamps. The stored lists are a superset of each key's
      trailing-minute window, so this bounds the requests in every window. */
  predicate WithinBudget(tables: seq<seq<int>>, rpm: int)
  {
    forall i :: 0 <= i < |tables| ==> |tables[i]| <= rpm
  }

  /** After pruning at `now`, every retained instant lies in the trailing minute, so the
      computed wait is always larger than one second and the code's `wait_time > 0` test
      never fails. */
  lemma WaitIsPositive(tables: seq<seq<int>>, now: int)
    requires !AllEmpty(PruneAll(tables, now - Window))
    ensures WaitTime(PruneAll(tables, now - Window), now) > 1
  {
    var pruned := PruneAll(tables, now - Window);
    OldestIsOldest(pruned);
    var i :| 0 <= i < |pruned| && Oldest(pruned) in pruned[i];
    PruneMembers(tables[i], now - Window);
  }

  /** The call fails exactly when the budget is not positive and no key holds any timestamp. */
  lemma AcquireRaises(tables: seq<seq<int>>, rpm: int, now: int)
    requires |tables| >= 1
    ensures Acquire(tables, rpm, now).Raised? <==> rpm <= 0 && AllEmpty(PruneAll(tables, now - Window))
  {
  }

  lemma PruneAllTwice(tables: seq<seq<int>>, a: int, b: int)
    requires a <= b
    ensures PruneAll(PruneAll(tables, a), b) == PruneAll(tables, b)
  {
    forall i | 0 <= i < |tables| ensures PruneAll(PruneAll(tables, a), b)[i] == PruneAll(tables, b)[i] {
      PruneTwice(tables[i], a, b);
    }
  }

  /** What a granted call does to the table: the granted key is in range, the recorded
      instant is never earlier than `now`, and the new table is the old one pruned to the
      window ending at that instant with that instant appended to the granted key only. */
  lemma AcquireEffect(tables: seq<seq<int>>, rpm: int, now: int)
    requires |tables| >= 1
    requires Acquire(tables, rpm, now).Granted?
    ensures var g := Acquire(tables, rpm, now);
      && g.key < |tables| && g.at >= now
      && g.times == Record(PruneAll(tables, g.at - Window), g.key, g.at)
  {
    var pruned := PruneAll(tables, now - Window);
    var best := LeastLoaded(pruned);
    if |pruned[best]| >= rpm && !AllEmpty(pruned) {
      WaitIsPositive(tables, now);
      PruneAllTwice(tables, now - Window, now + WaitTime(pruned, now) - Window);
    }
  }

  /** The same, key by key: every other list is only pruned, never grown. */
  lemma AcquireOnlyGrowsGrantedKey(tables: seq<seq<int>>, rpm: int, now: int)
    requires |tables| >= 1
    requires Acquire(tables, rpm, now).Granted?
    ensures var g := Acquire(tables, rpm, now);
      && |g.times| == |tables|
      && (forall i :: 0 <= i < |tables| && i != g.key ==>
            g.times[i] == Prune(tables[i], g.at - Window) && |g.times[i]| <= |tables[i]|)
      && g.times[g.key] == Prune(tables[g.key], g.at - Window) + [g.at]
  {
    AcquireEffect(tables, rpm, now);
  }

  /** After a granted call every stored timestamp of every key is strictly newer than one
      window before the instant recorded, except that instant itself, which is the newest. */
  lemma AcquireKeepsOnlyRecent(tables: seq<seq<int>>, rpm: int, now: int)
    requires |tables| >= 1
    requires Acquire(tables, rpm, now).Granted?
    ensures var g := Acquire(tables, rpm, now);
      forall i, t :: 0 <= i < |g.times| && t in g.times[i] ==> g.at - Window < t
  {
    var g := Acquire(tables, rpm, now);
    AcquireEffect(tables, rpm, now);
    var pruned := PruneAll(tables, g.at - Window);
    forall i, t | 0 <= i < |g.times| && t in g.times[i] ensures g.at - Window < t {
      PruneMembers(tables[i], g.at - Window);
      if i == g.key {
        assert g.times[i] == pruned[i] + [g.at];
      } else {
        assert g.times[i] == pruned[i];
      }
    }
  }

  /** The key is chosen on the table pruned at `now`: it has the fewest entries, and every
      lower-numbered key has strictly more. */
  lemma AcquirePicksLeastLoaded(tables: seq<seq<int>>, rpm: int, now: int)
    requires |tables| >= 1
    requires Acquire(tables, rpm, now).Granted?
    ensures var pruned, k := PruneAll(tables, now - Window), Acquire(tables, rpm, now).key;
      && k < |pruned|
      && (forall j :: 0 <= j < |pruned| ==> |pruned[k]| <= |pruned[j]|)
      && (forall j :: 0 <= j < k ==> |pruned[j]| > |pruned[k]|)
  {
    LeastLoadedIsFirstLeast(PruneAll(tables, now - Window));
  }

  /** While some key is below the budget the call does not wait, and the chosen key ends at
      most at the budget. */
  lemma AcquireWithoutWait(tables: seq<seq<int>>, rpm: int, now: int)
    requires |tables| >= 1
    requires MinLoad(PruneAll(tables, now - Window)) < rpm
    ensures var g := Acquire(tables, rpm, now);
      && g.Granted? && g.at == now
      && |g.times[g.key]| == MinLoad(PruneAll(tables, now - Window)) + 1 <= rpm
  {
  }

  /** The budget is kept by a call that does not wait, and by every call when there is a
      single key: the wait then evicts that key's own oldest entry. */
  lemma AcquireKeepsBudget(tables: seq<seq<int>>, rpm: int, now: int)
    requires |tables| >= 1 && rpm >= 1 && WithinBudget(tables, rpm)
    requires |tables| == 1 || MinLoad(PruneAll(tables, now - Window)) < rpm
    ensures Acquire(tables, rpm, now).Granted?
    ensures WithinBudget(Acquire(tables, rpm, now).times, rpm)
  {
    var pruned := PruneAll(tables, now - Window);
    var g := Acquire(tables, rpm, now);
    AcquireOnlyGrowsGrantedKey(tables, rpm, now);
    forall i | 0 <= i < |tables| && i != g.key
      ensures |g.times[i]| <= rpm
    {
      assert |Prune(tables[i], g.at - Window)| <= |tables[i]|;
    }
    if MinLoad(pruned) >= rpm {
      assert |pruned[0]| <= |tables[0]|;
      OldestIsOldest(pruned);
      var o := Oldest(pruned);
      assert o in pruned[0];
      WaitIsPositive(tables, now);
      PruneTwice(tables[0], now - Window, g.at - Window);
      PruneShrinks(pruned[0], g.at - Window, o);
    }
  }

  /** With two keys the code as written can exceed the budget: both keys are at a budget of
      one, the oldest entry belongs to key 1, but the request is recorded for key 0, which then
      holds two timestamps inside one minute. */
  lemma AcquireCanExceedBudget()
    ensures WithinBudget([[30], [0]], 1)
    ensures Acquire([[30], [0]], 1, 50) == Granted([[30, 61], []], 0, 61)
    ensures !WithinBudget(Acquire([[30], [0]], 1, 50).times, 1)
  {
    var tables := [[30], [0]];
    assert Prune([30], 50 - Window) == [30];
    assert Prune([0], 50 - Window) == [0];
    assert Prune([30], 61 - Window) == [30];
    assert Prune([0], 61 - Window) == [];
    var pruned := PruneAll(tables, 50 - Window);
    assert pruned == [[30], [0]];
    assert LeastLoaded(pruned) == 0;
    assert !AllEmpty(pruned);
    assert Oldest(pruned) == 0 by {
      OldestIsOldest(pruned);
      assert Oldest(pruned) in pruned[0] || Oldest(pruned) in pruned[1];
      assert Oldest(pruned) <= 0;
    }
    assert WaitTime(pruned, 50) == 11;
    assert PruneAll(pruned, 61 - Window) == [[30], []];
    ghost var r := Record([[30], []], 0, 61);
    assert |r| == 2 && r[0] == [30, 61] && r[1] == [];
    assert r == [[30, 61], []];
  }

  /** `wait_for_rate_limit` with the selection repeated after sleeping, as the rate limiter is
      meant to work: prune, pick, and when every key is saturated, wait for the oldest entry to
      leave the window, prune again and pick again. */
  function AcquireReselecting(tables: seq<seq<int>>, rpm: int, now: int): (g: Grant)
    requires |tables| >= 1
  {
    var pruned := PruneAll(tables, now - Window);
    var best := LeastLoaded(pruned);
    if |pruned[best]| < rpm then Granted(Record(pruned, best, now), best, now)
    else if AllEmpty(pruned) then Raised(pruned)
    else
      var later := now + WaitTime(pruned, now);
      var again := PruneAll(pruned, later - Window);
      var next := LeastLoaded(again);
      Granted(Record(again, next, later), next, later)
  }

  /** With a positive budget the corrected limiter always grants a key and keeps every key
      within the budget, whatever the number of keys. */
  lemma AcquireReselectingKeepsBudget(tables: seq<seq<int>>, rpm: int, now: int)
    requires |tables| >= 1 && rpm >= 1 && WithinBudget(tables, rpm)
    ensures AcquireReselecting(tables, rpm, now).Granted?
    ensures WithinBudget(AcquireReselecting(tables, rpm, now).times, rpm)
  {
    var pruned := PruneAll(tables, now - Window);
    var best := LeastLoaded(pruned);
    assert forall i :: 0 <= i < |tables| ==> |pruned[i]| <= |tables[i]|;
    if |pruned[best]| >= rpm {
      assert !AllEmpty(pruned) by { assert pruned[best] != []; }
      OldestIsOldest(pruned);
      var o := Oldest(pruned);
      var j :| 0 <= j < |pruned| && o in pruned[j];
      WaitIsPositive(tables, now);
      var later := now + WaitTime(pruned, now);
      var again := PruneAll(pruned, later - Window);
      PruneShrinks(pruned[j], later - Window, o);
      assert |again[j]| < rpm;
      var next := LeastLoaded(again);
      LeastLoadedIsFirstLeast(again);
      assert |again[next]| <= |again[j]|;
      assert forall i :: 0 <= i < |again| ==> |again[i]| <= |pruned[i]|;
    }
  }
}
