/** Building: the worker count, the claim loop the worker threads share, and
    `build`, `build_all` and `build_updated` with the page builder's outcome
    as a parameter. */
module Scheduler {
  import opened Wrappers
  import opened Paths
  import opened Pages
  import opened Staleness

  const TwoTo31: int := 0x8000_0000
  const TwoTo32: int := 0x1_0000_0000

  predicate IsInt32(x: int)
  {
    -TwoTo31 <= x < TwoTo31
  }

  /** Converting an unsigned 32-bit value to a signed one, two's complement. */
  function ToInt32(u: int): (r: int)
    requires 0 <= u < TwoTo32
    ensures IsInt32(r)
    ensures r == u || r == u - TwoTo32
  {
    if u < TwoTo31 then u else u - TwoTo32
  }

  // ---------------------------------------------------------- worker count

  /** The number of worker threads as the code computes it: a non-negative
      setting is used as is; a negative one is negated and multiplied by the
      core count, and the core count being unsigned makes that product
      unsigned 32-bit arithmetic, converted back to `int`. */
  function WorkerCount(threads: int, cores: int): (r: int)
    requires IsInt32(threads) && 0 <= cores < TwoTo32
    ensures IsInt32(r)
    ensures threads >= 0 ==> r == threads
    ensures threads < 0 && -threads * cores < TwoTo31 ==> r == -threads * cores
  {
    if threads >= 0 then threads
    else ToInt32(((-threads) * cores) % TwoTo32)
  }

  /** The wrap-around can leave no worker at all: a setting of -2^30 on a
      four-core machine gives zero threads, so nothing is scanned or built. */
  lemma WorkerCountWraps()
    ensures WorkerCount(-0x4000_0000, 4) == 0
    ensures WorkerCountWide(-0x4000_0000, 4) == 0x1_0000_0000
  {
  }

  /** The worker count as evidently intended: the negated setting times the
      core count, without wrap-around. */
  function WorkerCountWide(threads: int, cores: nat): int
  {
    if threads >= 0 then threads else -threads * cores
  }

  /** With a non-zero setting and at least one core there is at least one
      worker, and below the wrap-around the two counts agree. */
  lemma WorkerCountWideRuns(threads: int, cores: nat)
    requires threads != 0 && cores >= 1
    ensures WorkerCountWide(threads, cores) >= 1
    ensures IsInt32(threads) && cores < TwoTo32 && WorkerCountWide(threads, cores) < TwoTo31 ==>
      WorkerCount(threads, cores) == WorkerCountWide(threads, cores)
  {
    if threads < 0 {
      assert -threads >= 1;
      assert -threads * cores >= cores;
    }
  }

  // ------------------------------------------------------------ claim loop

  /** A worker thread: waiting to claim, processing the item it claimed, or
      returned because every item has been claimed. */
  datatype Worker = Idle | Busy(item: nat) | Exited

  /** The shared state of the claim loop: the claim counter (which also
      indexes the next item), the workers, the items processed, and the names
      entered into `builtPages` and `failedPages`. */
  datatype Pool = Pool(counter: nat, workers: seq<Worker>, finished: set<nat>, built: set<Name>, failed: set<Name>)

  function Start(k: nat): Pool
  {
    Pool(0, seq(k, _ => Idle), {}, {}, {})
  }

  /** The names of the finished items whose build had outcome `want`. */
  function Outcomes(finished: set<nat>, items: seq<Name>, outcome: seq<bool>, want: bool): set<Name>
  {
    set i | i in finished && i < |items| && i < |outcome| && outcome[i] == want :: items[i]
  }

  /** One step of worker `w` over `items`, whose builds have the outcomes
      `outcome`: under the lock an idle worker exits if every item is claimed
      and otherwise claims the next one; a busy worker builds its item and
      enters its name into the built or the failed set by the outcome. */
  function Step(p: Pool, items: seq<Name>, outcome: seq<bool>, w: nat): Pool
    requires w < |p.workers| && |outcome| == |items|
    requires p.workers[w].Busy? ==> p.workers[w].item < |items|
  {
    match p.workers[w]
    case Idle =>
      if p.counter >= |items| then p.(workers := p.workers[w := Exited])
      else p.(counter := p.counter + 1, workers := p.workers[w := Busy(p.counter)])
    case Busy(i) =>
      var q := p.(workers := p.workers[w := Idle], finished := p.finished + {i});
      if outcome[i] then q.(built := p.built + {items[i]}) else q.(failed := p.failed + {items[i]})
    case Exited => p
  }

  /** The claim loop's invariant: every item below the counter is either
      finished or held by exactly one busy worker, nothing at or above it has
      been touched, a worker only exits once every item is claimed, and the
      built and failed sets hold exactly the names of the finished items by
      outcome. */
  predicate Inv(p: Pool, items: seq<Name>, outcome: seq<bool>)
  {
    && |outcome| == |items|
    && p.counter <= |items|
    && (forall i :: i in p.finished ==> i < p.counter)
    && (forall w :: 0 <= w < |p.workers| && p.workers[w].Busy? ==>
          p.workers[w].item < p.counter && p.workers[w].item !in p.finished)
    && (forall v, w :: 0 <= v < w < |p.workers| && p.workers[v].Busy? && p.workers[w].Busy? ==>
          p.workers[v].item != p.workers[w].item)
    && (forall i :: 0 <= i < p.counter && i !in p.finished ==>
          exists w :: 0 <= w < |p.workers| && p.workers[w] == Busy(i))
    && (forall w :: 0 <= w < |p.workers| && p.workers[w].Exited? ==> p.counter == |items|)
    && p.built == Outcomes(p.finished, items, outcome, true)
    && p.failed == Outcomes(p.finished, items, outcome, false)
  }

  lemma StartInv(k: nat, items: seq<Name>, outcome: seq<bool>)
    requires |outcome| == |items|
    ensures Inv(Start(k), items, outcome)
  {
  }

  /** Finishing one more item adds its name to the set of its outcome. */
  lemma OutcomesAdd(finished: set<nat>, items: seq<Name>, outcome: seq<bool>, x: nat, want: bool)
    requires x < |items| == |outcome|
    ensures Outcomes(finished + {x}, items, outcome, want) ==
      Outcomes(finished, items, outcome, want) + (if outcome[x] == want then {items[x]} else {})
  {
  }

  /** Each step keeps the invariant; an item is finished at most once, and
      only an item that was claimed and not yet finished. */
  lemma {:induction false} StepPreservesInv(p: Pool, items: seq<Name>, outcome: seq<bool>, w: nat)
    requires Inv(p, items, outcome) && w < |p.workers|
    ensures Inv(Step(p, items, outcome, w), items, outcome)
    ensures Step(p, items, outcome, w).finished == p.finished ||
      (p.workers[w].Busy? && p.workers[w].item !in p.finished &&
       Step(p, items, outcome, w).finished == p.finished + {p.workers[w].item})
  {
    match p.workers[w]
    case Idle => IdleStepInv(p, items, outcome, w);
    case Busy(item) => BusyStepInv(p, items, outcome, w);
    case Exited =>
  }

  /** An idle worker either exits (every item claimed) or claims the item at
      the counter, which nobody held. */
  lemma {:induction false} IdleStepInv(p: Pool, items: seq<Name>, outcome: seq<bool>, w: nat)
    requires Inv(p, items, outcome) && w < |p.workers| && p.workers[w].Idle?
    ensures Inv(Step(p, items, outcome, w), items, outcome) && Step(p, items, outcome, w).finished == p.finished
  {
    var q := Step(p, items, outcome, w);
    forall i | 0 <= i < q.counter && i !in q.finished
      ensures exists u :: 0 <= u < |q.workers| && q.workers[u] == Busy(i)
    {
      if i == p.counter {
        assert q.workers[w] == Busy(i);
      } else {
        var u :| 0 <= u < |p.workers| && p.workers[u] == Busy(i);
        assert q.workers[u] == Busy(i);
      }
    }
  }

  /** A busy worker finishes the item only it held, enters its name by the
      outcome, and becomes idle. */
  lemma {:induction false} BusyStepInv(p: Pool, items: seq<Name>, outcome: seq<bool>, w: nat)
    requires Inv(p, items, outcome) && w < |p.workers| && p.workers[w].Busy?
    ensures Inv(Step(p, items, outcome, w), items, outcome)
    ensures p.workers[w].item !in p.finished &&
      Step(p, items, outcome, w).finished == p.finished + {p.workers[w].item}
  {
    var q := Step(p, items, outcome, w);
    var x := p.workers[w].item;
    forall i | 0 <= i < q.counter && i !in q.finished
      ensures exists u :: 0 <= u < |q.workers| && q.workers[u] == Busy(i)
    {
      var u :| 0 <= u < |p.workers| && p.workers[u] == Busy(i);
      assert u != w;
      assert q.workers[u] == Busy(i);
    }
    OutcomesAdd(p.finished, items, outcome, x, true);
    OutcomesAdd(p.finished, items, outcome, x, false);
  }

  /** When every worker has exited, and there was at least one, every item
      has been processed. */
  lemma AllExitedMeansAllFinished(p: Pool, items: seq<Name>, outcome: seq<bool>)
    requires Inv(p, items, outcome) && |p.workers| > 0
    requires forall w :: 0 <= w < |p.workers| ==> p.workers[w].Exited?
    ensures forall i :: 0 <= i < |items| <==> i in p.finished
  {
    assert p.workers[0].Exited?;
  }

  /** When every worker has exited, each item's name is in exactly the set
      its build's outcome picks, as `RunBatch` states for a run with at least
      one worker: the interleaved claim loop and the batch agree. */
  lemma {:induction false} ClaimLoopMatchesBatch(p: Pool, items: seq<Name>, outcome: seq<bool>,
                                                 pages: Registry, ok: PageInfo -> bool)
    requires Inv(p, items, outcome) && |p.workers| > 0
    requires forall w :: 0 <= w < |p.workers| ==> p.workers[w].Exited?
    requires forall i :: 0 <= i < |items| ==> items[i] in pages
    requires forall i :: 0 <= i < |outcome| && i < |items| ==> outcome[i] == ok(pages[items[i]])
    ensures p.built == set n | n in items && ok(pages[n])
    ensures p.failed == set n | n in items && !ok(pages[n])
  {
    AllExitedMeansAllFinished(p, items, outcome);
    forall n ensures n in p.built <==> n in items && ok(pages[n]) {
      if n in items && ok(pages[n]) {
        var i :| 0 <= i < |items| && items[i] == n;
        assert i in p.finished && outcome[i];
      }
    }
    forall n ensures n in p.failed <==> n in items && !ok(pages[n]) {
      if n in items && !ok(pages[n]) {
        var i :| 0 <= i < |items| && items[i] == n;
        assert i in p.finished && !outcome[i];
      }
    }
  }

  // ---------------------------------------------------------------- batches

  /** One run of the builder threads over `items`: with no worker nothing is
      built; otherwise every item is built once and lands in `built` or
      `failed` by the builder's outcome. */
  method RunBatch(items: seq<Name>, pages: Registry, ok: PageInfo -> bool, workers: int)
    returns (built: set<Name>, failed: set<Name>)
    requires forall i :: 0 <= i < |items| ==> items[i] in pages
    ensures workers <= 0 ==> built == {} && failed == {}
    ensures workers > 0 ==> built == set n | n in items && ok(pages[n])
    ensures workers > 0 ==> failed == set n | n in items && !ok(pages[n])
    ensures built !! failed
  {
    built, failed := {}, {};
    if workers <= 0 {
      return;
    }
    var i := 0;
    while i < |items|
      invariant 0 <= i <= |items|
      invariant built == set n | n in items[..i] && ok(pages[n])
      invariant failed == set n | n in items[..i] && !ok(pages[n])
    {
      assert items[..i + 1] == items[..i] + [items[i]];
      if ok(pages[items[i]]) {
        built := built + {items[i]};
      } else {
        failed := failed + {items[i]};
      }
      i := i + 1;
    }
    assert items[..i] == items;
  }

  /** What `build` reports for an explicit list of page names. */
  datatype BuildReport = BuildReport(failed: set<Name>, untracked: set<Name>, allBuilt: bool)

  /** `build`: each tracked name is built, each untracked one reported, and
      "all pages built successfully" printed when neither list is non-empty. */
  method Build(names: seq<Name>, pages: Registry, ok: PageInfo -> bool) returns (r: BuildReport)
    ensures r.failed == set n | n in names && n in pages && !ok(pages[n])
    ensures r.untracked == set n | n in names && n !in pages
    ensures r.allBuilt <==> forall i :: 0 <= i < |names| ==> names[i] in pages && ok(pages[names[i]])
  {
    var failed: set<Name> := {};
    var untracked: set<Name> := {};
    var i := 0;
    while i < |names|
      invariant 0 <= i <= |names|
      invariant failed == set n | n in names[..i] && n in pages && !ok(pages[n])
      invariant untracked == set n | n in names[..i] && n !in pages
    {
      assert names[..i + 1] == names[..i] + [names[i]];
      var n := names[i];
      if n in pages {
        if !ok(pages[n]) {
          failed := failed + {n};
        }
      } else {
        untracked := untracked + {n};
      }
      i := i + 1;
    }
    assert names[..i] == names;
    var allBuilt := failed == {} && untracked == {};
    if !allBuilt {
      if n :| n in failed {
        var j :| 0 <= j < |names| && names[j] == n;
      } else {
        var n :| n in untracked;
        var j :| 0 <= j < |names| && names[j] == n;
      }
    } else {
      forall j | 0 <= j < |names| ensures names[j] in pages && ok(pages[names[j]]) {
        assert names[j] !in untracked;
        assert names[j] !in failed;
      }
    }
    r := BuildReport(failed, untracked, allBuilt);
  }

  /** What `build_all` reports: the pages built, the pages that failed, and
      the count in "all <n> pages built successfully" when nothing failed. */
  datatype BuildAllReport = BuildAllReport(built: set<Name>, failed: set<Name>, successCount: Option<nat>)

  /** `build_all`: every tracked page goes through the claim loop once. */
  method BuildAll(pages: Registry, order: seq<Name>, ok: PageInfo -> bool, workers: int)
    returns (r: BuildAllReport)
    requires forall i :: 0 <= i < |order| ==> order[i] in pages
    requires forall n :: n in pages ==> n in order
    ensures r.built + r.failed == if workers > 0 then pages.Keys else {}
    ensures forall n :: n in r.built ==> ok(pages[n])
    ensures forall n :: n in r.failed ==> !ok(pages[n])
    ensures r.successCount.Some? <==> r.failed == {}
    ensures r.successCount.Some? ==> r.successCount.value == |r.built|
    ensures workers > 0 && (forall n :: n in pages ==> ok(pages[n])) ==> r.successCount == Some(|pages|)
  {
    var built, failed := RunBatch(order, pages, ok, workers);
    if workers > 0 && forall n :: n in pages ==> ok(pages[n]) {
      assert built == pages.Keys;
    }
    r := BuildAllReport(built, failed, if failed == {} then Some(|built|) else None);
  }

  /** The names of `order` that lie in `keep`, in order. */
  function Select(order: seq<Name>, keep: set<Name>): (r: seq<Name>)
    ensures forall n :: n in r <==> n in order && n in keep
    decreases |order|
  {
    if |order| == 0 then []
    else if order[0] in keep then [order[0]] + Select(order[1..], keep)
    else Select(order[1..], keep)
  }

  /** A scan that finds no stale and no problem page found every page
      current. */
  lemma QuietScanMeansCurrent(env: Env, snap: Snapshot, pages: Registry)
    requires ScanOf(env, snap, pages).updated == {} && ScanOf(env, snap, pages).problems == {}
    ensures forall n :: n in pages ==> Classify(env, snap, pages[n]).verdict == Current
  {
    forall n | n in pages ensures Classify(env, snap, pages[n]).verdict == Current {
      assert n !in ScanOf(env, snap, pages).updated;
      assert n !in ScanOf(env, snap, pages).problems;
    }
  }

  /** What `build_updated` reports. */
  datatype UpdateReport = UpdateReport(scan: Scan, built: set<Name>, failed: set<Name>, upToDate: bool)

  /** `build_updated`: the scan threads classify every tracked page, then the
      builder threads build the stale ones; "all pages are already up to
      date" is printed when no page is stale, none is a problem and no build
      failed. */
  method BuildUpdated(env: Env, snap: Snapshot, pages: Registry, order: seq<Name>,
                      ok: PageInfo -> bool, workers: int) returns (r: UpdateReport)
    requires forall i :: 0 <= i < |order| ==> order[i] in pages
    requires forall n :: n in pages ==> n in order
    ensures workers <= 0 ==> r == UpdateReport(Scan({}, {}, {}, {}), {}, {}, true)
    ensures workers > 0 ==> r.scan == ScanOf(env, snap, pages)
    ensures workers > 0 ==> r.built == set n | n in r.scan.updated && ok(pages[n])
    ensures workers > 0 ==> r.failed == set n | n in r.scan.updated && !ok(pages[n])
    ensures r.upToDate <==> r.scan.updated == {} && r.scan.problems == {} && r.failed == {}
    ensures workers > 0 && r.upToDate ==> forall n :: n in pages ==> Classify(env, snap, pages[n]).verdict == Current
  {
    if workers <= 0 {
      return UpdateReport(Scan({}, {}, {}, {}), {}, {}, true);
    }
    var scan := ScanAll(env, snap, pages, order);
    var todo := Select(order, scan.updated);
    var built, failed := RunBatch(todo, pages, ok, workers);
    assert built == set n | n in scan.updated && ok(pages[n]);
    assert failed == set n | n in scan.updated && !ok(pages[n]);
    var upToDate := scan.updated == {} && scan.problems == {} && failed == {};
    if upToDate {
      QuietScanMeansCurrent(env, snap, pages);
    }
    r := UpdateReport(scan, built, failed, upToDate);
  }
}
