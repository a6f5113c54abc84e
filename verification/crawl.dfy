/**
 * The crawl bookkeeping of the `Dou` object: `run` walks the offsets of
 * `_get_tasks`, launches one task per offset and counts it in
 * `threadsCount`; once `MaxThreadsCount` tasks are in flight it sleeps until
 * done-callbacks (`_done_task`) have brought the count back under the
 * ceiling. A task whose page yielded no company raises the stop flag, after
 * which `run` launches nothing more.
 *
 * asyncio runs the callbacks on the loop's only thread, so a launch and a
 * callback are each one atomic step: the methods below. The event loop is
 * modelled by the multiset `pending` of launched tasks whose callback has not
 * run yet; which of them finishes during a sleep is left open.
 */
module Crawl {
  import opened Offsets
  import opened Companies

  /** The ceiling on tasks in flight. */
  const MaxThreadsCount := 5

  /** A multiset with a positive size holds some element. */
  lemma SomePending(m: multiset<int>)
    requires |m| > 0
    ensures exists o :: o in m
  {
    if forall o :: o !in m {
      assert false;
    }
  }

  /** Some task among `done` found no company, the task for offset `o`
      having found `results(o)`. */
  ghost predicate SomeEmpty(done: multiset<int>, results: int -> seq<Company>) {
    exists o {:trigger results(o)} :: o in done && results(o) == []
  }

  /** A task that found nothing among some tasks is one among more. */
  lemma SomeEmptyGrows(a: multiset<int>, b: multiset<int>, results: int -> seq<Company>)
    requires a <= b && SomeEmpty(a, results)
    ensures SomeEmpty(b, results)
  {
    var o :| o in a && results(o) == [];
    assert o in b;
  }

  /** One more finished task: some finished task found nothing exactly when
      an earlier one did or the new one did. */
  lemma SomeEmptyAddOne(done: multiset<int>, o: int, results: int -> seq<Company>)
    ensures SomeEmpty(done + multiset{o}, results) <==> SomeEmpty(done, results) || results(o) == []
  {
    if SomeEmpty(done + multiset{o}, results) && results(o) != [] {
      var p :| p in done + multiset{o} && results(p) == [];
      assert p != o && p in done;
    }
    if SomeEmpty(done, results) {
      SomeEmptyGrows(done, done + multiset{o}, results);
    }
    if results(o) == [] {
      assert o in done + multiset{o};
    }
  }

  /** Some task among two collections found no company exactly when some
      task among one of them did. */
  lemma SomeEmptyUnion(a: multiset<int>, b: multiset<int>, results: int -> seq<Company>)
    ensures SomeEmpty(a + b, results) <==> SomeEmpty(a, results) || SomeEmpty(b, results)
  {
    if SomeEmpty(a + b, results) {
      var o :| o in a + b && results(o) == [];
      assert o in a || o in b;
    }
    if SomeEmpty(a, results) {
      SomeEmptyGrows(a, a + b, results);
    }
    if SomeEmpty(b, results) {
      SomeEmptyGrows(b, a + b, results);
    }
  }

  /** Launching a task adds it both to what has arrived and to what is
      pending, so the finished tasks stay the same. */
  lemma LaunchKeepsFinished(arrived: multiset<int>, pending: multiset<int>, x: int)
    ensures (arrived + multiset{x}) - (pending + multiset{x}) == arrived - pending
  {
    forall y ensures ((arrived + multiset{x}) - (pending + multiset{x}))[y] == (arrived - pending)[y] {
    }
  }

  /** The tasks finished by the end are those finished by a midpoint plus
      those finished after it. */
  lemma FinishedChain(arrived: multiset<int>, middle: multiset<int>, pending: multiset<int>)
    requires pending <= middle && middle <= arrived
    ensures arrived - pending == (arrived - middle) + (middle - pending)
  {
    forall y ensures (arrived - pending)[y] == ((arrived - middle) + (middle - pending))[y] {
    }
  }

  /** One more task finishes: it joins the tasks finished so far. */
  lemma FinishOne(arrived: multiset<int>, pending: multiset<int>, o: int)
    requires o in pending && pending <= arrived
    ensures arrived - (pending - multiset{o}) == (arrived - pending) + multiset{o}
  {
    forall y ensures (arrived - (pending - multiset{o}))[y] == ((arrived - pending) + multiset{o})[y] {
    }
  }

  /** Launching the next offset adds it to the tasks that have arrived. */
  lemma ArrivedStep(start: multiset<int>, offsets: seq<int>, d: nat)
    requires d < |offsets|
    ensures offsets[..d + 1] == offsets[..d] + [offsets[d]]
    ensures start + multiset(offsets[..d + 1]) == start + multiset(offsets[..d]) + multiset{offsets[d]}
  {
    assert offsets[..d + 1] == offsets[..d] + [offsets[d]];
  }

  /** One launch followed by the sleep loop, started with the flag down and
      no finished task empty: the flag is up afterwards exactly when a task
      finished by then found nothing. */
  lemma FlagStep(arrived: multiset<int>, waiting: multiset<int>, x: int, pending: multiset<int>, results: int -> seq<Company>)
    requires waiting <= arrived && pending <= waiting + multiset{x}
    requires !SomeEmpty(arrived - waiting, results)
    ensures pending <= arrived + multiset{x}
    ensures SomeEmpty(waiting + multiset{x} - pending, results) == SomeEmpty(arrived + multiset{x} - pending, results)
  {
    LaunchKeepsFinished(arrived, waiting, x);
    FinishedChain(arrived + multiset{x}, waiting + multiset{x}, pending);
    SomeEmptyUnion(arrived + multiset{x} - (waiting + multiset{x}), waiting + multiset{x} - pending, results);
  }

  /** A sub-multiset is no larger. */
  lemma SubMultisetSize(m: multiset<int>, p: multiset<int>)
    requires m <= p
    ensures |m| <= |p|
  {
    assert p == m + (p - m);
  }

  /** Every page from index `n` on holds no company. */
  ghost predicate EmptyFrom(offsets: seq<int>, n: int, results: int -> seq<Company>) {
    forall k :: 0 <= k < |offsets| && n <= k ==> results(offsets[k]) == []
  }

  /** Where the trailing run of empty pages begins: every page from there
      on is empty, and the page just before it, if any, is not. */
  ghost function EmptyTailStart(offsets: seq<int>, results: int -> seq<Company>): (n: nat)
    ensures n <= |offsets|
    ensures EmptyFrom(offsets, n, results)
    ensures n > 0 ==> results(offsets[n - 1]) != []
  {
    if offsets == [] then 0
    else if results(offsets[|offsets| - 1]) == [] then
      var init := offsets[..|offsets| - 1];
      var n := EmptyTailStart(init, results);
      assert forall k :: 0 <= k < |init| ==> init[k] == offsets[k];
      n
    else |offsets|
  }

  /** Every index from which all pages are empty lies at or after the
      start of the trailing run. */
  lemma {:induction false} EmptyTailLeast(offsets: seq<int>, n: int, results: int -> seq<Company>)
    requires 0 <= n && EmptyFrom(offsets, n, results)
    ensures EmptyTailStart(offsets, results) <= n
    decreases |offsets|
  {
    if n < |offsets| {
      var init := offsets[..|offsets| - 1];
      assert results(offsets[|offsets| - 1]) == [];
      forall k | 0 <= k < |init| && n <= k ensures results(init[k]) == [] {
        assert init[k] == offsets[k];
      }
      EmptyTailLeast(init, n, results);
    }
  }

  /** While no task that found nothing has finished, every launched task
      with an empty page is still pending, so there are at most as many of
      them as pending tasks. */
  lemma EmptyStillPending(arrived: multiset<int>, pending: multiset<int>, s: seq<int>, results: int -> seq<Company>)
    requires multiset(s) <= arrived
    requires forall i :: 0 <= i < |s| ==> results(s[i]) == []
    requires !SomeEmpty(arrived - pending, results)
    ensures |s| <= |pending|
  {
    forall y ensures multiset(s)[y] <= pending[y] {
      if y in multiset(s) {
        assert y in s;
        assert y in arrived - pending ==> SomeEmpty(arrived - pending, results);
      }
    }
    SubMultisetSize(multiset(s), pending);
  }

  class Crawler {
    /** The number of launched tasks whose done-callback has not run. */
    var threadsCount: int
    /** Set by the first task that comes back with no company; never cleared. */
    var isStop: bool
    /** The offsets of the tasks the event loop still holds. */
    var pending: multiset<int>
    /** Every offset launched so far, in launch order. */
    ghost var launched: seq<int>
    /** How many offsets had been launched when the stop flag went up. */
    ghost var stopMark: nat

    /** The counter stays within the ceiling and counts exactly the pending
        tasks, each of them one that was launched; once the flag is up, the
        launches are frozen at the moment it went up. */
    ghost predicate Valid()
      reads this
    {
      && 0 <= threadsCount <= MaxThreadsCount
      && threadsCount == |pending|
      && pending <= multiset(launched)
      && (isStop ==> stopMark == |launched|)
    }

    /** The state `__init__` sets up: nothing in flight, not stopped. */
    constructor ()
      ensures Valid()
      ensures threadsCount == 0 && !isStop && pending == multiset{} && launched == []
    {
      threadsCount := 0;
      isStop := false;
      pending := multiset{};
      launched := [];
      stopMark := 0;
    }

    /** True while `run` must sleep before launching another task. Under
        the invariant this means the ceiling is reached exactly, so there
        are tasks in flight whose callbacks can end the wait. */
    predicate MustWait()
      reads this
      ensures Valid() && MustWait() ==> threadsCount == MaxThreadsCount == |pending|
      ensures Valid() && !MustWait() ==> threadsCount < MaxThreadsCount
    {
      threadsCount >= MaxThreadsCount
    }

    /** One turn of `run`'s loop for the offset the generator just yielded:
        give up if the flag is up, otherwise launch the task for that offset
        with its done-callback and count it. The sleep loop of the previous
        turn left the count below the ceiling. */
    method Dispatch(startFrom: int) returns (started: bool)
      requires Valid() && !MustWait()
      modifies this
      ensures Valid()
      ensures started == !old(isStop)
      ensures isStop == old(isStop) && stopMark == old(stopMark)
      ensures started ==> && threadsCount == old(threadsCount) + 1
                          && pending == old(pending) + multiset{startFrom}
                          && launched == old(launched) + [startFrom]
      ensures !started ==> unchanged(this)
    {
      if isStop {
        return false;
      }
      pending := pending + multiset{startFrom};
      launched := launched + [startFrom];
      threadsCount := threadsCount + 1;
      started := true;
    }

    /** `_done_task`: the task for `startFrom` finished with `companies`. An
        empty list raises the flag, whatever made it empty (a failed request
        included); the count goes down either way. */
    method Complete(startFrom: int, companies: seq<Company>)
      requires Valid() && startFrom in pending
      modifies this
      ensures Valid()
      ensures isStop == (old(isStop) || companies == [])
      ensures old(isStop) ==> stopMark == old(stopMark)
      ensures threadsCount == old(threadsCount) - 1
      ensures pending == old(pending) - multiset{startFrom}
      ensures launched == old(launched)
    {
      if companies == [] {
        if !isStop {
          stopMark := |launched|;
        }
        isStop := true;
      }
      threadsCount := threadsCount - 1;
      pending := pending - multiset{startFrom};
    }

    /** One `asyncio.sleep` of the throttle loop: while `run` sleeps, the
        event loop runs the done-callbacks of at least one finished task.
        The tasks that finished leave `pending`; the flag goes up exactly
        when it was up already or one of them found no company. */
    method Sleep(results: int -> seq<Company>)
      requires Valid() && threadsCount > 0
      modifies this
      ensures Valid()
      ensures threadsCount < old(threadsCount)
      ensures pending <= old(pending)
      ensures launched == old(launched)
      ensures isStop == (old(isStop) || SomeEmpty(old(pending) - pending, results))
      ensures old(isStop) ==> stopMark == old(stopMark)
    {
      var finished: nat :| 1 <= finished <= threadsCount;
      assert old(pending) - pending == multiset{};
      for j := 0 to finished
        invariant Valid()
        invariant threadsCount == old(threadsCount) - j
        invariant pending <= old(pending)
        invariant launched == old(launched)
        invariant isStop == (old(isStop) || SomeEmpty(old(pending) - pending, results))
        invariant old(isStop) ==> stopMark == old(stopMark)
      {
        SomePending(pending);
        var o :| o in pending;
        ghost var before := pending;
        Complete(o, results(o));
        FinishOne(old(pending), before, o);
        SomeEmptyAddOne(old(pending) - before, o, results);
      }
    }

    /** `run`: launch the offsets `_get_tasks` yields, in strictly
        increasing order, until the flag is up or all 500 are launched. The
        flag is up afterwards exactly when it was up before or a task that
        finished during the call found no company; once every page from
        the n-th on is empty, at most five offsets from the n-th on are
        launched. With the flag down at the start, no callback runs before
        five tasks are in flight, so the call launches every offset or
        fills the ceiling. */
    method Run(results: int -> seq<Company>) returns (dispatched: nat)
      requires Valid() && !MustWait()
      modifies this
      ensures Valid() && !MustWait()
      ensures dispatched <= |Tasks()|
      ensures launched == old(launched) + Tasks()[..dispatched]
      ensures dispatched < |Tasks()| ==> isStop
      ensures old(isStop) ==> isStop && dispatched == 0 && stopMark == old(stopMark)
      ensures pending <= old(pending) + multiset(Tasks()[..dispatched])
      ensures isStop == (old(isStop) || SomeEmpty(old(pending) + multiset(Tasks()[..dispatched]) - pending, results))
      ensures isStop ==> old(isStop) || SomeEmpty(multiset(launched), results)
      ensures forall n :: 0 <= n <= |Tasks()| && EmptyFrom(Tasks(), n, results) ==> dispatched <= n + MaxThreadsCount
      ensures !old(isStop) ==> dispatched == |Tasks()| || |old(pending)| + dispatched >= MaxThreadsCount
      ensures forall i, j :: |old(launched)| <= i < j < |launched| ==> launched[i] < launched[j]
    {
      dispatched := RunOver(Tasks(), results);
      TasksIncrease();
      assert forall k :: |old(launched)| <= k < |launched| ==> launched[k] == Tasks()[k - |old(launched)|];
    }

    /** The loop of `run` over the offsets a generator yields: launch them
        in order until the flag is up or the offsets run out, sleeping
        whenever the ceiling is reached. During a sleep the event loop runs
        the callbacks of one or more finished tasks, the task for offset `o`
        having found `results(o)`. Returns without waiting for the tasks
        still in flight.

        A task has arrived when it was pending at the start or launched
        during the call; it has finished when it arrived and is no longer
        pending. The flag is up exactly when it was up at the start or a
        finished task found nothing. When every page from the n-th on is
        empty, a launch past the n-th keeps its task pending until the flag
        goes up, so at most five offsets from the n-th on are launched.
        Below the ceiling the loop never awaits, so with the flag down at
        the start it launches every offset or fills the ceiling before any
        callback runs. */
    method RunOver(offsets: seq<int>, results: int -> seq<Company>) returns (dispatched: nat)
      requires Valid() && !MustWait()
      modifies this
      ensures Valid() && !MustWait()
      ensures dispatched <= |offsets|
      ensures launched == old(launched) + offsets[..dispatched]
      ensures dispatched < |offsets| ==> isStop
      ensures old(isStop) ==> isStop && dispatched == 0 && stopMark == old(stopMark)
      ensures pending <= old(pending) + multiset(offsets[..dispatched])
      ensures isStop == (old(isStop) || SomeEmpty(old(pending) + multiset(offsets[..dispatched]) - pending, results))
      ensures isStop ==> old(isStop) || SomeEmpty(multiset(launched), results)
      ensures forall n :: 0 <= n <= |offsets| && EmptyFrom(offsets, n, results) ==> dispatched <= n + MaxThreadsCount
      ensures !old(isStop) ==> dispatched == |offsets| || |old(pending)| + dispatched >= MaxThreadsCount
    {
      dispatched := LaunchAll(offsets, results);
      ProgressEnd(offsets, dispatched, old(pending), old(launched), old(isStop), results);
    }

    /** The loop of `run` itself, with what it keeps stated by `Progress`:
        it stops when the offsets run out or the flag is seen. */
    method LaunchAll(offsets: seq<int>, results: int -> seq<Company>) returns (dispatched: nat)
      requires Valid() && !MustWait()
      modifies this
      ensures Progress(offsets, dispatched, old(pending), old(launched), old(isStop), results)
      ensures dispatched < |offsets| ==> isStop
      ensures old(isStop) ==> isStop && dispatched == 0 && stopMark == old(stopMark)
    {
      dispatched := 0;
      assert launched == old(launched) + offsets[..0];
      assert pending + multiset(offsets[..0]) - pending == multiset{};
      while dispatched < |offsets|
        invariant Progress(offsets, dispatched, old(pending), old(launched), old(isStop), results)
        invariant old(isStop) ==> isStop && dispatched == 0 && stopMark == old(stopMark)
      {
        var started := Advance(offsets, dispatched, old(pending), old(launched), old(isStop), results);
        if !started {
          break;
        }
        dispatched := dispatched + 1;
      }
    }

    /** What the loop of `run` has established when it ends, either with
        the offsets exhausted or with the flag up. */
    lemma ProgressEnd(offsets: seq<int>, dispatched: nat, start: multiset<int>, history: seq<int>,
                      wasStopped: bool, results: int -> seq<Company>)
      requires Progress(offsets, dispatched, start, history, wasStopped, results)
      requires start <= multiset(history)
      requires dispatched < |offsets| ==> isStop
      ensures forall n :: 0 <= n <= |offsets| && EmptyFrom(offsets, n, results) ==> dispatched <= n + MaxThreadsCount
      ensures isStop ==> wasStopped || SomeEmpty(multiset(launched), results)
      ensures !wasStopped ==> dispatched == |offsets| || |start| + dispatched >= MaxThreadsCount
    {
      forall n | 0 <= n <= |offsets| && EmptyFrom(offsets, n, results)
        ensures dispatched <= n + MaxThreadsCount
      {
        EmptyTailLeast(offsets, n, results);
      }
      if isStop && !wasStopped {
        assert multiset(launched) == multiset(history) + multiset(offsets[..dispatched]);
        SomeEmptyGrows(start + multiset(offsets[..dispatched]) - pending, multiset(launched), results);
      }
    }

    /** What the loop of `run` keeps after `dispatched` launches from
        `offsets`, having started with `start` pending, `history` launched
        and the flag at `wasStopped`: the launches are the first `dispatched`
        offsets; every pending task has arrived (it was pending at the start
        or launched since); the flag is up exactly when it was up at the
        start or an arrived task that is no longer pending found no company;
        at most five launches lie past the trailing run of empty pages; and
        a flag raised during the call went up only once the tasks pending at
        the start and those launched since made five, since below the
        ceiling no callback runs. */
    ghost predicate Progress(offsets: seq<int>, dispatched: nat, start: multiset<int>, history: seq<int>,
                             wasStopped: bool, results: int -> seq<Company>)
      reads this
    {
      && Valid() && !MustWait()
      && dispatched <= |offsets|
      && launched == history + offsets[..dispatched]
      && pending <= start + multiset(offsets[..dispatched])
      && isStop == (wasStopped || SomeEmpty(start + multiset(offsets[..dispatched]) - pending, results))
      && dispatched <= EmptyTailStart(offsets, results) + MaxThreadsCount
      && (isStop && !wasStopped ==> |start| + dispatched >= MaxThreadsCount)
    }

    /** One turn of the loop of `run` over `offsets`, with its bookkeeping:
        when the flag is down the next offset is launched and the progress
        made so far extends by one launch, and no callback runs if fewer
        than five tasks are then in flight; when it is up nothing changes. */
    method Advance(offsets: seq<int>, dispatched: nat, ghost start: multiset<int>, ghost history: seq<int>,
                   ghost wasStopped: bool, results: int -> seq<Company>) returns (started: bool)
      requires Progress(offsets, dispatched, start, history, wasStopped, results)
      requires dispatched < |offsets|
      modifies this
      ensures started == !old(isStop)
      ensures started ==> Progress(offsets, dispatched + 1, start, history, wasStopped, results)
      ensures !started ==> unchanged(this)
      ensures started && old(threadsCount) + 1 < MaxThreadsCount ==>
                pending == old(pending) + multiset{offsets[dispatched]} && !isStop
    {
      var startFrom := offsets[dispatched];
      ghost var arrived, waiting := start + multiset(offsets[..dispatched]), pending;
      if !isStop {
        LaunchBound(offsets, dispatched, arrived, EmptyTailStart(offsets, results), results);
        SubMultisetSize(pending, arrived);
      }
      started := Turn(startFrom, results);
      if started {
        ArrivedStep(start, offsets, dispatched);
        FlagStep(arrived, waiting, startFrom, pending, results);
      }
    }

    /** One turn of `run`'s loop for the offset the generator just yielded:
        give up if the flag is up; otherwise launch the task and sleep until
        the count is below the ceiling. The flag is up afterwards exactly
        when a task that finished during the turn found no company. A launch
        that leaves fewer than five tasks in flight runs no callback. */
    method Turn(startFrom: int, results: int -> seq<Company>) returns (started: bool)
      requires Valid() && !MustWait()
      modifies this
      ensures Valid() && !MustWait()
      ensures started == !old(isStop)
      ensures !started ==> unchanged(this)
      ensures started ==> launched == old(launched) + [startFrom]
      ensures started ==> pending <= old(pending) + multiset{startFrom}
      ensures started ==> isStop == SomeEmpty(old(pending) + multiset{startFrom} - pending, results)
      ensures started && old(threadsCount) + 1 < MaxThreadsCount ==> pending == old(pending) + multiset{startFrom} && !isStop
    {
      started := Dispatch(startFrom);
      if started {
        Throttle(results);
      }
    }

    /** Before the launch of the `dispatched`-th offset with the flag down,
        when every page from the n-th on is empty: the launches from the
        n-th on are still pending, and there are fewer than five of them. */
    lemma LaunchBound(offsets: seq<int>, dispatched: nat, arrived: multiset<int>, n: nat, results: int -> seq<Company>)
      requires |pending| < MaxThreadsCount && dispatched <= |offsets|
      requires multiset(offsets[..dispatched]) <= arrived
      requires !SomeEmpty(arrived - pending, results)
      requires EmptyFrom(offsets, n, results)
      ensures dispatched + 1 <= n + MaxThreadsCount
    {
      if n < dispatched {
        var s := offsets[n..dispatched];
        assert offsets[..dispatched] == offsets[..n] + s;
        assert multiset(s) <= arrived;
        forall i | 0 <= i < |s| ensures results(s[i]) == [] {
          assert s[i] == offsets[n + i];
        }
        EmptyStillPending(arrived, pending, s, results);
      }
    }

    /** The sleep loop of `run`: sleep while the ceiling is reached. Each
        sleep lets at least one task finish, so the loop ends with the count
        below the ceiling. The finished tasks leave `pending`, and the flag
        is up afterwards exactly when one of them found no company. Below
        the ceiling the loop does not await at all, so no callback runs and
        nothing changes. */
    method Throttle(results: int -> seq<Company>)
      requires Valid() && !isStop
      modifies this
      ensures Valid() && !MustWait()
      ensures launched == old(launched)
      ensures pending <= old(pending)
      ensures isStop == SomeEmpty(old(pending) - pending, results)
      ensures isStop ==> SomeEmpty(multiset(launched), results)
      ensures old(threadsCount) < MaxThreadsCount ==> pending == old(pending) && !isStop
    {
      assert old(pending) - pending == multiset{};
      while MustWait()
        invariant Valid()
        invariant launched == old(launched)
        invariant pending <= old(pending)
        invariant isStop == SomeEmpty(old(pending) - pending, results)
        invariant old(threadsCount) < MaxThreadsCount ==> pending == old(pending)
        decreases threadsCount
      {
        ghost var before := pending;
        Sleep(results);
        FinishedChain(old(pending), before, pending);
        SomeEmptyUnion(old(pending) - before, before - pending, results);
      }
      if isStop {
        assert old(pending) - pending <= multiset(launched);
        SomeEmptyGrows(old(pending) - pending, multiset(launched), results);
      }
    }
  }

  /** The script's entry point: a fresh `Dou` object runs the crawl from the
      first offset. Fewer than all 500 offsets are launched only when one of
      the launched tasks found no company; once every page from the n-th on
      is empty, at most five offsets from the n-th on are launched. No
      callback can run before five tasks are in flight, so at least five
      offsets are launched. */
  method CrawlFromStart(results: int -> seq<Company>) returns (dispatched: nat)
    ensures dispatched <= |Tasks()|
    ensures dispatched < |Tasks()| ==> exists k :: 0 <= k < dispatched && results(Tasks()[k]) == []
    ensures forall n :: 0 <= n <= |Tasks()| && EmptyFrom(Tasks(), n, results) ==> dispatched <= n + MaxThreadsCount
    ensures dispatched >= MaxThreadsCount
  {
    var crawler := new Crawler();
    dispatched := crawler.Run(results);
    if dispatched < |Tasks()| {
      ghost var o :| o in multiset(crawler.launched) && results(o) == [];
      assert o in crawler.launched;
      ghost var k :| 0 <= k < |crawler.launched| && crawler.launched[k] == o;
      assert Tasks()[k] == o;
    }
  }
}
