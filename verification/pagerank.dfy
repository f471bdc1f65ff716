/** The thread bookkeeping and the result record of the PageRank runs.
    Time points are whole milliseconds since the clock's epoch, which is 0;
    the random engines each thread carries are not modelled. */
module Pagerank {

  // PAGERANK-RESULT
  // ---------------

  /** The ranks a run computed, its iteration count and its times in ms. */
  datatype PagerankResult = PagerankResult(ranks: seq<real>, iterations: int, time: real, correctedTime: real)

  /** The default result: no ranks, no iterations, no time. */
  function DefaultResult(): (r: PagerankResult)
    ensures r.ranks == [] && r.iterations == 0 && r.time == 0.0 && r.correctedTime == 0.0
  {
    PagerankResult([], 0, 0.0, 0.0)
  }

  /** The result built from ranks, with the other fields defaulting to 0. */
  function ResultOf(ranks: seq<real>, iterations: int := 0, time: real := 0.0, correctedTime: real := 0.0)
    : (r: PagerankResult)
    ensures r.ranks == ranks && r.iterations == iterations
    ensures r.time == time && r.correctedTime == correctedTime
  {
    PagerankResult(ranks, iterations, time, correctedTime)
  }

  /** The default result is the result of no ranks with every default. */
  lemma DefaultIsEmptyRanks()
    ensures DefaultResult() == ResultOf([])
  {
  }

  // THREAD-INFO
  // -----------

  /** The default-constructed time point. */
  const Epoch: int := 0

  /** What a worker thread reports: its number, its current iteration and
      the time point at which it stopped. */
  datatype ThreadInfo = ThreadInfo(id: int, iteration: int, stop: int)

  /** A new thread record: iteration 0 and not yet stopped. */
  function NewThreadInfo(id: int): (t: ThreadInfo)
    ensures t.id == id && t.iteration == 0 && t.stop == Epoch
  {
    ThreadInfo(id, 0, Epoch)
  }

  /** `clear()`: back to iteration 0 and the epoch, keeping the number. */
  function Clear(t: ThreadInfo): (r: ThreadInfo)
    ensures r.id == t.id && r.iteration == 0 && r.stop == Epoch
  {
    t.(iteration := 0, stop := Epoch)
  }

  /** `threadInfos(N)`: one fresh record per thread, numbered 0 to N - 1. */
  function ThreadInfos(n: nat): (ts: seq<ThreadInfo>)
    ensures |ts| == n
    ensures forall i :: 0 <= i < n ==> ts[i].id == i && ts[i].iteration == 0 && ts[i].stop == Epoch
  {
    seq(n, i requires 0 <= i < n => NewThreadInfo(i))
  }

  /** `threadInfosClear`: every record cleared, in place. */
  function ThreadInfosClear(ts: seq<ThreadInfo>): (r: seq<ThreadInfo>)
    ensures |r| == |ts|
    ensures forall i :: 0 <= i < |ts| ==> r[i].id == ts[i].id && r[i].iteration == 0 && r[i].stop == Epoch
  {
    seq(|ts|, i requires 0 <= i < |ts| => Clear(ts[i]))
  }

  /** Clearing twice is clearing once, and fresh records are already clear. */
  lemma ClearIdempotent(ts: seq<ThreadInfo>, n: nat)
    ensures ThreadInfosClear(ThreadInfosClear(ts)) == ThreadInfosClear(ts)
    ensures ThreadInfosClear(ThreadInfos(n)) == ThreadInfos(n)
  {
  }

  /** `durationMilliseconds(start, stop)`. */
  function DurationMs(start: int, stop: int): int {
    stop - start
  }

  /** The thread stopped after `start`. */
  predicate StoppedAfter(t: ThreadInfo, start: int) {
    t.stop > start
  }

  /** `threadInfosMinDurationMilliseconds`: the shortest time from `start` to
      a thread's stop, over the threads that stopped after `start`; 0 (the
      "no value" marker of the loop) when none did. */
  function MinDurationMs(threads: seq<ThreadInfo>, start: int): (a: int)
    ensures a >= 0
    ensures a == 0 <==> forall i :: 0 <= i < |threads| ==> !StoppedAfter(threads[i], start)
    ensures a > 0 ==>
      exists i :: 0 <= i < |threads| && StoppedAfter(threads[i], start) && DurationMs(start, threads[i].stop) == a
    ensures forall i :: 0 <= i < |threads| && StoppedAfter(threads[i], start) ==>
      a <= DurationMs(start, threads[i].stop)
    decreases |threads|
  {
    if |threads| == 0 then 0
    else
      var init := threads[..|threads| - 1];
      var a := MinDurationMs(init, start);
      var t := threads[|threads| - 1];
      assert forall i :: 0 <= i < |init| ==> init[i] == threads[i];
      if t.stop <= start then a
      else
        var d := DurationMs(start, t.stop);
        if a == 0 || a > d then d else a
  }

  /** The threads that stopped after `start`, in order. */
  function StoppedThreads(threads: seq<ThreadInfo>, start: int): (r: seq<ThreadInfo>)
    ensures forall t :: t in r <==> t in threads && StoppedAfter(t, start)
    decreases |threads|
  {
    if |threads| == 0 then []
    else
      var rest := StoppedThreads(threads[1..], start);
      assert forall t :: t in threads <==> t == threads[0] || t in threads[1..];
      if StoppedAfter(threads[0], start) then [threads[0]] + rest else rest
  }

  /** Threads that had not stopped after `start` do not change the result:
      it is the same over the stopped threads alone. */
  lemma MinDurationIgnoresUnstopped(threads: seq<ThreadInfo>, start: int)
    ensures MinDurationMs(threads, start) == MinDurationMs(StoppedThreads(threads, start), start)
  {
    var s := StoppedThreads(threads, start);
    var x := MinDurationMs(threads, start);
    var y := MinDurationMs(s, start);
    if x > 0 && y > 0 {
      var i :| 0 <= i < |threads| && StoppedAfter(threads[i], start) && DurationMs(start, threads[i].stop) == x;
      var j :| 0 <= j < |s| && StoppedAfter(s[j], start) && DurationMs(start, s[j].stop) == y;
      assert threads[i] in s;
      assert s[j] in threads;
    }
  }
}
