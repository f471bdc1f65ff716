/** The single-pass log scanner: a pure step `(parse, line) -> parse` folded
    over the classified lines, building a table from graph name to the list
    of its records. */
module LogParser {
  import opened Wrappers
  import opened LogRecord
  import opened LogLine
  import opened LogStats

  /** Graph name to its records, in insertion order. */
  type Table = map<string, seq<Record>>

  /** Why a scan stops where the source would not produce finite values.
      `NullContext`: a line other than a graph line dereferences the context
      before any graph line set it (a TypeError in the source).
      `NonFinite`: the source would go on with NaN or Infinity in the repeat
      counter or in a corrected time. */
  datatype Fault = NullContext | NonFinite

  /** The table together with the current context (`null` before the first
      graph line). */
  datatype Parse = Parse(table: Table, state: Option<Record>)

  /** `new Map()` and `state = null`. */
  const Initial: Parse := Parse(map[], None)

  /** What holds of every parse the scanner reaches: the context's graph has
      a list, the context itself is unsummarised, and every unsummarised
      record carries a blocked time. */
  predicate Valid(p: Parse) {
    && (p.state.Some? ==> p.state.value.graph in p.table && IsBlank(p.state.value))
    && forall g :: g in p.table ==> SuffixTimed(p.table[g])
  }

  // ONE LINE
  // --------

  /** A graph line: an empty list for an unseen graph, and a context that
      holds only the graph name. */
  function OnGraphLoad(p: Parse, graph: string): (r: Parse)
    ensures r.table.Keys == p.table.Keys + {graph}
    ensures forall h :: h in p.table ==> r.table[h] == p.table[h]
    ensures graph !in p.table ==> r.table[graph] == []
    ensures r.state.Some? && r.state.value.graph == graph && IsBare(r.state.value)
  {
    var table := if graph in p.table then p.table else p.table[graph := []];
    Parse(table, Some(FreshContext(graph)))
  }

  /** An order/size line sets the two fields in the context. */
  function OnOrderSize(p: Parse, order: nat, size: nat): (r: Result<Parse, Fault>)
    ensures p.state.None? ==> r == Failure(NullContext)
    ensures p.state.Some? ==>
      (r.Success? && r.value.table == p.table
       && r.value.state == Some(p.state.value.(order := Some(order), size := Some(size))))
  {
    match p.state
    case None => Failure(NullContext)
    case Some(c) => Success(Parse(p.table, Some(c.(order := Some(order), size := Some(size)))))
  }

  /** A thread-count line sets the thread count and restarts the repeat
      counter at 0. */
  function OnThreadCount(p: Parse, ompNumThreads: nat): (r: Result<Parse, Fault>)
    ensures p.state.None? ==> r == Failure(NullContext)
    ensures p.state.Some? ==>
      (r.Success? && r.value.table == p.table
       && r.value.state == Some(p.state.value.(ompNumThreads := Some(ompNumThreads), repeat := Some(0))))
  {
    match p.state
    case None => Failure(NullContext)
    case Some(c) => Success(Parse(p.table, Some(c.(ompNumThreads := Some(ompNumThreads), repeat := Some(0)))))
  }

  /** A loop-start line counts one more repetition and clears the summary
      fields of the context; the technique becomes the empty string, so the
      status records that follow are unsummarised. */
  function OnLoopStart(p: Parse): (r: Result<Parse, Fault>)
    ensures p.state.None? ==> r == Failure(NullContext)
    ensures p.state.Some? && p.state.value.repeat.None? ==> r == Failure(NonFinite)
    ensures p.state.Some? && p.state.value.repeat.Some? ==>
      && r.Success? && r.value.table == p.table && r.value.state.Some?
      && var c, c' := p.state.value, r.value.state.value;
      && c'.repeat == Some(c.repeat.value + 1)
      && c'.time == Some(0.0) && c'.iterations == Some(0.0) && c'.error == Some(0.0)
      && c'.technique == Some("") && c'.sleepProbability == Some(0.0) && c'.sleepDuration == Some(0)
      && c'.graph == c.graph && c'.order == c.order && c'.size == c.size
      && c'.ompNumThreads == c.ompNumThreads && c'.correctedTime == c.correctedTime
      && SameThreadStats(c', c)
  {
    match p.state
    case None => Failure(NullContext)
    case Some(c) =>
      match c.repeat
      case None => Failure(NonFinite)
      case Some(n) =>
        Success(Parse(p.table, Some(c.(repeat := Some(n + 1), time := Some(0.0),
          iterations := Some(0.0), error := Some(0.0), technique := Some(""),
          sleepProbability := Some(0.0), sleepDuration := Some(0)))))
  }

  /** A per-thread status line appends to the current graph's list one
      snapshot of the context extended with the five captured fields. The
      context and every other list are left as they were. */
  function OnThreadStatus(p: Parse, thread: nat, processed: nat, stolen: nat, slept: nat, blocked: real)
    : (r: Result<Parse, Fault>)
    requires Valid(p)
    ensures r.Success? <==> p.state.Some?
    ensures r.Failure? ==> r.error == NullContext
    ensures r.Success? ==>
      var c := p.state.value;
      var before := p.table[c.graph];
      && r.value.state == p.state
      && r.value.table.Keys == p.table.Keys
      && (forall h :: h in p.table && h != c.graph ==> r.value.table[h] == p.table[h])
      && var after := r.value.table[c.graph];
      && |after| == |before| + 1 && after[..|before|] == before
      && SameSetup(after[|before|], c) && SameOutcome(after[|before|], c)
      && after[|before|].thread == Some(thread)
      && after[|before|].processedCount == Some(processed)
      && after[|before|].stolenCount == Some(stolen)
      && after[|before|].sleptCount == Some(slept)
      && after[|before|].blockedTime == Some(blocked)
      && BlankRowCount(after) == BlankRowCount(before) + 1
  {
    match p.state
    case None => Failure(NullContext)
    case Some(c) =>
      var record := c.(thread := Some(thread), processedCount := Some(processed),
        stolenCount := Some(stolen), sleptCount := Some(slept), blockedTime := Some(blocked));
      var after := p.table[c.graph] + [record];
      assert after[..|after| - 1] == p.table[c.graph];
      Success(Parse(p.table[c.graph := after], p.state))
  }

  /** The backward loop of a result line: every record of the blank suffix
      takes the summary fields; the loop stops at the last summarised record. */
  function AmendBlankRows(datum: seq<Record>, s: Summary): (r: seq<Record>)
    ensures |r| == |datum|
    ensures forall i :: 0 <= i < |datum| - BlankRowCount(datum) ==> r[i] == datum[i]
    ensures forall i :: |datum| - BlankRowCount(datum) <= i < |datum| ==>
      SameSetup(r[i], datum[i]) && SameThreadStats(r[i], datum[i]) && CarriesSummary(r[i], s)
  {
    if |datum| == 0 || !IsBlank(datum[|datum| - 1]) then datum
    else
      var init := datum[..|datum| - 1];
      assert forall i :: 0 <= i < |init| ==> init[i] == datum[i];
      WithSummaryAmends(datum[|datum| - 1], s);
      AmendBlankRows(init, s) + [WithSummary(datum[|datum| - 1], s)]
  }

  /** `after` is `before` with its blank suffix amended by `s` and nothing
      else changed. */
  predicate AmendsRun(before: seq<Record>, after: seq<Record>, s: Summary) {
    && |after| == |before|
    && (forall i :: 0 <= i < |before| - BlankRowCount(before) ==> after[i] == before[i])
    && (forall i :: |before| - BlankRowCount(before) <= i < |before| ==>
          SameSetup(after[i], before[i]) && SameThreadStats(after[i], before[i])
          && CarriesSummary(after[i], s))
  }

  /** The summary a result line describes, with the corrected time `cor`.
      A sleep field the line leaves out counts as 0; one it gives is taken
      as given. Writing the summary into any record gives that record a
      technique, so the backward scan over blank records stops there. */
  function LineSummary(time: real, iterations: real, error: real, technique: Word,
                       sleepProbability: Option<real>, sleepDuration: Option<nat>, cor: real): (r: Summary)
    ensures r.time == time && r.iterations == iterations && r.error == error
    ensures r.technique == technique && r.correctedTime == cor
    ensures r.sleepProbability == (if sleepProbability.Some? then sleepProbability.value else 0.0)
    ensures r.sleepDuration == (if sleepDuration.Some? then sleepDuration.value else 0)
    ensures forall x :: !IsBlank(WithSummary(x, r))
  {
    Summary(time, iterations, error, technique, sleepProbability.GetOr(0.0), sleepDuration.GetOr(0), cor)
  }

  /** Whether the source's correction for this result yields NaN or
      Infinity: a barrier-free technique with no unsummarised record
      (`0/0`), or with the repeat counter never started. */
  predicate CorrectionUndefined(datum: seq<Record>, technique: string, repeat: Option<nat>) {
    Contains(technique, BarrierfreeMarker) && (BlankRowCount(datum) == 0 || repeat.None?)
  }

  /** The corrected time of a result: the time itself unless the technique
      is barrier-free, and then the time less the mean of the bucket maxima,
      which lies between the time less the largest and the time less the
      smallest blocked time of the blank suffix. */
  function Correction(before: seq<Record>, time: real, technique: string, repeat: Option<nat>): (cor: real)
    requires SuffixTimed(before)
    requires !CorrectionUndefined(before, technique, repeat)
    ensures !Contains(technique, BarrierfreeMarker) ==> cor == time
    ensures Contains(technique, BarrierfreeMarker) ==>
      BlankRowCount(before) > 0
      && time - Max(SuffixBlocked(before)) <= cor <= time - Min(SuffixBlocked(before))
  {
    if !Contains(technique, BarrierfreeMarker) then time
    else CorrectedTime(before, time, repeat.value)
  }

  /** The list after a result line: the blank suffix amended with `s`, then
      the summary record `WithSummary(context, s)`. Nothing is left blank. */
  function CloseRun(before: seq<Record>, context: Record, s: Summary): (after: seq<Record>)
    ensures |after| == |before| + 1
    ensures AmendsRun(before, after[..|before|], s)
    ensures SameSetup(after[|before|], context) && SameThreadStats(after[|before|], context)
    ensures CarriesSummary(after[|before|], s)
    ensures BlankRowCount(after) == 0
  {
    var last := WithSummary(context, s);
    WithSummaryAmends(context, s);
    var after := AmendBlankRows(before, s) + [last];
    assert after[..|before|] == AmendBlankRows(before, s);
    after
  }

  /** A result line closes the run: the blank suffix of the current graph's
      list is amended with the summary, the context's repeat counter and
      thread fields are zeroed, and one summary record (the context merged
      with the summary) is appended. Only barrier-free techniques get a
      corrected time different from the time. */
  function OnResultSummary(p: Parse, time: real, iterations: real, error: real, technique: Word,
                           sleepProbability: Option<real>, sleepDuration: Option<nat>)
    : (r: Result<Parse, Fault>)
    requires Valid(p)
    ensures p.state.None? ==> r == Failure(NullContext)
    ensures p.state.Some? ==>
      (r.Failure? <==> CorrectionUndefined(p.table[p.state.value.graph], technique, p.state.value.repeat))
    ensures r.Failure? ==> r.error == NullContext || r.error == NonFinite
    ensures r.Success? ==>
      var c := p.state.value;
      var before := p.table[c.graph];
      && r.value.table.Keys == p.table.Keys
      && (forall h :: h in p.table && h != c.graph ==> r.value.table[h] == p.table[h])
      && var after := r.value.table[c.graph];
      && |after| == |before| + 1
      && var last := after[|before|];
      && last.correctedTime.Some?
      && var s := LineSummary(time, iterations, error, technique, sleepProbability, sleepDuration,
                              last.correctedTime.value);
      && AmendsRun(before, after[..|before|], s)
      && CarriesSummary(last, s)
      && (!Contains(technique, BarrierfreeMarker) ==> s.correctedTime == time)
      && (Contains(technique, BarrierfreeMarker) ==>
            time - Max(SuffixBlocked(before)) <= s.correctedTime <= time - Min(SuffixBlocked(before)))
      && BlankRowCount(after) == 0
  {
    match p.state
    case None => Failure(NullContext)
    case Some(c) =>
      var before := p.table[c.graph];
      if CorrectionUndefined(before, technique, c.repeat) then Failure(NonFinite)
      else
        var cor := Correction(before, time, technique, c.repeat);
        var s := LineSummary(time, iterations, error, technique, sleepProbability, sleepDuration, cor);
        var c' := ZeroThreadStats(c);
        var after := CloseRun(before, c', s);
        Success(Parse(p.table[c.graph := after], Some(c')))
  }

  /** The record a result line appends is the context with its repeat
      counter and thread fields zeroed, and the context keeps those zeros and
      its summary fields for the lines that follow. */
  lemma ResultResetsContext(p: Parse, time: real, iterations: real, error: real, technique: Word,
                            sleepProbability: Option<real>, sleepDuration: Option<nat>)
    requires Valid(p)
    requires OnResultSummary(p, time, iterations, error, technique, sleepProbability, sleepDuration).Success?
    ensures p.state.Some?
    ensures var c := p.state.value;
      var q := OnResultSummary(p, time, iterations, error, technique, sleepProbability, sleepDuration).value;
      var after := q.table[c.graph];
      var last := after[|after| - 1];
      && last.graph == c.graph && last.order == c.order && last.size == c.size
      && last.ompNumThreads == c.ompNumThreads && last.repeat == Some(0)
      && HasZeroThreadStats(last)
      && q.state.Some?
      && var c' := q.state.value;
      && c'.graph == c.graph && c'.order == c.order && c'.size == c.size
      && c'.ompNumThreads == c.ompNumThreads && c'.repeat == Some(0)
      && SameOutcome(c', c) && HasZeroThreadStats(c')
  {
  }

  /** A graph line keeps the invariant. */
  lemma GraphLoadKeepsValid(p: Parse, graph: string)
    requires Valid(p)
    ensures Valid(OnGraphLoad(p, graph))
  {
    var r := OnGraphLoad(p, graph);
    forall g | g in r.table ensures SuffixTimed(r.table[g]) {
      if g !in p.table { assert r.table[g] == []; }
    }
  }

  /** A status line keeps the invariant: the appended record carries its
      blocked time. */
  lemma StatusKeepsValid(p: Parse, thread: nat, processed: nat, stolen: nat, slept: nat, blocked: real)
    requires Valid(p) && OnThreadStatus(p, thread, processed, stolen, slept, blocked).Success?
    ensures Valid(OnThreadStatus(p, thread, processed, stolen, slept, blocked).value)
  {
    var r := OnThreadStatus(p, thread, processed, stolen, slept, blocked).value;
    var g := p.state.value.graph;
    var before := p.table[g];
    var after := r.table[g];
    forall i | |after| - BlankRowCount(after) <= i < |after|
      ensures after[i].blockedTime.Some?
    {
      if i < |before| {
        assert after[i] == after[..|before|][i];
      }
    }
  }

  /** A result line keeps the invariant: it leaves no blank record in the
      list it closes, and the context stays blank. */
  lemma ResultKeepsValid(p: Parse, time: real, iterations: real, error: real, technique: Word,
                         sleepProbability: Option<real>, sleepDuration: Option<nat>)
    requires Valid(p)
    requires OnResultSummary(p, time, iterations, error, technique, sleepProbability, sleepDuration).Success?
    ensures Valid(OnResultSummary(p, time, iterations, error, technique, sleepProbability, sleepDuration).value)
  {
  }

  /** `readLogLine`: dispatch on the classified line; an unmatched line
      changes nothing. Every parse reached this way is again valid, and
      after a result line no record of the current graph is left blank. */
  function Step(p: Parse, line: LogLine): (r: Result<Parse, Fault>)
    requires Valid(p)
    ensures line.Unmatched? ==> r == Success(p)
    ensures r.Success? ==> Valid(r.value)
    ensures r.Success? && line.ResultSummary? ==>
      p.state.Some? && p.state.value.graph in r.value.table
      && BlankRowCount(r.value.table[p.state.value.graph]) == 0
  {
    match line
    case GraphLoad(g) =>
      GraphLoadKeepsValid(p, g);
      Success(OnGraphLoad(p, g))
    case OrderSize(o, s) => OnOrderSize(p, o, s)
    case ThreadCount(n) => OnThreadCount(p, n)
    case LoopStart => OnLoopStart(p)
    case ThreadStatus(t, pc, sc, sl, b) =>
      var r := OnThreadStatus(p, t, pc, sc, sl, b);
      if r.Success? then StatusKeepsValid(p, t, pc, sc, sl, b); r else r
    case ResultSummary(t, it, e, tech, sp, sd) =>
      var r := OnResultSummary(p, t, it, e, tech, sp, sd);
      if r.Success? then ResultKeepsValid(p, t, it, e, tech, sp, sd); r else r
    case Unmatched => Success(p)
  }

  // WHOLE LOG
  // ---------

  /** The graph names announced by graph lines in `lines`. */
  function Announced(lines: seq<LogLine>): set<string>
    decreases |lines|
  {
    if |lines| == 0 then {}
    else (if lines[0].GraphLoad? then {lines[0].graph} else {}) + Announced(lines[1..])
  }

  /** The scan loop of `readLog`, from a given parse. A list is created
      exactly for each announced graph and none is ever removed. */
  function Run(p: Parse, lines: seq<LogLine>): (r: Result<Parse, Fault>)
    requires Valid(p)
    ensures r.Success? ==> Valid(r.value)
    ensures r.Success? ==> r.value.table.Keys == p.table.Keys + Announced(lines)
    decreases |lines|
  {
    if |lines| == 0 then Success(p)
    else
      match Step(p, lines[0])
      case Failure(e) => Failure(e)
      case Success(q) => Run(q, lines[1..])
  }

  /** `readLog` on the lines of a log, already classified. The table has one
      list per graph the log announces. */
  function ReadLog(lines: seq<LogLine>): (r: Result<Table, Fault>)
    ensures r.Success? ==> r.value.Keys == Announced(lines)
  {
    match Run(Initial, lines)
    case Success(p) => Success(p.table)
    case Failure(e) => Failure(e)
  }
}
