/** Classification of one log line into the six shapes the parser knows.
    The regular expressions themselves are not modelled: each matcher is
    represented by what it captured, already converted to numbers. */
module LogLine {
  import opened Wrappers
  import opened LogRecord

  /** A classified line, with the fields its pattern captures. */
  datatype LogLine =
    | GraphLoad(graph: string)
    | OrderSize(order: nat, size: nat)
    | ThreadCount(ompNumThreads: nat)
    | LoopStart
    | ThreadStatus(thread: nat, processed: nat, stolen: nat, slept: nat, blocked: real)
    // The two sleep fields share one optional group of the result pattern, so
    // a real line has both or neither; the model allows either independently.
    | ResultSummary(time: real, iterations: real, error: real, technique: Word,
                    sleepProbability: Option<real>, sleepDuration: Option<nat>)
    | Unmatched

  /** What each of the six matchers found in one line; `None` (or `false`)
      when its pattern does not match. */
  datatype Captures = Captures(
    graph: Option<LogLine>,
    orderSize: Option<LogLine>,
    threadCount: Option<LogLine>,
    loopStart: bool,
    threadStatus: Option<LogLine>,
    resultSummary: Option<LogLine>)

  /** The captures are of the shape their matcher produces. */
  predicate WellShaped(c: Captures) {
    && (c.graph.Some? ==> c.graph.value.GraphLoad?)
    && (c.orderSize.Some? ==> c.orderSize.value.OrderSize?)
    && (c.threadCount.Some? ==> c.threadCount.value.ThreadCount?)
    && (c.threadStatus.Some? ==> c.threadStatus.value.ThreadStatus?)
    && (c.resultSummary.Some? ==> c.resultSummary.value.ResultSummary?)
  }

  /** The position of a line's shape in the order the source tries them;
      6 for an unmatched line. */
  function Priority(line: LogLine): nat {
    match line
    case GraphLoad(_) => 0
    case OrderSize(_, _) => 1
    case ThreadCount(_) => 2
    case LoopStart => 3
    case ThreadStatus(_, _, _, _, _) => 4
    case ResultSummary(_, _, _, _, _, _) => 5
    case Unmatched => 6
  }

  /** The line matcher `k` (in priority order) reports, if any. */
  function Hit(c: Captures, k: nat): Option<LogLine>
    requires k < 6
  {
    if k == 0 then c.graph
    else if k == 1 then c.orderSize
    else if k == 2 then c.threadCount
    else if k == 3 then (if c.loopStart then Some(LoopStart) else None)
    else if k == 4 then c.threadStatus
    else c.resultSummary
  }

  /** The if/else-if chain over the six patterns: the first matcher that
      matches decides the line; a line no matcher accepts is ignored. */
  function Classify(c: Captures): (line: LogLine)
    requires WellShaped(c)
    ensures line.Unmatched? <==> forall k :: 0 <= k < 6 ==> Hit(c, k).None?
    ensures !line.Unmatched? ==> Priority(line) < 6 && Hit(c, Priority(line)) == Some(line)
    ensures forall k :: 0 <= k < Priority(line) && k < 6 ==> Hit(c, k).None?
  {
    if c.graph.Some? then assert Hit(c, 0).Some?; c.graph.value
    else if c.orderSize.Some? then assert Hit(c, 1).Some?; c.orderSize.value
    else if c.threadCount.Some? then assert Hit(c, 2).Some?; c.threadCount.value
    else if c.loopStart then assert Hit(c, 3).Some?; LoopStart
    else if c.threadStatus.Some? then assert Hit(c, 4).Some?; c.threadStatus.value
    else if c.resultSummary.Some? then assert Hit(c, 5).Some?; c.resultSummary.value
    else Unmatched
  }
}
