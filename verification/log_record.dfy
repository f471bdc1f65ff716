/** The flat records of the per-graph table built by the log parser. */
module LogRecord {
  import opened Wrappers

  /** A character of the `\w` class: ASCII letter, digit or underscore. */
  predicate IsWordChar(c: char) {
    ('a' <= c <= 'z') || ('A' <= c <= 'Z') || ('0' <= c <= '9') || c == '_'
  }

  /** A token matched by `\w+`. */
  predicate IsWord(s: string) {
    |s| > 0 && forall i :: 0 <= i < |s| ==> IsWordChar(s[i])
  }

  /** The technique name captured from a result line. */
  type Word = s: string | IsWord(s) witness "a"

  /** The marker that selects the barrier-free technique family. */
  const BarrierfreeMarker: string := "Barrierfree"

  /** `marker` occurs in `s` starting at position `i`. */
  predicate OccursAt(s: string, marker: string, i: int) {
    0 <= i && i + |marker| <= |s| && s[i..i + |marker|] == marker
  }

  /** `s.includes(marker)`, scanning from the front: true exactly when
      `marker` occurs in `s` at some position. */
  predicate Contains(s: string, marker: string)
    ensures Contains(s, marker) <==> exists i :: OccursAt(s, marker, i)
    decreases |s|
  {
    if |marker| > |s| then
      assert forall i :: !OccursAt(s, marker, i);
      false
    else if s[..|marker|] == marker then
      assert OccursAt(s, marker, 0);
      true
    else
      assert forall i :: OccursAt(s[1..], marker, i) <==> OccursAt(s, marker, i + 1) by {
        forall i
          ensures OccursAt(s[1..], marker, i) <==> OccursAt(s, marker, i + 1)
        {
          if 0 <= i && i + |marker| <= |s| - 1 {
            assert s[1..][i..i + |marker|] == s[i + 1..i + 1 + |marker|];
          }
        }
      }
      assert !OccursAt(s, marker, 0);
      assert (exists i :: OccursAt(s, marker, i)) ==> exists i :: OccursAt(s[1..], marker, i) by {
        if exists i :: OccursAt(s, marker, i) {
          var i :| OccursAt(s, marker, i);
          assert OccursAt(s[1..], marker, i - 1);
        }
      }
      Contains(s[1..], marker)
  }

  /** One row of the table, and also the shape of the parser's current context.
      Every field but the graph name may be missing, as a key may be missing
      from the JavaScript object the source builds. */
  datatype Record = Record(
    graph: string,
    order: Option<nat>,
    size: Option<nat>,
    ompNumThreads: Option<nat>,
    repeat: Option<nat>,
    time: Option<real>,
    iterations: Option<real>,
    error: Option<real>,
    technique: Option<string>,
    sleepProbability: Option<real>,
    sleepDuration: Option<nat>,
    thread: Option<nat>,
    processedCount: Option<nat>,
    stolenCount: Option<nat>,
    sleptCount: Option<nat>,
    blockedTime: Option<real>,
    correctedTime: Option<real>)

  /** The context right after a graph line: the graph name and nothing else. */
  function FreshContext(graph: string): Record {
    Record(graph, None, None, None, None, None, None, None, None, None, None,
           None, None, None, None, None, None)
  }

  /** Every field but the graph name is missing. */
  predicate IsBare(r: Record) {
    && r.order.None? && r.size.None? && r.ompNumThreads.None? && r.repeat.None?
    && r.time.None? && r.iterations.None? && r.error.None? && r.technique.None?
    && r.sleepProbability.None? && r.sleepDuration.None?
    && r.thread.None? && r.processedCount.None? && r.stolenCount.None?
    && r.sleptCount.None? && r.blockedTime.None? && r.correctedTime.None?
  }

  /** A record whose technique is falsy (missing or empty) has not been
      summarised by a result line yet. */
  predicate IsBlank(r: Record) {
    r.technique.None? || r.technique == Some("")
  }

  /** The fields a result line fills in. */
  datatype Summary = Summary(
    time: real,
    iterations: real,
    error: real,
    technique: Word,
    sleepProbability: real,
    sleepDuration: nat,
    correctedTime: real)

  /** `Object.assign(r, result)`: the summary fields overwrite those of `r`. */
  function WithSummary(r: Record, s: Summary): Record {
    r.(time := Some(s.time), iterations := Some(s.iterations), error := Some(s.error),
       technique := Some(s.technique), sleepProbability := Some(s.sleepProbability),
       sleepDuration := Some(s.sleepDuration), correctedTime := Some(s.correctedTime))
  }

  /** The seven summary fields of `r` are exactly those of `s`. */
  predicate CarriesSummary(r: Record, s: Summary) {
    && r.time == Some(s.time) && r.iterations == Some(s.iterations)
    && r.error == Some(s.error) && r.technique == Some(s.technique)
    && r.sleepProbability == Some(s.sleepProbability)
    && r.sleepDuration == Some(s.sleepDuration)
    && r.correctedTime == Some(s.correctedTime)
  }

  /** `a` and `b` describe the same graph and configuration. */
  predicate SameSetup(a: Record, b: Record) {
    a.graph == b.graph && a.order == b.order && a.size == b.size
    && a.ompNumThreads == b.ompNumThreads && a.repeat == b.repeat
  }

  /** `a` and `b` agree on the run-summary fields. */
  predicate SameOutcome(a: Record, b: Record) {
    a.time == b.time && a.iterations == b.iterations && a.error == b.error
    && a.technique == b.technique && a.sleepProbability == b.sleepProbability
    && a.sleepDuration == b.sleepDuration && a.correctedTime == b.correctedTime
  }

  /** `a` and `b` agree on the per-thread status fields. */
  predicate SameThreadStats(a: Record, b: Record) {
    a.thread == b.thread && a.processedCount == b.processedCount
    && a.stolenCount == b.stolenCount && a.sleptCount == b.sleptCount
    && a.blockedTime == b.blockedTime
  }

  /** The per-thread status fields are all present and zero. */
  predicate HasZeroThreadStats(r: Record) {
    r.thread == Some(0) && r.processedCount == Some(0) && r.stolenCount == Some(0)
    && r.sleptCount == Some(0) && r.blockedTime == Some(0.0)
  }

  /** Only the per-thread status fields of the context and its repeat
      counter are set to zero, as the source does before closing a run. */
  function ZeroThreadStats(r: Record): Record {
    r.(repeat := Some(0), thread := Some(0), processedCount := Some(0),
       stolenCount := Some(0), sleptCount := Some(0), blockedTime := Some(0.0))
  }

  /** The amendment keeps the setup and thread fields and takes the summary. */
  lemma WithSummaryAmends(r: Record, s: Summary)
    ensures SameSetup(WithSummary(r, s), r)
    ensures SameThreadStats(WithSummary(r, s), r)
    ensures CarriesSummary(WithSummary(r, s), s)
    ensures !IsBlank(WithSummary(r, s))
  {
    assert |s.technique| > 0;
  }
}
