/** Properties of the scan over a whole log: summarised records are final,
    lists only grow, and a result line amends only its own run. */
module LogProperties {
  import opened Wrappers
  import opened LogRecord
  import opened LogLine
  import opened LogStats
  import opened LogParser

  /** `before` is kept, as a prefix, in `after`, and so is its settled part. */
  predicate Grows(before: seq<Record>, after: seq<Record>) {
    |before| <= |after| && Settled(before) <= Settled(after)
  }

  lemma PrefixTrans(a: seq<Record>, b: seq<Record>, c: seq<Record>)
    requires a <= b && b <= c
    ensures a <= c
  {
  }

  /** A status line appends to the unsettled end of one list. */
  lemma StatusKeepsSettled(p: Parse, t: nat, pc: nat, sc: nat, sl: nat, b: real)
    requires Valid(p) && OnThreadStatus(p, t, pc, sc, sl, b).Success?
    ensures forall h :: h in p.table ==>
      (h in OnThreadStatus(p, t, pc, sc, sl, b).value.table
       && Grows(p.table[h], OnThreadStatus(p, t, pc, sc, sl, b).value.table[h]))
  {
    var q := OnThreadStatus(p, t, pc, sc, sl, b).value;
    var g := p.state.value.graph;
    var before := p.table[g];
    var after := q.table[g];
    var k := |before| - BlankRowCount(before);
    assert after[..|before|] == before;
    assert Settled(after) == after[..k];
    assert after[..k] == before[..k];
  }

  /** Closing a run keeps every record that was settled before it. */
  lemma CloseRunKeepsSettled(before: seq<Record>, context: Record, s: Summary)
    ensures Grows(before, CloseRun(before, context, s))
  {
    var after := CloseRun(before, context, s);
    var k := |before| - BlankRowCount(before);
    assert Settled(after) == after;
    assert forall i :: 0 <= i < k ==> after[..|before|][i] == before[i];
    assert forall i :: 0 <= i < k ==> after[i] == before[i];
    assert before[..k] == after[..k];
  }

  /** A result line settles the whole list of its graph, keeping what was
      settled before. */
  lemma ResultKeepsSettled(p: Parse, t: real, it: real, e: real, tech: Word, sp: Option<real>, sd: Option<nat>)
    requires Valid(p) && OnResultSummary(p, t, it, e, tech, sp, sd).Success?
    ensures forall h :: h in p.table ==>
      (h in OnResultSummary(p, t, it, e, tech, sp, sd).value.table
       && Grows(p.table[h], OnResultSummary(p, t, it, e, tech, sp, sd).value.table[h]))
  {
    var q := OnResultSummary(p, t, it, e, tech, sp, sd).value;
    var c := p.state.value;
    var before := p.table[c.graph];
    var cor := Correction(before, t, tech, c.repeat);
    var s := LineSummary(t, it, e, tech, sp, sd, cor);
    assert q.table == p.table[c.graph := CloseRun(before, ZeroThreadStats(c), s)];
    CloseRunKeepsSettled(before, ZeroThreadStats(c), s);
  }

  /** One step keeps every list and its settled records; new records only
      ever join the unsettled end or a new list. */
  lemma StepKeepsSettled(p: Parse, line: LogLine)
    requires Valid(p) && Step(p, line).Success?
    ensures forall h :: h in p.table ==>
      (h in Step(p, line).value.table && Grows(p.table[h], Step(p, line).value.table[h]))
  {
    match line {
      case ThreadStatus(t, pc, sc, sl, b) => StatusKeepsSettled(p, t, pc, sc, sl, b);
      case ResultSummary(t, it, e, tech, sp, sd) => ResultKeepsSettled(p, t, it, e, tech, sp, sd);
      case _ =>
    }
  }

  /** Over a whole scan, every list present at the start is still there,
      no shorter, with its settled records untouched. */
  lemma {:induction false} RunKeepsSettled(p: Parse, lines: seq<LogLine>)
    requires Valid(p) && Run(p, lines).Success?
    ensures forall h :: h in p.table ==> h in Run(p, lines).value.table
    ensures forall h :: h in p.table ==> Grows(p.table[h], Run(p, lines).value.table[h])
    decreases |lines|
  {
    if |lines| > 0 {
      var q := Step(p, lines[0]).value;
      StepKeepsSettled(p, lines[0]);
      RunKeepsSettled(q, lines[1..]);
      var r := Run(p, lines).value;
      assert r == Run(q, lines[1..]).value;
      forall h | h in p.table
        ensures Grows(p.table[h], r.table[h])
      {
        PrefixTrans(Settled(p.table[h]), Settled(q.table[h]), Settled(r.table[h]));
      }
    }
  }

  /** A line other than a result line never changes an existing record. */
  lemma StepWithoutResultAppends(p: Parse, line: LogLine)
    requires Valid(p) && Step(p, line).Success? && !line.ResultSummary?
    ensures forall h :: h in p.table ==>
      (h in Step(p, line).value.table && p.table[h] <= Step(p, line).value.table[h])
  {
  }

  /** A log with no result line only appends: every list present at the
      start is a prefix of the list at the end. */
  lemma {:induction false} RunWithoutResultsAppends(p: Parse, lines: seq<LogLine>)
    requires Valid(p) && Run(p, lines).Success?
    requires forall i :: 0 <= i < |lines| ==> !lines[i].ResultSummary?
    ensures forall h :: h in p.table ==>
      (h in Run(p, lines).value.table && p.table[h] <= Run(p, lines).value.table[h])
    decreases |lines|
  {
    if |lines| > 0 {
      var q := Step(p, lines[0]).value;
      StepWithoutResultAppends(p, lines[0]);
      assert forall i :: 0 <= i < |lines[1..]| ==> lines[1..][i] == lines[i + 1];
      RunWithoutResultsAppends(q, lines[1..]);
      var r := Run(p, lines).value;
      assert r == Run(q, lines[1..]).value;
      forall h | h in p.table
        ensures p.table[h] <= r.table[h]
      {
        PrefixTrans(p.table[h], q.table[h], r.table[h]);
      }
    }
  }

  /** Every record of every list is unsummarised. */
  predicate AllBlank(t: Table) {
    forall g :: g in t ==> BlankRowCount(t[g]) == |t[g]|
  }

  /** A line other than a result line adds only unsummarised records. */
  lemma StepWithoutResultKeepsBlank(p: Parse, line: LogLine)
    requires Valid(p) && AllBlank(p.table) && Step(p, line).Success? && !line.ResultSummary?
    ensures AllBlank(Step(p, line).value.table)
  {
  }

  /** A scan with no result line keeps every list unsummarised. */
  lemma {:induction false} RunWithoutResultsKeepsBlank(p: Parse, lines: seq<LogLine>)
    requires Valid(p) && AllBlank(p.table) && Run(p, lines).Success?
    requires forall i :: 0 <= i < |lines| ==> !lines[i].ResultSummary?
    ensures AllBlank(Run(p, lines).value.table)
    decreases |lines|
  {
    if |lines| > 0 {
      var q := Step(p, lines[0]).value;
      StepWithoutResultKeepsBlank(p, lines[0]);
      assert forall i :: 0 <= i < |lines[1..]| ==> lines[1..][i] == lines[i + 1];
      RunWithoutResultsKeepsBlank(q, lines[1..]);
    }
  }

  /** `readLog` of a log with no result line: every record in the table is
      an unsummarised thread-status record, carrying its blocked time. */
  lemma ReadLogNoResultOnlyStatus(lines: seq<LogLine>)
    requires ReadLog(lines).Success?
    requires forall i :: 0 <= i < |lines| ==> !lines[i].ResultSummary?
    ensures AllBlank(ReadLog(lines).value)
    ensures forall g, i :: g in ReadLog(lines).value && 0 <= i < |ReadLog(lines).value[g]| ==>
      IsBlank(ReadLog(lines).value[g][i]) && ReadLog(lines).value[g][i].blockedTime.Some?
  {
    RunWithoutResultsKeepsBlank(Initial, lines);
    var t := ReadLog(lines).value;
    assert Valid(Run(Initial, lines).value);
    assert forall g :: g in t ==> SuffixTimed(t[g]);
  }

  /** After a result line, no later line of the log changes any record of
      that graph up to and including the summary record it appended: a
      later result line amends only records that came after it. */
  lemma ResultAmendsOnlyItsRun(p: Parse, line: LogLine, rest: seq<LogLine>)
    requires Valid(p) && line.ResultSummary? && Step(p, line).Success?
    requires Run(Step(p, line).value, rest).Success?
    ensures p.state.Some?
    ensures var g := p.state.value.graph;
      Step(p, line).value.table[g] <= Run(Step(p, line).value, rest).value.table[g]
  {
    RunKeepsSummarisedList(Step(p, line).value, p.state.value.graph, rest);
  }

  /** A list with no unsummarised record survives any scan as a prefix. */
  lemma RunKeepsSummarisedList(q: Parse, g: string, rest: seq<LogLine>)
    requires Valid(q) && g in q.table && BlankRowCount(q.table[g]) == 0
    requires Run(q, rest).Success?
    ensures g in Run(q, rest).value.table && q.table[g] <= Run(q, rest).value.table[g]
  {
    RunKeepsSettled(q, rest);
    var r := Run(q, rest).value;
    assert Settled(q.table[g]) == q.table[g][..|q.table[g]|];
    assert q.table[g][..|q.table[g]|] == q.table[g];
    PrefixTrans(q.table[g], Settled(r.table[g]), r.table[g]);
  }

  /** A log for one graph with one thread-status line closed by a result
      line of a technique outside the barrier-free family. */
  lemma KarateScenario()
    ensures var lines := [
        GraphLoad("karate"), OrderSize(34, 156), ThreadCount(4), LoopStart,
        ThreadStatus(0, 10, 2, 0, 5.0), ResultSummary(120.0, 5.0, 0.001, "PushPR", None, None)];
      && ReadLog(lines).Success?
      && var rows := ReadLog(lines).value["karate"];
      && |rows| == 2
      && rows[0].time == Some(120.0) && rows[0].correctedTime == Some(120.0)
      && rows[0].technique == Some("PushPR") && rows[0].processedCount == Some(10)
      && rows[0].blockedTime == Some(5.0) && rows[0].repeat == Some(1)
      && rows[1].thread == Some(0) && rows[1].processedCount == Some(0)
      && rows[1].blockedTime == Some(0.0) && rows[1].repeat == Some(0)
      && rows[1].time == Some(120.0) && rows[1].correctedTime == Some(120.0)
      && rows[1].order == Some(34) && rows[1].size == Some(156)
      && HasZeroThreadStats(rows[1]) && rows[1].technique == Some("PushPR")
  {
    var p1 := Step(Initial, GraphLoad("karate")).value;
    var p2 := Step(p1, OrderSize(34, 156)).value;
    var p3 := Step(p2, ThreadCount(4)).value;
    var p4 := Step(p3, LoopStart).value;
    var p5 := Step(p4, ThreadStatus(0, 10, 2, 0, 5.0)).value;
    assert !Contains("PushPR", BarrierfreeMarker);
    var r6 := Step(p5, ResultSummary(120.0, 5.0, 0.001, "PushPR", None, None));
    assert r6.Success?;
    var lines := [
        GraphLoad("karate"), OrderSize(34, 156), ThreadCount(4), LoopStart,
        ThreadStatus(0, 10, 2, 0, 5.0), ResultSummary(120.0, 5.0, 0.001, "PushPR", None, None)];
    assert Run(p5, lines[5..]) == r6;
    assert Run(p4, lines[4..]) == r6;
    assert Run(p3, lines[3..]) == r6;
    assert Run(p2, lines[2..]) == r6;
    assert Run(p1, lines[1..]) == r6;
    assert Run(Initial, lines) == r6;
  }

  /** An unsummarised status record of graph "web" with blocked time `b`. */
  function StatusRow(b: real): Record {
    FreshContext("web").(technique := Some(""), blockedTime := Some(b))
  }

  /** A barrier-free run repeated twice with two threads: the four blocked
      times 1, 3, 2, 6 fall into buckets of width 2, whose maxima 3 and 6
      average 4.5, taken off the reported 100 ms. */
  lemma BarrierfreeCorrectionExample()
    ensures var datum := [StatusRow(1.0), StatusRow(3.0), StatusRow(2.0), StatusRow(6.0)];
      && BlankRowCount(datum) == 4 && SuffixTimed(datum)
      && CorrectedTime(datum, 100.0, 2) == 95.5
  {
    var datum := [StatusRow(1.0), StatusRow(3.0), StatusRow(2.0), StatusRow(6.0)];
    ExampleBlankRows();
    var blocked := SuffixBlocked(datum);
    assert blocked == [1.0, 3.0, 2.0, 6.0];
    assert Width(4, 2) == 2;
    ExampleBucketMaxima();
    assert Sum([3.0, 6.0]) == 9.0 by { assert [3.0, 6.0][..1] == [3.0]; assert [3.0][..0] == []; }
  }

  lemma ExampleBlankRows()
    ensures BlankRowCount([StatusRow(1.0), StatusRow(3.0), StatusRow(2.0), StatusRow(6.0)]) == 4
  {
    var datum := [StatusRow(1.0), StatusRow(3.0), StatusRow(2.0), StatusRow(6.0)];
    assert datum[..3] == [StatusRow(1.0), StatusRow(3.0), StatusRow(2.0)];
    assert datum[..3][..2] == [StatusRow(1.0), StatusRow(3.0)];
    assert datum[..3][..2][..1] == [StatusRow(1.0)];
  }

  lemma ExampleBucketMaxima()
    ensures BucketMaxima([1.0, 3.0, 2.0, 6.0], 2) == [3.0, 6.0]
  {
    var blocked := [1.0, 3.0, 2.0, 6.0];
    assert blocked[..2] == [1.0, 3.0] && blocked[2..] == [2.0, 6.0];
    assert Max([1.0, 3.0]) == 3.0 by { assert [1.0, 3.0][..1] == [1.0]; }
    assert Max([2.0, 6.0]) == 6.0 by { assert [2.0, 6.0][..1] == [2.0]; }
  }
}
