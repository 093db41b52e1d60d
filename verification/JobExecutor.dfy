/** One run of a processing tool: the job's status, progress and output, and what the caller may rely
    on, when publishing any of the events may raise. */
module JobExecutor {
  import opened Wrappers
  import opened Progress

  type Dataset = nat

  datatype JobStatus = PENDING | PROCESSING | COMPLETED | FAILED

  /** A tool makes its reports in order, then yields the output it saved, or raises. */
  datatype Tool = Tool(progress: seq<int>, result: Option<Dataset>)

  /** Which of a job's events, in order, get through; a refused one raises. */
  type Transport = nat -> bool

  /** All reports of a run that nothing interrupts, the opening one included. */
  ghost function AllReports(tool: Tool): seq<Call> {
    [Report(0)] + seq(|tool.progress|, i requires 0 <= i < |tool.progress| => Report(tool.progress[i]))
  }

  /** These reports and the completion. */
  ghost function JobCalls(tool: Tool): seq<Call> {
    AllReports(tool) + [Complete]
  }

  ghost function Sent(tool: Tool): seq<int> {
    Reports(AllReports(tool))
  }

  /** The transport accepts the first n events. */
  ghost predicate Accepts(transport: Transport, n: nat) {
    forall i: nat :: i < n ==> transport(i)
  }

  /** The first event the transport refuses is the k-th. */
  ghost predicate FirstRefusal(transport: Transport, k: nat) {
    Accepts(transport, k) && !transport(k)
  }

  /** Every progress event gets through, so that the tool reaches its own end. */
  ghost predicate Uninterrupted(tool: Tool, transport: Transport) {
    Accepts(transport, |Sent(tool)|)
  }

  /** The output was saved and the terminal event got through. */
  ghost predicate Completes(tool: Tool, transport: Transport) {
    Uninterrupted(tool, transport) && tool.result.Some? && transport(|Sent(tool)|)
  }

  // ---- How a job ends ----

  /** A refused opening event leaves the status as it was. */
  ghost function EndStatus(before: JobStatus, tool: Tool, transport: Transport): JobStatus {
    if !transport(0) then before
    else if Completes(tool, transport) then COMPLETED
    else FAILED
  }

  ghost function EndOutput(before: Option<Dataset>, tool: Tool, transport: Transport): Option<Dataset> {
    if Uninterrupted(tool, transport) && tool.result.Some? then tool.result else before
  }

  /** Read off the job, as its callers do: the output of a job that reads COMPLETED. */
  ghost function JobResult(tool: Tool, transport: Transport): Option<Dataset> {
    if Completes(tool, transport) then tool.result else None
  }

  /** The failure event is the k-th: it follows the refused one, the terminal event included, or all
      reports of a tool that raises by itself. */
  ghost predicate FailureEventAt(tool: Tool, transport: Transport, k: nat) {
    if Uninterrupted(tool, transport) then k == |Sent(tool)| + if tool.result.Some? then 1 else 0
    else 1 < k <= |Sent(tool)| && FirstRefusal(transport, k - 1)
  }

  lemma FailureEventUnique(tool: Tool, transport: Transport, j: nat, k: nat)
    requires FailureEventAt(tool, transport, j) && FailureEventAt(tool, transport, k)
    ensures j == k
  {
  }

  /** The failure event is the k-th and no other. */
  ghost predicate IsFailureEvent(tool: Tool, transport: Transport, k: nat) {
    forall j: nat :: FailureEventAt(tool, transport, j) <==> j == k
  }

  /** Past its opening event, a call raises exactly when the job fails and its failure event is refused. */
  ghost predicate Raises(tool: Tool, transport: Transport, raised: bool) {
    if Completes(tool, transport) then !raised
    else exists k: nat :: IsFailureEvent(tool, transport, k) && raised == !transport(k)
  }

  /** The last of the events sent was refused, and it was not the opening one. */
  ghost predicate Interrupted(tool: Tool, transport: Transport, sent: seq<int>) {
    1 < |sent| <= |Sent(tool)| && FirstRefusal(transport, |sent| - 1)
  }

  lemma OnlyFailureEvent(tool: Tool, transport: Transport, k: nat)
    requires FailureEventAt(tool, transport, k)
    ensures IsFailureEvent(tool, transport, k)
  {
    forall j: nat | FailureEventAt(tool, transport, j) ensures j == k {
      FailureEventUnique(tool, transport, j, k);
    }
  }

  // ---- The reports of a run ----

  lemma {:induction false} PrefixReports(calls: seq<Call>, k: nat)
    requires k <= |calls|
    ensures Reports(calls[..k]) <= Reports(calls)
    decreases |calls| - k
  {
    if k < |calls| {
      assert calls[..k + 1][..k] == calls[..k];
      PrefixReports(calls, k + 1);
    } else {
      assert calls[..k] == calls;
    }
  }

  /** The calls made before the tool's k-th report. */
  ghost function Made(tool: Tool, k: nat): seq<Call>
    requires k <= |tool.progress|
  {
    AllReports(tool)[..k + 1]
  }

  /** The opening report of 0 is always an event. */
  lemma OpeningReport(tool: Tool)
    ensures Made(tool, 0) == [Report(0)] && Reports([Report(0)]) == [0] && Stored([Report(0)]) == 0
    ensures |Sent(tool)| >= 1
  {
    var calls := [Report(0)];
    assert calls[..0] == [];
    assert Reports(calls) == [0];
    assert AllReports(tool)[..1] == calls;
    PrefixReports(AllReports(tool), 1);
  }

  /** A job ends COMPLETED exactly when the tool yields an output and all its events get through, the terminal
      one included, and then with that output. Else it ends FAILED, or stays as it was when the opening event
      is refused; its output is saved all the same when only the terminal event is refused. */
  lemma HowJobsEnd(before: JobStatus, held: Option<Dataset>, tool: Tool, transport: Transport)
    ensures var status, output := EndStatus(before, tool, transport), EndOutput(held, tool, transport);
            && (before != COMPLETED ==>
                  (status == COMPLETED <==> tool.result.Some? && forall i: nat :: i <= |Sent(tool)| ==> transport(i)))
            && (status != COMPLETED && transport(0) ==> status == FAILED)
            && (!transport(0) ==> status == before && output == held)
            && (tool.result.None? ==> output == held)
            && (tool.result.Some? && (forall i: nat :: i < |Sent(tool)| ==> transport(i)) ==> output == tool.result)
            && ((exists i: nat :: i < |Sent(tool)| && !transport(i)) ==> output == held)
  {
    OpeningReport(tool);
  }

  /** The tool's k-th report adds one event, or none, to those sent so far; if that event is refused,
      the run is interrupted. */
  lemma OneReport(tool: Tool, k: nat, transport: Transport)
    requires k < |tool.progress| && Accepts(transport, |Reports(Made(tool, k))|)
    ensures Made(tool, k + 1) == Made(tool, k) + [Report(tool.progress[k])]
    ensures var before, after := Reports(Made(tool, k)), Reports(Made(tool, k + 1));
            if after == before || transport(|before|) then Accepts(transport, |after|)
            else
              !Uninterrupted(tool, transport) && FirstRefusal(transport, |before|)
              && |after| == |before| + 1 <= |Sent(tool)|
  {
    var calls := AllReports(tool);
    assert calls[..k + 2][..k + 1] == calls[..k + 1];
    PrefixReports(calls, k + 2);
  }

  ghost predicate PartWay(tool: Tool, calls: seq<Call>) {
    exists k: nat :: k <= |tool.progress| && calls == Made(tool, k)
  }

  /** A value the stored progress takes over the calls of a run. */
  ghost predicate OnTrack(tool: Tool, progress: int) {
    exists n: nat :: 1 <= n <= |JobCalls(tool)| && progress == Stored(JobCalls(tool)[..n])
  }

  lemma PartWayOnTrack(tool: Tool, calls: seq<Call>)
    requires PartWay(tool, calls)
    ensures OnTrack(tool, Stored(calls))
  {
    var k: nat :| k <= |tool.progress| && calls == Made(tool, k);
    assert calls == JobCalls(tool)[..k + 1];
  }

  lemma CompletedOnTrack(tool: Tool)
    ensures OnTrack(tool, 100)
  {
    var calls := JobCalls(tool);
    assert calls[..|calls|] == calls && calls[|calls| - 1] == Complete;
  }

  /** Over the calls of a run the stored progress never falls. */
  lemma {:induction false} JobProgressNeverFalls(tool: Tool, j: nat, k: nat)
    requires j <= k <= |JobCalls(tool)|
    ensures Stored(JobCalls(tool)[..j]) <= Stored(JobCalls(tool)[..k])
    decreases k - j
  {
    if j < k {
      JobProgressNeverFalls(tool, j, k - 1);
      var before := JobCalls(tool)[..k - 1];
      assert JobCalls(tool)[..k] == before + [JobCalls(tool)[k - 1]];
      StoredNeverFalls(before, JobCalls(tool)[k - 1]);
    }
  }

  /** A tool that makes no reports and whose output is saved; only the terminal event is refused. */
  lemma {:induction false} LateRefusalCounterexample(output: Dataset)
    ensures var tool, transport: Transport := Tool([], Some(output)), i => i != 1;
            EndStatus(PROCESSING, tool, transport) == FAILED && EndOutput(None, tool, transport) == Some(output)
  {
    var tool := Tool([], Some(output));
    OpeningReport(tool);
    assert AllReports(tool) == [Report(0)];
    assert |Sent(tool)| == 1;
  }

  class Job {
    var status: JobStatus
    var output: Option<Dataset>
    const row: Row

    constructor ()
      ensures status == PROCESSING && output == None && fresh(row) && row.progress == 0
    {
      status, output := PROCESSING, None;
      row := new Row();
    }

    method MakeReport(tool: Tool, k: nat, reporter: Reporter) returns (ok: bool)
      requires reporter.Valid() && reporter.row == row && reporter.ended == 0
      requires k < |tool.progress| && reporter.calls == Made(tool, k) && row.progress == Stored(reporter.calls)
      requires reporter.sent != [] && Accepts(reporter.transport, |reporter.sent|)
      modifies reporter`lastReported, reporter`sent, reporter`calls, row
      ensures reporter.Valid() && reporter.calls == Made(tool, k + 1) && row.progress == Stored(reporter.calls)
      ensures ok ==> reporter.sent != [] && Accepts(reporter.transport, |reporter.sent|)
      ensures !ok ==>
                && !Uninterrupted(tool, reporter.transport)
                && Interrupted(tool, reporter.transport, reporter.sent)
    {
      OneReport(tool, k, reporter.transport);
      ok := reporter.Report(tool.progress[k]);
    }

    /** The reports of the tool's body, in order; `ok` is false where publishing one raises. */
    method MakeReports(tool: Tool, reporter: Reporter) returns (ok: bool)
      requires reporter.Valid() && reporter.row == row && reporter.ended == 0
      requires reporter.calls == [Report(0)] && reporter.transport(0) && row.progress == 0
      modifies reporter`lastReported, reporter`sent, reporter`calls, row
      ensures reporter.Valid() && row.progress == Stored(reporter.calls) && PartWay(tool, reporter.calls)
      ensures ok <==> Uninterrupted(tool, reporter.transport)
      ensures ok ==> reporter.calls == AllReports(tool)
      ensures !ok ==> Interrupted(tool, reporter.transport, reporter.sent)
    {
      OpeningReport(tool);
      for k := 0 to |tool.progress|
        invariant reporter.Valid() && reporter.calls == Made(tool, k)
        invariant row.progress == Stored(reporter.calls)
        invariant reporter.sent != [] && Accepts(reporter.transport, |reporter.sent|)
      {
        ok := MakeReport(tool, k, reporter);
        if !ok {
          return;
        }
      }
      assert Made(tool, |tool.progress|) == AllReports(tool);
      ok := true;
    }

    /** Runs the tool's body. `ok` is false where it raises, by itself or because an event was refused;
        its output is saved by its last operation, after all its reports. */
    method RunTool(tool: Tool, reporter: Reporter) returns (ok: bool)
      requires reporter.Valid() && reporter.row == row && reporter.ended == 0
      requires reporter.calls == [Report(0)] && reporter.transport(0) && row.progress == 0
      modifies this`output, reporter`lastReported, reporter`sent, reporter`calls, row
      ensures reporter.Valid() && OnTrack(tool, row.progress)
      ensures ok <==> Uninterrupted(tool, reporter.transport) && tool.result.Some?
      ensures Uninterrupted(tool, reporter.transport) ==> reporter.calls == AllReports(tool)
      ensures !Uninterrupted(tool, reporter.transport) ==> Interrupted(tool, reporter.transport, reporter.sent)
      ensures output == if ok then tool.result else old(output)
    {
      ok := MakeReports(tool, reporter);
      PartWayOnTrack(tool, reporter.calls);
      if ok && tool.result.None? {
        ok := false;
      }
      if ok {
        output := tool.result;
      }
    }

    /** The terminal event, or the failure and its event. */
    method Conclude(tool: Tool, reporter: Reporter, ran: bool) returns (raised: bool)
      requires reporter.Valid() && reporter.row == row && reporter.ended == 0 && reporter.transport(0)
      requires OnTrack(tool, row.progress)
      requires ran <==> Uninterrupted(tool, reporter.transport) && tool.result.Some?
      requires Uninterrupted(tool, reporter.transport) ==> reporter.calls == AllReports(tool)
      requires !Uninterrupted(tool, reporter.transport) ==> Interrupted(tool, reporter.transport, reporter.sent)
      modifies this`status, reporter, row
      ensures status == EndStatus(old(status), tool, reporter.transport)
      ensures Raises(tool, reporter.transport, raised)
      ensures OnTrack(tool, row.progress) && (ran ==> row.progress == 100)
    {
      var completed := false;
      if ran {
        status := COMPLETED;
        completed := reporter.Complete();
        CompletedOnTrack(tool);
      }
      raised := false;
      if !completed {
        status := FAILED;
        ghost var k := |reporter.sent| + reporter.ended;
        assert FailureEventAt(tool, reporter.transport, k);
        OnlyFailureEvent(tool, reporter.transport, k);
        var told := reporter.Fail();
        raised := !told;
        assert raised == !reporter.transport(k);
      }
    }

    /** A new reporter and the opening event. */
    method Start(tool: Tool, transport: Transport) returns (reporter: Reporter, ok: bool)
      modifies row
      ensures fresh(reporter) && reporter.Valid() && reporter.row == row && reporter.transport == transport
      ensures reporter.calls == [Report(0)] && reporter.ended == 0
      ensures ok == transport(0) && row.progress == 0 && OnTrack(tool, 0)
    {
      OpeningReport(tool);
      PartWayOnTrack(tool, Made(tool, 0));
      reporter := new Reporter(row, transport);
      ok := reporter.Report(0);
      assert reporter.calls == [Report(0)];
    }

    /** The contract callers rely on: a job that reads COMPLETED is one whose call returned normally with
        its output. The converse fails: when only the terminal event is refused, a job whose output is
        saved and whose progress is 100 reads FAILED. `raised` says whether the call itself raises, which
        it does exactly when the opening event or the failure event is refused. */
    method Execute(tool: Tool, transport: Transport) returns (raised: bool)
      modifies this, row
      ensures status == EndStatus(old(status), tool, transport)
      ensures output == EndOutput(old(output), tool, transport)
      ensures if transport(0) then Raises(tool, transport, raised) else raised
      ensures Uninterrupted(tool, transport) && tool.result.Some? ==> row.progress == 100
      ensures OnTrack(tool, row.progress)
    {
      var reporter, started := Start(tool, transport);
      if !started {
        OpeningReport(tool);
        return true;
      }
      var ran := RunTool(tool, reporter);
      raised := Conclude(tool, reporter, ran);
    }
  }
}
