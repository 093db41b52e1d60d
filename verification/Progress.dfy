/** The throttled progress reporter of one processing job. */
module Progress {
  import opened Wrappers

  const PROGRESS_STEP := 5

  /** What is asked of a reporter that concerns the progress. */
  datatype Call = Report(progress: int) | Complete

  function Clamp(progress: int): int {
    if progress < 0 then 0 else if progress > 100 then 100 else progress
  }

  /** What a reporter that last reported `last` emits for a report, if anything. */
  function Emitted(last: int, progress: int): Option<int> {
    var p := Clamp(progress);
    if p - last < PROGRESS_STEP && p != 100 then None else Some(p)
  }

  ghost function Last(reports: seq<int>): int {
    if reports == [] then -PROGRESS_STEP else reports[|reports| - 1]
  }

  /** The progress events emitted over a sequence of calls on a fresh reporter. */
  ghost function Reports(calls: seq<Call>): seq<int> {
    if calls == [] then []
    else
      var before := Reports(calls[..|calls| - 1]);
      match calls[|calls| - 1]
      case Complete => before
      case Report(progress) =>
        match Emitted(Last(before), progress)
        case Some(p) => before + [p]
        case None => before
  }

  /** The progress stored on the job row after the calls; a new job's is 0. */
  ghost function Stored(calls: seq<Call>): int {
    if calls == [] then 0
    else
      var init := calls[..|calls| - 1];
      match calls[|calls| - 1]
      case Complete => 100
      case Report(progress) =>
        match Emitted(Last(Reports(init)), progress)
        case Some(p) => p
        case None => Stored(init)
  }

  // ---- The events ----

  /** Reports stay within 0..100 and rise by at least the step, except that 100 may repeat. */
  ghost predicate Rising(reports: seq<int>) {
    && (forall i :: 0 <= i < |reports| ==> 0 <= reports[i] <= 100)
    && (forall i :: 0 <= i < |reports| - 1 ==>
          reports[i] + PROGRESS_STEP <= reports[i + 1] || reports[i + 1] == 100)
  }

  lemma RisesOn(before: seq<int>, progress: int)
    requires Rising(before)
    ensures var e := Emitted(Last(before), progress); e.Some? ==> Rising(before + [e.value])
  {
    var e := Emitted(Last(before), progress);
    if e.Some? {
      var reports := before + [e.value];
      forall i | 0 <= i < |reports| - 1
        ensures reports[i] + PROGRESS_STEP <= reports[i + 1] || reports[i + 1] == 100
      {
        if i < |before| - 1 {
          assert reports[i] == before[i] && reports[i + 1] == before[i + 1];
        }
      }
    }
  }

  lemma {:induction false} ReportsRise(calls: seq<Call>)
    ensures Rising(Reports(calls))
  {
    if calls != [] {
      var init, last := calls[..|calls| - 1], calls[|calls| - 1];
      ReportsRise(init);
      if last.Report? {
        RisesOn(Reports(init), last.progress);
      }
    }
  }

  lemma {:induction false} RisingFromStart(reports: seq<int>, i: nat)
    requires Rising(reports) && i < |reports| && reports[i] < 100
    ensures reports[i] >= PROGRESS_STEP * i
  {
    if i > 0 {
      assert reports[i - 1] + PROGRESS_STEP <= reports[i - 1 + 1];
      RisingFromStart(reports, i - 1);
    }
  }

  lemma {:induction false} NeverFalls(reports: seq<int>, i: nat, j: nat)
    requires Rising(reports) && i <= j < |reports|
    ensures reports[i] <= reports[j]
    decreases j
  {
    if i < j {
      NeverFalls(reports, i, j - 1);
      assert reports[j - 1] + PROGRESS_STEP <= reports[j - 1 + 1] || reports[j - 1 + 1] == 100;
    }
  }

  /** Over any calls the emitted progress stays in 0..100 and never falls, and at most the first
      twenty reports are below 100. */
  lemma ReportsAreMonotone(calls: seq<Call>, i: nat, j: nat)
    requires i <= j < |Reports(calls)|
    ensures 0 <= Reports(calls)[i] <= Reports(calls)[j] <= 100
    ensures Reports(calls)[j] < 100 ==> j < 20
  {
    ReportsRise(calls);
    NeverFalls(Reports(calls), i, j);
    if Reports(calls)[j] < 100 {
      RisingFromStart(Reports(calls), j);
    }
  }

  /** A report of 100 or more is never suppressed, nor is one a full step above the last; any other
      report is. */
  lemma ReportedIff(calls: seq<Call>, progress: int)
    ensures Reports(calls + [Report(progress)]) ==
            if progress >= 100 || Clamp(progress) >= Last(Reports(calls)) + PROGRESS_STEP
            then Reports(calls) + [Clamp(progress)] else Reports(calls)
  {
    assert (calls + [Report(progress)])[..|calls|] == calls;
  }

  /** A report of 100 or more is never suppressed, and nothing below 100 is emitted after it. */
  lemma {:induction false} HundredIsKept(calls: seq<Call>, i: nat)
    requires i < |calls| && calls[i].Report? && calls[i].progress >= 100
    ensures Reports(calls[..i + 1]) == Reports(calls[..i]) + [100]
    ensures Last(Reports(calls)) == 100
  {
    assert calls[..i + 1] == calls[..i] + [Report(calls[i].progress)];
    ReportedIff(calls[..i], calls[i].progress);
    if i == |calls| - 1 {
      assert calls[..i + 1] == calls;
    } else {
      var init, last := calls[..|calls| - 1], calls[|calls| - 1];
      HundredIsKept(init, i);
      assert calls == init + [last];
      if last.Report? {
        ReportedIff(init, last.progress);
      }
    }
  }

  // ---- The stored progress ----

  ghost predicate HasComplete(calls: seq<Call>) {
    exists i :: 0 <= i < |calls| && calls[i] == Complete
  }

  /** The row holds the last report, or 100. Only a completion lifts it above the last report. */
  lemma {:induction false} StoredIs(calls: seq<Call>)
    ensures Last(Reports(calls)) <= Stored(calls)
    ensures Stored(calls) == 100 || Stored(calls) == Clamp(Last(Reports(calls)))
    ensures !HasComplete(calls) ==> Stored(calls) == Clamp(Last(Reports(calls)))
  {
    if calls != [] {
      var init, last := calls[..|calls| - 1], calls[|calls| - 1];
      StoredIs(init);
      ReportsRise(init);
      ReportsRise(calls);
      if HasComplete(init) {
        var i :| 0 <= i < |init| && init[i] == Complete;
        assert calls[i] == Complete;
      }
      assert last == Complete ==> HasComplete(calls);
    }
  }

  /** One more call lowers the stored progress exactly when it is a report below 100, a full step above
      the last report, that arrives when the row already says 100. */
  lemma {:induction false} StoredFallsIff(calls: seq<Call>, next: Call)
    ensures Stored(calls + [next]) < Stored(calls) <==>
            && next.Report? && next.progress < 100 && Stored(calls) == 100
            && Clamp(next.progress) >= Last(Reports(calls)) + PROGRESS_STEP
  {
    assert (calls + [next])[..|calls|] == calls;
    StoredIs(calls);
    ReportsRise(calls);
  }

  /** Completing after a report of 0 and then reporting 50 takes the stored progress from 100 to 50. */
  lemma {:induction false} LateReportCounterexample()
    ensures var calls := [Report(0), Complete];
            Stored(calls) == 100 && Stored(calls + [Report(50)]) == 50
  {
    var calls := [Report(0), Complete];
    assert calls[..1] == [Report(0)] && [Report(0)][..0] == [];
    assert Reports([Report(0)]) == [0];
    assert (calls + [Report(50)])[..2] == calls;
  }

  /** Before the first completion the stored progress never falls. */
  lemma StoredNeverFalls(calls: seq<Call>, next: Call)
    requires !HasComplete(calls)
    ensures Stored(calls + [next]) >= Stored(calls)
  {
    StoredIs(calls);
    StoredFallsIff(calls, next);
  }

  // ---- The code ----

  /** The row of a processing job, as far as the reporter touches it. */
  class Row {
    var progress: int

    constructor ()
      ensures progress == 0
    {
      progress := 0;
    }
  }

  class Reporter {
    const row: Row
    var lastReported: int
    /** Progress events, and the number of terminal events, handed to the transport so far. */
    var sent: seq<int>
    var ended: nat
    /** Which events, in order, the transport accepts; refusing one raises. */
    const transport: nat -> bool
    ghost var calls: seq<Call>

    ghost predicate Valid()
      reads this
    {
      sent == Reports(calls) && lastReported == Last(sent)
    }

    constructor (row: Row, transport: nat -> bool)
      ensures Valid() && calls == [] && ended == 0 && this.row == row && this.transport == transport
      ensures forall p :: Emitted(lastReported, p).Some?
    {
      this.row, this.transport := row, transport;
      lastReported, sent, ended, calls := -PROGRESS_STEP, [], 0, [];
    }

    /** Persists, then publishes; or does nothing. `ok` is false where publishing raises. */
    method Report(progress: int) returns (ok: bool)
      requires Valid()
      modifies this`lastReported, this`sent, this`calls, row
      ensures Valid() && calls == old(calls) + [Call.Report(progress)]
      ensures row.progress ==
              match Emitted(old(lastReported), progress) case Some(p) => p case None => old(row.progress)
      ensures old(row.progress) == Stored(old(calls)) ==> row.progress == Stored(calls)
      ensures ok <==> sent == old(sent) || transport(|old(sent)| + ended)
    {
      calls := calls + [Call.Report(progress)];
      assert calls[..|calls| - 1] == old(calls);
      var p := Clamp(progress);
      if p - lastReported < PROGRESS_STEP && p != 100 {
        return true;
      }
      lastReported := p;
      row.progress := p;
      ok := transport(|sent| + ended);
      sent := sent + [p];
    }

    /** The terminal event; it does not go through the throttle. */
    method Complete() returns (ok: bool)
      requires Valid()
      modifies this`ended, this`calls, row
      ensures Valid() && calls == old(calls) + [Call.Complete] && ended == old(ended) + 1
      ensures row.progress == 100 && ok == transport(|sent| + old(ended))
    {
      calls := calls + [Call.Complete];
      assert calls[..|calls| - 1] == old(calls);
      row.progress := 100;
      ok := transport(|sent| + ended);
      ended := ended + 1;
    }

    method Fail() returns (ok: bool)
      modifies this`ended
      ensures ended == old(ended) + 1 && ok == transport(|sent| + old(ended))
    {
      ok := transport(|sent| + ended);
      ended := ended + 1;
    }
  }
}
