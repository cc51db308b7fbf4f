/** Executing a compiled plan: wave after wave, fail-fast, all-Read waves in one pipeline. */
module RunPlan {
  import opened Ordering
  import opened Protocol
  import opened Schedule
  import opened Plan
  import WireClient

  datatype Response = Response(ok: bool, error: Option<string>, result: Option<Value>)

  datatype Shot = Shot(step: string, ok: bool)

  datatype StepReceipt = StepReceipt(id: string, ok: bool, error: Option<string>, result: Option<Value>,
      shot: Option<Shot>)

  datatype Receipt = Receipt(ok: bool, recipe: string, fingerprint: Payload, steps: seq<StepReceipt>, shots: seq<Shot>)

  datatype Outcome =
    | Finished(receipt: Receipt)
    | NeedsYes
    | StepFailed(id: string, error: string, receipt: Receipt)

  /** Per-step screenshots, for every step or only the flagged ones. */
  datatype Capture = Capture(flaggedOnly: bool)

  /** A step handed to the client, and what the client made of it. */
  datatype Sent = Sent(id: string, op: Op, reply: Result<Response>)

  predicate Fine(e: Sent) { e.reply.Ok? && e.reply.value.ok }

  predicate AllFine(trace: seq<Sent>) { forall t :: 0 <= t < |trace| ==> Fine(trace[t]) }

  /** A step that reached the host, and what the host answered: once for each copy of its request, because a
      single call is written again when its answer is lost. */
  datatype Run = Run(id: string, op: Op, answers: seq<Response>)

  function Last(r: Run): Response
    requires r.answers != []
  {
    r.answers[|r.answers| - 1]
  }

  /** `runs` is what reached the host of the steps in `trace`: the first of them, each at least once; the client
      returns the answer to the last copy, or an error. */
  ghost predicate Paired(trace: seq<Sent>, runs: seq<Run>)
  {
    && |runs| <= |trace|
    && (forall k :: 0 <= k < |runs| ==>
          runs[k].id == trace[k].id && runs[k].op == trace[k].op && runs[k].answers != [])
    && (forall k :: 0 <= k < |trace| && trace[k].reply.Ok? ==> k < |runs| && Last(runs[k]) == trace[k].reply.value)
  }

  /** The connection: any request may fail, and any answer may come back. */
  class Client {
    ghost var log: seq<Sent>
    ghost var wire: seq<Run>

    constructor ()
      ensures log == [] && wire == []
    {
      log, wire := [], [];
    }

    /** One operation, written again until it is answered or time is up. */
    method RpcOp(id: string, op: Op) returns (r: Result<Response>, ghost runs: seq<Run>)
      modifies this
      ensures log == old(log) + [Sent(id, op, r)] && wire == old(wire) + runs && Paired([Sent(id, op, r)], runs)
    {
      var lost: bool, error: string, answer: Response := *, *, *;
      ghost var earlier: seq<Response> := *;
      r := if lost then Err(error) else Ok(answer);
      runs := if !lost then [Run(id, op, earlier + [answer])]
              else if earlier == [] then [] else [Run(id, op, earlier)];
      log, wire := log + [Sent(id, op, r)], wire + runs;
    }

    /** Returns one response per operation, or an error after which the first of them may have run. A lone
        operation left over by the chunks goes out as a single call; no other is written twice. */
    method RpcPipeline(ids: seq<string>, ops: seq<Op>) returns (r: Result<seq<Response>>, ghost runs: seq<Run>)
      requires |ids| == |ops|
      modifies this
      ensures r.Ok? ==> |r.value| == |ops|
      ensures log == old(log) + Answered(ids, ops, r) && wire == old(wire) + runs && Paired(Answered(ids, ops, r), runs)
      ensures forall k :: 0 <= k < |runs| && |runs[k].answers| > 1 ==>
                k == |ids| - 1 && |ids| % WireClient.MAX_CHUNK == 1
    {
      var rs: seq<Response> := [];
      ghost var all: seq<Run> := [];
      for k := 0 to |ops|
        invariant |rs| == |all| == k
        invariant forall m :: 0 <= m < k ==>
                    all[m].id == ids[m] && all[m].op == ops[m] && all[m].answers != [] && Last(all[m]) == rs[m]
        invariant forall m :: 0 <= m < k && |all[m].answers| > 1 ==> m == |ids| - 1 && |ids| % WireClient.MAX_CHUNK == 1
      {
        var answer: Response := *;
        ghost var earlier: seq<Response> := *;
        if k < |ids| - 1 || |ids| % WireClient.MAX_CHUNK != 1 { earlier := []; }
        rs := rs + [answer];
        all := all + [Run(ids[k], ops[k], earlier + [answer])];
      }
      var lost: bool, error: string := *, *;
      ghost var reached: nat := *;
      r := if lost then Err(error) else Ok(rs);
      runs := if lost && 0 <= reached <= |all| then all[..reached] else all;
      log, wire := log + Answered(ids, ops, r), wire + runs;
    }

    method Screenshot() returns (ok: bool)
    {
      ok := *;
    }
  }

  function Answered(ids: seq<string>, ops: seq<Op>, r: Result<seq<Response>>): (s: seq<Sent>)
    requires |ids| == |ops| && (r.Ok? ==> |r.value| == |ids|)
    ensures |s| == |ids|
    ensures forall k :: 0 <= k < |s| ==>
              s[k] == Sent(ids[k], ops[k], if r.Ok? then Ok(r.value[k]) else Err(r.error))
  {
    seq(|ids|, k requires 0 <= k < |ids| => Sent(ids[k], ops[k], if r.Ok? then Ok(r.value[k]) else Err(r.error)))
  }

  predicate ReadOnly(s: PlannedStep)
  {
    s.effects != [] && forall e :: e in s.effects ==> e == Read
  }

  predicate CanPipeline(steps: seq<PlannedStep>, capture: Option<Capture>)
  {
    capture.None? && |steps| > 1 && forall s :: s in steps ==> ReadOnly(s)
  }

  // ----- receipts

  function Row(s: PlannedStep, r: Response, shot: Option<Shot>): StepReceipt
  {
    StepReceipt(s.id, r.ok, r.error, r.result, shot)
  }

  function Reason(r: Response): string
  {
    if r.error.Some? then r.error.value else "request failed"
  }

  /** The row of a step: its response, or the error that took the response's place. */
  function RowOf(s: PlannedStep, reply: Result<Response>, shot: Option<Shot>): StepReceipt
  {
    match reply
    case Ok(r) => Row(s, r, shot)
    case Err(error) => StepReceipt(s.id, false, Some(error), None, shot)
  }

  /** Every row is that of the step at its place; all have one unless the connection failed. */
  ghost predicate RowsTell(steps: seq<PlannedStep>, rows: seq<StepReceipt>, trace: seq<Sent>)
  {
    && |rows| <= |trace| <= |steps|
    && (forall k :: 0 <= k < |rows| ==> rows[k] == RowOf(steps[k], trace[k].reply, rows[k].shot))
    && ((forall t :: 0 <= t < |trace| ==> trace[t].reply.Ok?) ==> |rows| == |trace|)
  }

  /** The row names the step, is ok exactly if it was answered ok, and repeats what came back: the error and the
      result of the answer, or the connection's error. */
  predicate Tells(row: StepReceipt, s: PlannedStep, e: Sent)
  {
    && row.id == s.id && (row.ok <==> Fine(e))
    && match e.reply
       case Ok(r) => row.error == r.error && row.result == r.result
       case Err(error) => row.error == Some(error) && row.result.None?
  }

  lemma {:induction false} RowsAreTold(steps: seq<PlannedStep>, rows: seq<StepReceipt>, trace: seq<Sent>)
    requires RowsTell(steps, rows, trace)
    ensures forall k :: 0 <= k < |rows| ==> Tells(rows[k], steps[k], trace[k])
  {
    forall k | 0 <= k < |rows| ensures Tells(rows[k], steps[k], trace[k]) {
      assert rows[k] == RowOf(steps[k], trace[k].reply, rows[k].shot);
    }
  }

  // ----- screenshots

  predicate Wanted(capture: Option<Capture>, s: PlannedStep)
  {
    capture.Some? && (!capture.value.flaggedOnly || s.screenshot)
  }

  function ShotsIn(rows: seq<StepReceipt>): seq<Shot>
  {
    if rows == [] then []
    else ShotsIn(rows[..|rows| - 1]) + (if rows[|rows| - 1].shot.Some? then [rows[|rows| - 1].shot.value] else [])
  }

  /** Exactly the rows of wanted steps carry a screenshot, each of its own step, and the receipt lists them in
      order. */
  predicate Pictured(capture: Option<Capture>, steps: seq<PlannedStep>, rows: seq<StepReceipt>, shots: seq<Shot>)
  {
    && |rows| <= |steps| && shots == ShotsIn(rows)
    && forall k :: 0 <= k < |rows| ==>
         && (rows[k].shot.Some? <==> Wanted(capture, steps[k]))
         && (rows[k].shot.Some? ==> rows[k].shot.value.step == steps[k].id)
  }

  lemma {:induction false} PicturesJoin(capture: Option<Capture>, steps: seq<PlannedStep>, had: seq<StepReceipt>,
                                        taken: seq<Shot>, rows: seq<StepReceipt>, shots: seq<Shot>)
    requires |had| <= |steps| && Pictured(capture, steps, had, taken)
    requires Pictured(capture, steps[|had|..], rows, shots)
    ensures Pictured(capture, steps, had + rows, taken + shots)
  {
    ShotsJoin(had, rows);
    hide ShotsIn, Wanted;
    forall k | 0 <= k < |rows| ensures steps[|had|..][k] == steps[|had| + k] { }
  }

  lemma {:induction false} ShotsJoin(a: seq<StepReceipt>, b: seq<StepReceipt>)
    ensures ShotsIn(a + b) == ShotsIn(a) + ShotsIn(b)
  {
    if b == [] {
      assert a + b == a;
    } else {
      ShotsJoin(a, b[..|b| - 1]);
      assert (a + b)[..|a + b| - 1] == a + b[..|b| - 1];
    }
  }

  lemma {:induction false} OneMorePicture(capture: Option<Capture>, steps: seq<PlannedStep>, rows: seq<StepReceipt>,
                                          shots: seq<Shot>, reply: Result<Response>, shot: Option<Shot>)
    requires |rows| < |steps| && Pictured(capture, steps, rows, shots)
    requires shot.Some? <==> Wanted(capture, steps[|rows|])
    requires shot.Some? ==> shot.value.step == steps[|rows|].id
    ensures Pictured(capture, steps, rows + [RowOf(steps[|rows|], reply, shot)],
                     if shot.Some? then shots + [shot.value] else shots)
  {
    var row := RowOf(steps[|rows|], reply, shot);
    assert row.shot == shot;
    hide Wanted, RowOf;
    assert (rows + [row])[..|rows|] == rows;
  }

  lemma {:induction false} NoPictures(steps: seq<PlannedStep>, rows: seq<StepReceipt>)
    requires |rows| <= |steps| && forall k :: 0 <= k < |rows| ==> rows[k].shot.None?
    ensures Pictured(None, steps, rows, [])
  {
    if rows != [] { NoPictures(steps, rows[..|rows| - 1]); }
  }

  lemma {:induction false} PicturesOfSlice(capture: Option<Capture>, steps: seq<PlannedStep>, more: seq<PlannedStep>,
                                           rows: seq<StepReceipt>, shots: seq<Shot>)
    requires steps <= more && Pictured(capture, steps, rows, shots)
    ensures Pictured(capture, more, rows, shots)
  {
    hide ShotsIn, Wanted;
  }

  function Rows(steps: seq<PlannedStep>, rs: seq<Response>): (rows: seq<StepReceipt>)
    requires |steps| == |rs|
    ensures |rows| == |steps| && forall k :: 0 <= k < |rows| ==> rows[k] == Row(steps[k], rs[k], None)
  {
    if steps == [] then []
    else Rows(steps[..|steps| - 1], rs[..|rs| - 1]) + [Row(steps[|steps| - 1], rs[|rs| - 1], None)]
  }

  datatype Failure = Failure(id: string, error: string)

  function Why(e: Sent): string
  {
    match e.reply case Err(error) => error case Ok(r) => Reason(r)
  }

  /** The entry at `t` is the first that is not fine, and `f` reports it. */
  predicate FailsAt(trace: seq<Sent>, t: nat, f: Failure)
  {
    t < |trace| && !Fine(trace[t]) && f == Failure(trace[t].id, Why(trace[t])) && AllFine(trace[..t])
  }

  /** A failure is reported exactly when an answer is not ok, and it is the first such. */
  ghost predicate Reports(trace: seq<Sent>, failed: Option<Failure>)
  {
    if failed.Some? then exists t: nat :: FailsAt(trace, t, failed.value) else AllFine(trace)
  }

  /** The first step whose response is not ok. */
  function FirstFailure(steps: seq<PlannedStep>, rs: seq<Response>): Option<Failure>
    requires |steps| == |rs|
  {
    if steps == [] then None
    else
      var earlier := FirstFailure(steps[..|steps| - 1], rs[..|rs| - 1]);
      if earlier.Some? then earlier
      else if rs[|rs| - 1].ok then None
      else Some(Failure(steps[|steps| - 1].id, Reason(rs[|rs| - 1])))
  }

  // ----- one wave

  function IdsIn(steps: seq<PlannedStep>): (ids: seq<string>)
    ensures |ids| == |steps| && forall k :: 0 <= k < |ids| ==> ids[k] == steps[k].id
  {
    seq(|steps|, k requires 0 <= k < |steps| => steps[k].id)
  }

  function OpsIn(steps: seq<PlannedStep>): (ops: seq<Op>)
    ensures |ops| == |steps| && forall k :: 0 <= k < |ops| ==> ops[k] == steps[k].op
  {
    seq(|steps|, k requires 0 <= k < |steps| => steps[k].op)
  }

  /** The entry is that of this step: its id, and its own operation. */
  predicate IsOf(e: Sent, s: PlannedStep) { e.id == s.id && e.op == s.op }

  lemma {:induction false} OneMoreAnswer(steps: seq<PlannedStep>, rs: seq<Response>, k: nat)
    requires k < |steps| == |rs|
    ensures Rows(steps[..k + 1], rs[..k + 1]) == Rows(steps[..k], rs[..k]) + [Row(steps[k], rs[k], None)]
    ensures FirstFailure(steps[..k + 1], rs[..k + 1]) ==
              var earlier := FirstFailure(steps[..k], rs[..k]);
              if earlier.None? && !rs[k].ok then Some(Failure(steps[k].id, Reason(rs[k]))) else earlier
  {
    assert steps[..k + 1][..k] == steps[..k] && rs[..k + 1][..k] == rs[..k];
    hide Row, Reason;
  }

  /** One row per response; remembers the first that is not ok. */
  method ReadAnswers(steps: seq<PlannedStep>, rs: seq<Response>) returns (rows: seq<StepReceipt>,
                     failed: Option<Failure>)
    requires |steps| == |rs|
    ensures rows == Rows(steps, rs) && failed == FirstFailure(steps, rs)
  {
    rows, failed := [], None;
    assert steps[..|steps|] == steps && rs[..|rs|] == rs;
    assert Rows(steps[..0], rs[..0]) == [] && FirstFailure(steps[..0], rs[..0]) == None;
    hide *;
    for k := 0 to |steps|
      invariant rows == Rows(steps[..k], rs[..k]) && failed == FirstFailure(steps[..k], rs[..k])
    {
      OneMoreAnswer(steps, rs, k);
      if !rs[k].ok && failed.None? { failed := Some(Failure(steps[k].id, Reason(rs[k]))); }
      rows := rows + [Row(steps[k], rs[k], None)];
    }
  }

  method PipelineWave(client: Client, steps: seq<PlannedStep>)
    returns (rows: seq<StepReceipt>, failed: Option<Failure>, ghost r: Result<seq<Response>>, ghost runs: seq<Run>)
    requires steps != []
    modifies client
    ensures r.Ok? ==> |r.value| == |steps| && rows == Rows(steps, r.value) && failed == FirstFailure(steps, r.value)
    ensures r.Err? ==> failed == Some(Failure(steps[0].id, r.error))
                       && rows == [StepReceipt(steps[0].id, false, Some(r.error), None, None)]
    ensures client.log == old(client.log) + Answered(IdsIn(steps), OpsIn(steps), r)
    ensures client.wire == old(client.wire) + runs && Paired(Answered(IdsIn(steps), OpsIn(steps), r), runs)
  {
    var answer;
    answer, runs := client.RpcPipeline(IdsIn(steps), OpsIn(steps));
    r := answer;
    match answer
    case Ok(rs) =>
      rows, failed := ReadAnswers(steps, rs);
    case Err(error) =>
      rows := [StepReceipt(steps[0].id, false, Some(error), None, None)];
      failed := Some(Failure(steps[0].id, error));
  }

  /** A screenshot after a step never decides the run. */
  method TakeShot(client: Client, capture: Option<Capture>, s: PlannedStep) returns (shot: Option<Shot>)
    ensures shot.Some? <==> Wanted(capture, s)
    ensures shot.Some? ==> shot.value.step == s.id
  {
    if capture.None? || (capture.value.flaggedOnly && !s.screenshot) { return None; }
    var ok := client.Screenshot();
    return Some(Shot(s.id, ok));
  }

  /** What one wave does: it sends its first steps in order, all of them unless one fails; the failure reported
      is the first; the rows are those of the replies; and what it sends is all Read, or stops at the failure. */
  ghost predicate WaveDid(steps: seq<PlannedStep>, rows: seq<StepReceipt>, failed: Option<Failure>, trace: seq<Sent>,
                          runs: seq<Run>)
  {
    && |trace| <= |steps| && (failed.None? ==> |trace| == |steps|)
    && (forall k :: 0 <= k < |trace| ==> IsOf(trace[k], steps[k]))
    && Reports(trace, failed) && RowsTell(steps, rows, trace) && Paired(trace, runs)
    && ((forall k :: 0 <= k < |trace| ==> ReadOnly(steps[k])) || (trace != [] ==> AllFine(trace[..|trace| - 1])))
  }

  /** What follows fine answers is paired with what follows their runs. */
  lemma {:induction false} PairedGrows(a: seq<Sent>, b: seq<Sent>, ra: seq<Run>, rb: seq<Run>)
    requires AllFine(a) && Paired(a, ra) && Paired(b, rb)
    ensures Paired(a + b, ra + rb) && |ra| == |a|
  {
    if a != [] { assert Fine(a[|a| - 1]); }
    hide Fine;
    forall k | 0 <= k < |a + b| && (a + b)[k].reply.Ok?
      ensures k < |ra + rb| && Last((ra + rb)[k]) == (a + b)[k].reply.value
    {
      if k < |a| { assert Last(ra[k]) == a[k].reply.value; } else { assert (a + b)[k] == b[k - |a|]; }
    }
  }

  lemma {:induction false} ReportsOneMore(trace: seq<Sent>, e: Sent)
    requires AllFine(trace)
    ensures Reports(trace + [e], if Fine(e) then None else Some(Failure(e.id, Why(e))))
  {
    var next := trace + [e];
    assert next[..|trace|] == trace;
    hide Fine, Why;
    if !Fine(e) { assert FailsAt(next, |trace|, Failure(e.id, Why(e))); }
  }

  lemma {:induction false} RowsTellOneMore(steps: seq<PlannedStep>, k: nat, rows: seq<StepReceipt>, trace: seq<Sent>,
                                           r: Result<Response>, shot: Option<Shot>)
    requires k < |steps| && |rows| == |trace| == k && RowsTell(steps[..k], rows, trace)
    ensures RowOf(steps[k], r, shot).shot == shot
    ensures RowsTell(steps, rows + [RowOf(steps[k], r, shot)], trace + [Sent(steps[k].id, steps[k].op, r)])
  {
    var row, e := RowOf(steps[k], r, shot), Sent(steps[k].id, steps[k].op, r);
    assert row.shot == shot;
    hide RowOf;
    forall m | 0 <= m < k + 1
      ensures (rows + [row])[m] == RowOf(steps[m], (trace + [e])[m].reply, (rows + [row])[m].shot)
    {
      if m < k { assert rows[m] == RowOf(steps[..k][m], trace[m].reply, rows[m].shot); }
    }
  }

  /** A wave so far without failure, one step on. */
  lemma {:induction false} OneMoreSent(steps: seq<PlannedStep>, k: nat, rows: seq<StepReceipt>, trace: seq<Sent>,
                                       runs: seq<Run>, r: Result<Response>, shot: Option<Shot>, more: seq<Run>)
    requires k < |steps| && |rows| == |trace| == k && WaveDid(steps[..k], rows, None, trace, runs)
    requires Paired([Sent(steps[k].id, steps[k].op, r)], more)
    ensures var e := Sent(steps[k].id, steps[k].op, r);
            var failed := if Fine(e) then None else Some(Failure(e.id, Why(e)));
            && (Fine(e) ==> WaveDid(steps[..k + 1], rows + [RowOf(steps[k], r, shot)], failed, trace + [e],
                runs + more))
            && (!Fine(e) ==> WaveDid(steps, rows + [RowOf(steps[k], r, shot)], failed, trace + [e], runs + more))
  {
    var e := Sent(steps[k].id, steps[k].op, r);
    PairedGrows(trace, [e], runs, more);
    ReportsOneMore(trace, e);
    assert AllFine(trace);
    RowsTellOneMore(steps, k, rows, trace, r, shot);
    assert steps[..k + 1][..k] == steps[..k] && steps[..k + 1][k] == steps[k];
    RowsTellOneMore(steps[..k + 1], k, rows, trace, r, shot);
    assert (trace + [e])[..|trace + [e]| - 1] == trace;
    hide Paired, RowOf, ReadOnly, Reports, RowsTell, AllFine, Fine, Why;
  }

  /** Sends the steps one at a time; stops at the first that is not answered ok. */
  method SequentialWave(client: Client, steps: seq<PlannedStep>, capture: Option<Capture>)
    returns (rows: seq<StepReceipt>, shots: seq<Shot>, failed: Option<Failure>, ghost trace: seq<Sent>,
        ghost runs: seq<Run>)
    modifies client
    ensures client.log == old(client.log) + trace && client.wire == old(client.wire) + runs
    ensures WaveDid(steps, rows, failed, trace, runs) && |rows| == |trace|
    ensures Pictured(capture, steps, rows, shots)
  {
    rows, shots, failed, trace, runs := [], [], None, [], [];
    assert steps[..|steps|] == steps;
    assert WaveDid(steps[..0], rows, None, trace, runs);
    hide WaveDid, Pictured, RowOf, Wanted, Paired;
    for k := 0 to |steps|
      invariant |rows| == |trace| == k
      invariant client.log == old(client.log) + trace && client.wire == old(client.wire) + runs
      invariant WaveDid(steps[..k], rows, None, trace, runs)
      invariant Pictured(capture, steps, rows, shots)
    {
      var s := steps[k];
      var r;
      ghost var more;
      r, more := client.RpcOp(s.id, s.op);
      var shot := TakeShot(client, capture, s);
      OneMorePicture(capture, steps, rows, shots, r, shot);
      if shot.Some? { shots := shots + [shot.value]; }
      Appends(old(client.log), trace, [Sent(s.id, s.op, r)]);
      Appends(old(client.wire), runs, more);
      OneMoreSent(steps, k, rows, trace, runs, r, shot, more);
      trace, runs := trace + [Sent(s.id, s.op, r)], runs + more;
      rows := rows + [RowOf(s, r, shot)];
      match r
      case Err(error) => return rows, shots, Some(Failure(s.id, error)), trace, runs;
      case Ok(resp) =>
        if !resp.ok { return rows, shots, Some(Failure(s.id, Reason(resp))), trace, runs; }
    }
  }

  // ----- a wave either way

  /** The first failing response of a pipeline is the first entry that is not fine. */
  lemma {:induction false} FirstFailureIsFirst(steps: seq<PlannedStep>, rs: seq<Response>)
    requires |steps| == |rs|
    ensures Reports(Answered(IdsIn(steps), OpsIn(steps), Ok(rs)), FirstFailure(steps, rs))
  {
    var trace := Answered(IdsIn(steps), OpsIn(steps), Ok(rs));
    if steps != [] {
      var n := |steps| - 1;
      FirstFailureIsFirst(steps[..n], rs[..n]);
      var front := Answered(IdsIn(steps[..n]), OpsIn(steps[..n]), Ok(rs[..n]));
      assert trace[..n] == front;
      assert trace[n] == Sent(steps[n].id, steps[n].op, Ok(rs[n]));
      assert trace == front + [trace[n]];
      hide Answered, IdsIn, OpsIn;
      FailureStays(front, trace[n], FirstFailure(steps[..n], rs[..n]));
    }
  }

  lemma {:induction false} FailureStays(front: seq<Sent>, e: Sent, failed: Option<Failure>)
    requires Reports(front, failed)
    ensures failed.Some? ==> Reports(front + [e], failed)
    ensures failed.None? ==> Reports(front + [e], if Fine(e) then None else Some(Failure(e.id, Why(e))))
  {
    if failed.Some? {
      var t: nat :| FailsAt(front, t, failed.value);
      assert (front + [e])[..t] == front[..t];
      assert FailsAt(front + [e], t, failed.value);
    } else {
      ReportsOneMore(front, e);
    }
  }

  lemma {:induction false} PipelineDid(steps: seq<PlannedStep>, r: Result<seq<Response>>, rows: seq<StepReceipt>,
                                       failed: Option<Failure>, runs: seq<Run>)
    requires steps != [] && forall s :: s in steps ==> ReadOnly(s)
    requires r.Ok? ==> |r.value| == |steps| && rows == Rows(steps, r.value) && failed == FirstFailure(steps, r.value)
    requires r.Err? ==> failed == Some(Failure(steps[0].id, r.error))
                        && rows == [StepReceipt(steps[0].id, false, Some(r.error), None, None)]
    requires Paired(Answered(IdsIn(steps), OpsIn(steps), r), runs)
    ensures WaveDid(steps, rows, failed, Answered(IdsIn(steps), OpsIn(steps), r), runs)
  {
    var trace := Answered(IdsIn(steps), OpsIn(steps), r);
    assert forall k :: 0 <= k < |trace| ==> IsOf(trace[k], steps[k]);
    hide ReadOnly, Paired, IdsIn, OpsIn, Answered, FirstFailure;
    match r
    case Ok(rs) =>
      FirstFailureIsFirst(steps, rs);
      hide Reports;
    case Err(error) =>
      assert trace[0] == Sent(steps[0].id, steps[0].op, Err(error));
      assert FailsAt(trace, 0, failed.value);
      hide FailsAt;
  }

  method RunWave(client: Client, steps: seq<PlannedStep>, capture: Option<Capture>)
    returns (rows: seq<StepReceipt>, shots: seq<Shot>, failed: Option<Failure>, ghost trace: seq<Sent>,
        ghost runs: seq<Run>)
    requires steps != []
    modifies client
    ensures client.log == old(client.log) + trace && client.wire == old(client.wire) + runs
    ensures WaveDid(steps, rows, failed, trace, runs)
    ensures Pictured(capture, steps, rows, shots)
  {
    if CanPipeline(steps, capture) {
      ghost var r;
      shots := [];
      rows, failed, r, runs := PipelineWave(client, steps);
      trace := Answered(IdsIn(steps), OpsIn(steps), r);
      PipelineDid(steps, r, rows, failed, runs);
      NoPictures(steps, rows);
      hide WaveDid, Paired, Answered, IdsIn, OpsIn, FirstFailure, Pictured;
    } else {
      rows, shots, failed, trace, runs := SequentialWave(client, steps, capture);
      hide WaveDid, Pictured;
    }
  }

  // ----- the plan's shape

  /** The wave ids, end to end, are the planned steps in order, and every need lies in an earlier wave. */
  ghost predicate Shaped(p: Plan)
  {
    && IdsIn(p.steps) == Flatten(p.waves)
    && (forall i, j :: 0 <= i < j < |p.steps| ==> p.steps[i].id != p.steps[j].id)
    && (forall w :: 0 <= w < |p.waves| ==> p.waves[w] != [] && NeedsEarlier(p, w))
    && (p.requiresYes <==> exists s :: s in p.steps && Exit in s.effects)
  }

  predicate NeedsEarlier(p: Plan, w: nat)
    requires w < |p.waves|
  {
    forall s :: s in p.steps && s.id in p.waves[w] ==> forall n :: n in s.needs ==> n in Flatten(p.waves[..w])
  }

  /** `plan.steps.iter().find(|s| s.id == id)`. */
  function Find(steps: seq<PlannedStep>, id: string): Option<PlannedStep>
  {
    if steps == [] then None else if steps[0].id == id then Some(steps[0]) else Find(steps[1..], id)
  }

  lemma {:induction false} FindHits(steps: seq<PlannedStep>, k: nat)
    requires k < |steps| && forall i, j :: 0 <= i < j < |steps| ==> steps[i].id != steps[j].id
    ensures Find(steps, steps[k].id) == Some(steps[k])
  {
    if k > 0 { FindHits(steps[1..], k - 1); }
  }

  /** A wave's slice of the planned steps. */
  method StepsOfWave(p: Plan, wave: seq<string>, ghost start: nat) returns (steps: seq<PlannedStep>)
    requires forall i, j :: 0 <= i < j < |p.steps| ==> p.steps[i].id != p.steps[j].id
    requires start + |wave| <= |p.steps| && forall k :: 0 <= k < |wave| ==> wave[k] == p.steps[start + k].id
    ensures steps == p.steps[start..start + |wave|]
  {
    steps := [];
    for k := 0 to |wave|
      invariant steps == p.steps[start..start + k]
    {
      FindHits(p.steps, start + k);
      match Find(p.steps, wave[k])
      case Some(s) => steps := steps + [s];
      case None =>
        assert false;
    }
  }

  // ----- what a run sends

  ghost predicate EarlierOk(trace: seq<Sent>, t: nat, n: string)
  {
    exists u :: 0 <= u < t && u < |trace| && trace[u].id == n && Fine(trace[u])
  }

  /** Every step is handed to the client at most once, in plan order, only after ok answers for all its needs;
      after a reply that is not fine only Read steps are. */
  ghost predicate Safe(p: Plan, trace: seq<Sent>)
  {
    && |trace| <= |p.steps|
    && (forall t :: 0 <= t < |trace| ==> IsOf(trace[t], p.steps[t]))
    && (forall t, n :: 0 <= t < |trace| && n in p.steps[t].needs ==> EarlierOk(trace, t, n))
    && (forall t, u :: 0 <= t < u < |trace| && !Fine(trace[t]) ==> ReadOnly(p.steps[u]))
  }

  ghost predicate EarlierRan(runs: seq<Run>, t: nat, n: string)
  {
    exists u :: 0 <= u < t && u < |runs| && runs[u].id == n && runs[u].answers != [] && Last(runs[u]).ok
  }

  /** The same on the host's side, whatever was written twice: the steps that ran are the first of the plan, in
      its order, each after its needs had been answered ok; and past a step whose last answer was not ok only
      Read steps ran. */
  ghost predicate SafeOnHost(p: Plan, runs: seq<Run>)
  {
    && |runs| <= |p.steps|
    && (forall t :: 0 <= t < |runs| ==>
          runs[t].id == p.steps[t].id && runs[t].op == p.steps[t].op && runs[t].answers != [])
    && (forall t, n :: 0 <= t < |runs| && n in p.steps[t].needs ==> EarlierRan(runs, t, n))
    && (forall t, u :: 0 <= t < u < |runs| && !Last(runs[t]).ok ==> ReadOnly(p.steps[u]))
  }

  /** What the client is handed safely, the host runs safely, copies and all. */
  lemma {:induction false} ResendingIsSafe(p: Plan, trace: seq<Sent>, runs: seq<Run>)
    requires Safe(p, trace) && Paired(trace, runs)
    ensures SafeOnHost(p, runs)
  {
    forall t, n | 0 <= t < |runs| && n in p.steps[t].needs ensures EarlierRan(runs, t, n) {
      assert EarlierOk(trace, t, n);
      var u :| 0 <= u < t && u < |trace| && trace[u].id == n && Fine(trace[u]);
      assert runs[u].id == n;
    }
    forall t, u | 0 <= t < u < |runs| && !Last(runs[t]).ok ensures ReadOnly(p.steps[u]) {
      assert !Fine(trace[t]);
    }
  }

  lemma {:induction false} FlattenSplit(waves: seq<seq<string>>, w: nat)
    requires w < |waves|
    ensures Flatten(waves[..w + 1]) == Flatten(waves[..w]) + waves[w]
    ensures Flatten(waves[..w + 1]) <= Flatten(waves)
  {
    if w == 0 {
      assert waves[..1][1..] == [] && waves[..0] == [];
      assert waves[..1][0] == waves[0];
    } else {
      FlattenSplit(waves[1..], w - 1);
      assert waves[1..][..w] == waves[..w + 1][1..] && waves[1..][..w - 1] == waves[..w][1..];
      assert waves[1..][w - 1] == waves[w];
      assert waves[0] + (Flatten(waves[1..][..w - 1]) + waves[w]) == waves[0] + Flatten(waves[1..][..w - 1]) + waves[w];
    }
  }

  /** A trace of the first steps that is fine up to `done` and stops by `upto`: at its first failure, unless
      everything from `done` on is Read. */
  ghost predicate StopsInWave(all: seq<PlannedStep>, done: nat, upto: nat, trace: seq<Sent>)
  {
    && done <= |trace| <= upto <= |all|
    && (forall t :: 0 <= t < |trace| ==> IsOf(trace[t], all[t]) && (t < done ==> Fine(trace[t])))
    && ((forall t :: done <= t < |trace| ==> ReadOnly(all[t]))
        || (forall t :: done <= t < |trace| - 1 ==> Fine(trace[t])))
  }

  /** A trace that is fine up to wave `w` and then sends a prefix of wave `w` is safe, if that prefix
      stops at its first failure or is all Read. */
  lemma {:induction false} TraceIsSafe(p: Plan, w: nat, trace: seq<Sent>)
    requires Shaped(p) && w < |p.waves|
    requires StopsInWave(p.steps, |Flatten(p.waves[..w])|, |Flatten(p.waves[..w + 1])|, trace)
    ensures Safe(p, trace)
  {
    FlattenSplit(p.waves, w);
    hide Fine;
    forall t, n | 0 <= t < |trace| && n in p.steps[t].needs ensures EarlierOk(trace, t, n) {
      NeedsSentBefore(p, w, t, n);
      var u :| 0 <= u < t && u < |Flatten(p.waves[..w])| && p.steps[u].id == n;
      assert trace[u].id == n && Fine(trace[u]);
    }
  }

  /** A need of the step at position `t`, up to wave `w`, stands before `t` and before wave `w`. */
  lemma {:induction false} NeedsSentBefore(p: Plan, w: nat, t: nat, n: string)
    requires Shaped(p) && w < |p.waves| && t < |Flatten(p.waves[..w + 1])| <= |p.steps| && n in p.steps[t].needs
    ensures exists u :: 0 <= u < t && u < |Flatten(p.waves[..w])| && p.steps[u].id == n
    decreases w
  {
    FlattenSplit(p.waves, w);
    var done := Flatten(p.waves[..w]);
    var all := Flatten(p.waves);
    assert all[t] == IdsIn(p.steps)[t] == p.steps[t].id;
    if t < |done| {
      assert p.waves[..0] == [];
      FlattenSplit(p.waves, w - 1);
      NeedsSentBefore(p, w - 1, t, n);
    } else {
      assert p.waves[w][t - |done|] == all[t];
      assert p.steps[t] in p.steps && NeedsEarlier(p, w);
      assert n in done;
      var u :| 0 <= u < |done| && done[u] == n;
      assert all[u] == n && IdsIn(p.steps)[u] == p.steps[u].id;
    }
  }

  // ----- run_plan

  /** `done` and then `wave` are the ids of the first steps. */
  predicate InPlace(done: seq<string>, wave: seq<string>, steps: seq<PlannedStep>)
  {
    && |done| + |wave| <= |steps|
    && (forall t :: 0 <= t < |done| ==> done[t] == steps[t].id)
    && forall k :: 0 <= k < |wave| ==> wave[k] == steps[|done| + k].id
  }

  lemma {:induction false} WavePositions(p: Plan, w: nat)
    requires Shaped(p) && w < |p.waves|
    ensures InPlace(Flatten(p.waves[..w]), p.waves[w], p.steps)
  {
    assert IdsIn(p.steps) == Flatten(p.waves);
    hide *;
    FlattenSplit(p.waves, w);
    PrefixReads(Flatten(p.waves[..w]), p.waves[w], p.steps);
  }

  lemma {:induction false} PrefixReads(done: seq<string>, wave: seq<string>, steps: seq<PlannedStep>)
    requires done + wave <= IdsIn(steps)
    ensures InPlace(done, wave, steps)
  {
    var ids := IdsIn(steps);
    hide IdsIn;
    forall k | 0 <= k < |wave| ensures wave[k] == steps[|done| + k].id {
      assert ids[|done| + k] == (done + wave)[|done| + k] == wave[k];
    }
    forall t | 0 <= t < |done| ensures done[t] == steps[t].id {
      assert ids[t] == (done + wave)[t] == done[t];
    }
  }

  /** The part of the plan that wave `w` covers. */
  predicate IsWave(p: Plan, w: nat, steps: seq<PlannedStep>)
    requires w < |p.waves|
  {
    var n := |Flatten(p.waves[..w])|;
    n + |p.waves[w]| <= |p.steps| && steps == p.steps[n..n + |p.waves[w]|]
  }

  /** The first `n` steps of the plan, all answered ok. */
  ghost predicate Clean(p: Plan, n: nat, trace: seq<Sent>, runs: seq<Run>, rows: seq<StepReceipt>)
  {
    && |trace| == |rows| == n <= |p.steps|
    && (forall t :: 0 <= t < n ==> IsOf(trace[t], p.steps[t]))
    && AllFine(trace) && Paired(trace, runs) && RowsTell(p.steps, rows, trace)
  }

  /** What a run does: it hands over steps safely, all of them unless one fails; the failure it reports is the
      first; its rows are those of the replies. */
  ghost predicate Executed(p: Plan, trace: seq<Sent>, runs: seq<Run>, rows: seq<StepReceipt>, failed: Option<Failure>)
  {
    && Safe(p, trace) && Paired(trace, runs) && Reports(trace, failed) && RowsTell(p.steps, rows, trace)
    && (failed.None? ==> |trace| == |p.steps|)
  }

  /** A wave, read after the fine replies of the waves before it. */
  lemma {:induction false} WaveInTrace(p: Plan, n: nat, before: seq<Sent>, ran: seq<Run>, had: seq<StepReceipt>,
                                       steps: seq<PlannedStep>, rows: seq<StepReceipt>, failed: Option<Failure>,
                                       trace: seq<Sent>, runs: seq<Run>)
    requires Clean(p, n, before, ran, had) && n + |steps| <= |p.steps| && steps == p.steps[n..n + |steps|]
    requires WaveDid(steps, rows, failed, trace, runs)
    ensures StopsInWave(p.steps, n, n + |steps|, before + trace)
  {
    var all := before + trace;
    FineAt(before);
    if trace != [] && AllFine(trace[..|trace| - 1]) { FineAt(trace[..|trace| - 1]); }
    hide ReadOnly, Fine, Paired, RowsTell, Reports, AllFine;
    forall t | n <= t < |all| ensures all[t] == trace[t - n] && p.steps[t] == steps[t - n]
        && IsOf(all[t], p.steps[t]) {}
    forall t | 0 <= t < n ensures all[t] == before[t] && IsOf(all[t], p.steps[t]) {}
    if exists k :: 0 <= k < |trace| && !ReadOnly(steps[k]) {
      forall t | n <= t < |all| - 1 ensures Fine(all[t]) { assert all[t] == trace[..|trace| - 1][t - n]; }
    } else {
      forall t | n <= t < |all| ensures ReadOnly(p.steps[t]) { assert ReadOnly(steps[t - n]); }
    }
  }

  lemma {:induction false} FineAt(trace: seq<Sent>)
    requires AllFine(trace)
    ensures forall t :: 0 <= t < |trace| ==> Fine(trace[t])
  {
  }

  lemma {:induction false} RowsJoin(steps: seq<PlannedStep>, n: nat, had: seq<StepReceipt>, before: seq<Sent>,
                                    rows: seq<StepReceipt>, trace: seq<Sent>)
    requires n == |had| == |before| <= |steps| && RowsTell(steps, had, before) && RowsTell(steps[n..], rows, trace)
    ensures RowsTell(steps, had + rows, before + trace)
  {
    var all, both := before + trace, had + rows;
    hide RowOf;
    forall k | 0 <= k < |both| ensures both[k] == RowOf(steps[k], all[k].reply, both[k].shot) {
      if k >= n { assert rows[k - n] == RowOf(steps[n..][k - n], trace[k - n].reply, rows[k - n].shot); }
    }
    if forall t :: 0 <= t < |all| ==> all[t].reply.Ok? {
      assert forall t :: 0 <= t < |trace| ==> trace[t] == all[n + t];
    }
  }

  lemma {:induction false} ReportsJoin(before: seq<Sent>, trace: seq<Sent>, failed: Option<Failure>)
    requires AllFine(before) && Reports(trace, failed)
    ensures Reports(before + trace, failed)
  {
    var all := before + trace;
    hide Fine, Why;
    if failed.Some? {
      var t: nat :| FailsAt(trace, t, failed.value);
      assert all[..|before| + t] == before + trace[..t];
      assert FailsAt(all, |before| + t, failed.value);
    }
  }

  lemma {:induction false} RowsOfSlice(steps: seq<PlannedStep>, more: seq<PlannedStep>, rows: seq<StepReceipt>,
                                       trace: seq<Sent>)
    requires steps <= more && RowsTell(steps, rows, trace)
    ensures RowsTell(more, rows, trace)
  {
    hide RowOf;
  }

  /** A wave joins the run: it stays clean if no step failed. */
  lemma {:induction false} WaveJoins(p: Plan, w: nat, before: seq<Sent>, ran: seq<Run>, had: seq<StepReceipt>,
                                     steps: seq<PlannedStep>, rows: seq<StepReceipt>, failed: Option<Failure>,
                                     trace: seq<Sent>, runs: seq<Run>)
    requires Shaped(p) && w < |p.waves| && IsWave(p, w, steps)
    requires Clean(p, |Flatten(p.waves[..w])|, before, ran, had) && WaveDid(steps, rows, failed, trace, runs)
    ensures Safe(p, before + trace) && Paired(before + trace, ran + runs) && Reports(before + trace, failed)
    ensures RowsTell(p.steps, had + rows, before + trace)
    ensures failed.None? ==> Clean(p, |Flatten(p.waves[..w + 1])|, before + trace, ran + runs, had + rows)
  {
    hide *;
    var n := |Flatten(p.waves[..w])|;
    WaveSpan(p, w, steps);
    CleanParts(p, n, before, ran, had);
    WaveParts(steps, rows, failed, trace, runs);
    WaveInTrace(p, n, before, ran, had, steps, rows, failed, trace, runs);
    PairedGrows(before, trace, ran, runs);
    ReportsJoin(before, trace, failed);
    RowsOfSlice(steps, p.steps[n..], rows, trace);
    RowsJoin(p.steps, n, had, before, rows, trace);
    TraceIsSafe(p, w, before + trace);
    if failed.None? {
      NothingFailed(steps, rows, trace, runs);
      AllFineJoin(before, trace);
      CleanAgain(p, n + |steps|, before + trace, ran + runs, had + rows);
    }
  }

  lemma {:induction false} WaveSpan(p: Plan, w: nat, steps: seq<PlannedStep>)
    requires w < |p.waves| && IsWave(p, w, steps)
    ensures var n := |Flatten(p.waves[..w])|;
            && n + |steps| <= |p.steps| && steps == p.steps[n..n + |steps|] && steps <= p.steps[n..]
            && |Flatten(p.waves[..w + 1])| == n + |steps|
  {
    hide Flatten;
    FlattenSplit(p.waves, w);
  }

  lemma {:induction false} CleanParts(p: Plan, n: nat, trace: seq<Sent>, runs: seq<Run>, rows: seq<StepReceipt>)
    requires Clean(p, n, trace, runs, rows)
    ensures |trace| == |rows| == n <= |p.steps|
    ensures AllFine(trace) && Paired(trace, runs) && RowsTell(p.steps, rows, trace)
  {
    hide AllFine, Paired, RowsTell;
  }

  lemma {:induction false} WaveParts(steps: seq<PlannedStep>, rows: seq<StepReceipt>, failed: Option<Failure>,
                                     trace: seq<Sent>, runs: seq<Run>)
    requires WaveDid(steps, rows, failed, trace, runs)
    ensures Reports(trace, failed) && RowsTell(steps, rows, trace) && Paired(trace, runs)
  {
    hide Paired, RowsTell, Reports;
  }

  lemma {:induction false} NothingFailed(steps: seq<PlannedStep>, rows: seq<StepReceipt>, trace: seq<Sent>,
                                         runs: seq<Run>)
    requires WaveDid(steps, rows, None, trace, runs)
    ensures AllFine(trace) && |rows| == |trace| == |steps|
  {
    hide Paired, ReadOnly, RowOf;
  }

  lemma {:induction false} AllFineJoin(a: seq<Sent>, b: seq<Sent>)
    requires AllFine(a) && AllFine(b)
    ensures AllFine(a + b)
  {
    hide Fine;
  }

  lemma {:induction false} CleanAgain(p: Plan, n: nat, trace: seq<Sent>, runs: seq<Run>, rows: seq<StepReceipt>)
    requires Safe(p, trace) && |trace| == |rows| == n && AllFine(trace) && Paired(trace, runs)
    requires RowsTell(p.steps, rows, trace)
    ensures Clean(p, n, trace, runs, rows)
  {
    hide AllFine, Paired, RowsTell;
  }

  /** Looks up the steps of one wave. */
  method StepsAt(p: Plan, w: nat) returns (steps: seq<PlannedStep>)
    requires Shaped(p) && w < |p.waves|
    ensures IsWave(p, w, steps) && steps != []
  {
    hide Shaped, Flatten;
    ShapedWave(p, w);
    steps := StepsOfWave(p, p.waves[w], |Flatten(p.waves[..w])|);
    WaveSlice(p, w, steps);
  }

  /** Runs one wave of the plan after the first `w` were answered ok. */
  method ExecuteWave(client: Client, p: Plan, w: nat, capture: Option<Capture>, receipt: Receipt,
                     ghost before: seq<Sent>, ghost ran: seq<Run>)
    returns (next: Receipt, failed: Option<Failure>, ghost trace: seq<Sent>, ghost runs: seq<Run>)
    requires Shaped(p) && w < |p.waves| && receipt.ok
    requires Clean(p, |Flatten(p.waves[..w])|, before, ran, receipt.steps)
    requires Pictured(capture, p.steps, receipt.steps, receipt.shots)
    modifies client
    ensures client.log == old(client.log) + trace && client.wire == old(client.wire) + runs
    ensures next == receipt.(steps := next.steps, shots := next.shots, ok := failed.None?)
    ensures Safe(p, before + trace) && Paired(before + trace, ran + runs) && Reports(before + trace, failed)
    ensures RowsTell(p.steps, next.steps, before + trace)
    ensures failed.None? ==> Clean(p, |Flatten(p.waves[..w + 1])|, before + trace, ran + runs, next.steps)
    ensures Pictured(capture, p.steps, next.steps, next.shots)
  {
    assert |receipt.steps| == |Flatten(p.waves[..w])| <= |p.steps|;
    hide *;
    var steps := StepsAt(p, w);
    var rows, shots;
    rows, shots, failed, trace, runs := RunWave(client, steps, capture);
    next := receipt.(steps := receipt.steps + rows, shots := receipt.shots + shots, ok := failed.None?);
    WaveJoins(p, w, before, ran, receipt.steps, steps, rows, failed, trace, runs);
    WavePictures(capture, p, w, steps, receipt.steps, receipt.shots, rows, shots);
  }

  lemma {:induction false} WavePictures(capture: Option<Capture>, p: Plan, w: nat, steps: seq<PlannedStep>,
                                        had: seq<StepReceipt>, taken: seq<Shot>, rows: seq<StepReceipt>,
                                        shots: seq<Shot>)
    requires w < |p.waves| && IsWave(p, w, steps) && |had| == |Flatten(p.waves[..w])| <= |p.steps|
    requires Pictured(capture, p.steps, had, taken) && Pictured(capture, steps, rows, shots)
    ensures Pictured(capture, p.steps, had + rows, taken + shots)
  {
    assert steps <= p.steps[|had|..] by { hide Pictured, Flatten; }
    hide IsWave, Flatten, Pictured;
    PicturesOfSlice(capture, steps, p.steps[|had|..], rows, shots);
    PicturesJoin(capture, p.steps, had, taken, rows, shots);
  }

  lemma {:induction false} ShapedWave(p: Plan, w: nat)
    requires Shaped(p) && w < |p.waves|
    ensures p.waves[w] != []
    ensures forall i, j :: 0 <= i < j < |p.steps| ==> p.steps[i].id != p.steps[j].id
    ensures |Flatten(p.waves[..w])| + |p.waves[w]| <= |p.steps|
    ensures forall k :: 0 <= k < |p.waves[w]| ==> p.waves[w][k] == p.steps[|Flatten(p.waves[..w])| + k].id
  {
    WavePositions(p, w);
  }

  lemma {:induction false} WaveSlice(p: Plan, w: nat, steps: seq<PlannedStep>)
    requires w < |p.waves| && p.waves[w] != []
    requires var n := |Flatten(p.waves[..w])|;
             n + |p.waves[w]| <= |p.steps| && steps == p.steps[n..n + |p.waves[w]|]
    ensures IsWave(p, w, steps) && steps != []
  {
  }

  method Execute(client: Client, p: Plan, yes: bool, capture: Option<Capture>)
    returns (o: Outcome, ghost trace: seq<Sent>, ghost runs: seq<Run>)
    requires Shaped(p)
    modifies client
    ensures client.log == old(client.log) + trace && client.wire == old(client.wire) + runs
    ensures SafeOnHost(p, runs)
    ensures o.NeedsYes? <==> (!yes && exists s :: s in p.steps && Exit in s.effects)
    ensures o.NeedsYes? ==> trace == [] && runs == []
    ensures o.Finished? ==> Executed(p, trace, runs, o.receipt.steps, None) && o.receipt.ok
    ensures o.StepFailed? ==> Executed(p, trace, runs, o.receipt.steps, Some(Failure(o.id, o.error))) && !o.receipt.ok
    ensures !o.NeedsYes? ==> Pictured(capture, p.steps, o.receipt.steps, o.receipt.shots)
    ensures !o.NeedsYes? ==> o.receipt.recipe == p.name && o.receipt.fingerprint == p.fingerprint
  {
    trace, runs := [], [];
    NothingSent(p);
    ShapeListsSteps(p);
    hide *;
    if p.requiresYes && !yes { return NeedsYes, [], []; }
    var receipt := Receipt(true, p.name, p.fingerprint, [], []);
    assert p.waves[..0] == [];
    NothingPictured(capture, p.steps);
    for w := 0 to |p.waves|
      invariant client.log == old(client.log) + trace && client.wire == old(client.wire) + runs
      invariant receipt.ok && receipt.recipe == p.name && receipt.fingerprint == p.fingerprint
      invariant Clean(p, |Flatten(p.waves[..w])|, trace, runs, receipt.steps)
      invariant Pictured(capture, p.steps, receipt.steps, receipt.shots)
    {
      ghost var sent, ran;
      var failed;
      receipt, failed, sent, ran := ExecuteWave(client, p, w, capture, receipt, trace, runs);
      Appends(old(client.log), trace, sent);
      Appends(old(client.wire), runs, ran);
      trace, runs := trace + sent, runs + ran;
      match failed
      case Some(failure) =>
        RanToFailure(p, trace, runs, receipt.steps, failure);
        return StepFailed(failure.id, failure.error, receipt), trace, runs;
      case None =>
    }
    assert p.waves[..|p.waves|] == p.waves;
    RanThrough(p, trace, runs, receipt.steps);
    return Finished(receipt), trace, runs;
  }

  lemma {:induction false} NothingPictured(capture: Option<Capture>, steps: seq<PlannedStep>)
    ensures Pictured(capture, steps, [], [])
  {
  }

  lemma {:induction false} NothingSent(p: Plan)
    ensures SafeOnHost(p, []) && Flatten([]) == [] && Clean(p, 0, [], [], [])
  {
  }

  lemma {:induction false} ShapeListsSteps(p: Plan)
    requires Shaped(p)
    ensures IdsIn(p.steps) == Flatten(p.waves)
    ensures p.requiresYes <==> exists s :: s in p.steps && Exit in s.effects
  {
  }

  lemma {:induction false} RanToFailure(p: Plan, trace: seq<Sent>, runs: seq<Run>, rows: seq<StepReceipt>, f: Failure)
    requires Safe(p, trace) && Paired(trace, runs) && Reports(trace, Some(f)) && RowsTell(p.steps, rows, trace)
    ensures Executed(p, trace, runs, rows, Some(f)) && SafeOnHost(p, runs)
  {
    ResendingIsSafe(p, trace, runs);
    hide Safe, Paired, Reports, RowsTell, SafeOnHost;
  }

  /** A clean trace of every step is safe. */
  lemma {:induction false} RanThrough(p: Plan, trace: seq<Sent>, runs: seq<Run>, rows: seq<StepReceipt>)
    requires Shaped(p) && Clean(p, |Flatten(p.waves)|, trace, runs, rows)
    ensures Executed(p, trace, runs, rows, None) && SafeOnHost(p, runs)
  {
    assert |trace| == |Flatten(p.waves)| == |IdsIn(p.steps)| == |p.steps|;
    if p.waves != [] {
      var w := |p.waves| - 1;
      assert p.waves[..w + 1] == p.waves;
      assert StopsInWave(p.steps, |Flatten(p.waves[..w])|, |Flatten(p.waves)|, trace) by {
        FineAt(trace);
        hide *;
        FlattenSplit(p.waves, w);
      }
      hide StopsInWave, Shaped, Flatten;
      TraceIsSafe(p, w, trace);
    }
    assert Safe(p, trace);
    hide Shaped, Flatten, Safe, SafeOnHost, RowOf;
    ResendingIsSafe(p, trace, runs);
  }
}
