/** The UI thread's request drain: mailbox, backlog, one keybinding fire or one scrolled capture in flight. */
module UiDrain {
  import opened Ordering

  const MAX_MAILBOX_DEPTH: nat := 128
  const METRICS_WAIT_FRAMES: nat := 90

  /** What the drain looks at in a request; `quits` marks a shutdown or a confirmed quit. */
  datatype Kind = Keybinding | Scrolled | Plain

  datatype Request = Request(id: string, kind: Kind, quits: bool)

  datatype Answer = Answer(id: string, ok: bool)

  datatype Reply = Reply(request: Request, answer: Answer)

  datatype Fire = Fire(request: Request, binding: string)

  /** Effects the framework runs after the current callback, in order. */
  datatype Effect = RunAction(binding: string) | FinishFire

  datatype Phase = WaitMetrics | WaitPaint

  /** `tiles` are the planned scroll offsets; `original` is what a finish scrolls back to. */
  datatype Job = Job(request: Request, original: real, tiles: seq<real>, next: nat, captured: nat,
                     measured: bool, phase: Phase, frames: nat, awaitingPaint: bool)

  function Clamp(y: real): real { if y < 0.0 then 0.0 else y }

  /** What a job in flight looks like between frames. */
  predicate JobSound(j: Job)
  {
    && j.captured == j.next
    && (j.phase.WaitMetrics? ==> j.frames < METRICS_WAIT_FRAMES && j.next == 0 && !j.measured && !j.awaitingPaint)
    && (j.phase.WaitPaint? ==> && j.measured && j.next < |j.tiles|
                               && j.frames <= METRICS_WAIT_FRAMES + 2 * j.next + if j.awaitingPaint then 0 else 1)
  }

  function Stage(j: Job): nat { if j.phase.WaitMetrics? then 1 else 0 }

  function Left(j: Job): int
  {
    if j.phase.WaitMetrics? then METRICS_WAIT_FRAMES - j.frames
    else 2 * (|j.tiles| - j.next) + if j.awaitingPaint then 1 else 0
  }

  /** `j` is closer to its end than `k`. */
  predicate Sooner(j: Job, k: Job) { Stage(j) < Stage(k) || (Stage(j) == Stage(k) && Left(j) < Left(k)) }

  /** What a frame meets: whether the list is painted, what planning its tiles gives, whether a tile is
      captured and cropped, and whether the stitched picture is written. */
  datatype Glance = Glance(painted: bool, plan: Result<seq<real>>, captured: bool, written: bool)

  /** A frame leaves the job in flight, or ends it with an answer; `scroll` is the list's offset after it. */
  datatype Tick = Continues(job: Job, scroll: real) | Ends(ok: bool, scroll: real)

  /** A job starts from the offset read back, which is never negative, or from 0 while the list is not painted. */
  function StartOf(r: Request, scroll: real, painted: bool): Job
  {
    Job(r, if painted then Clamp(scroll) else 0.0, [], 0, 0, false, WaitMetrics, 0, false)
  }

  /** One frame of a job, on a list at offset `scroll`. */
  function JobFrame(j: Job, scroll: real, g: Glance): Tick
  {
    var k := j.(frames := j.frames + 1);
    match j.phase
    case WaitMetrics =>
      if !g.painted then
        if k.frames < METRICS_WAIT_FRAMES then Continues(k, scroll) else Ends(false, j.original)
      else (
        match g.plan
        case Err(_) => Ends(false, j.original)
        case Ok(tiles) =>
          var ready := k.(original := Clamp(scroll), measured := true, tiles := tiles, next := 0);
          if tiles == [] then Ends(false, ready.original)
          else Continues(ready.(phase := WaitPaint, awaitingPaint := true), tiles[0])
      )
    case WaitPaint =>
      if j.awaitingPaint then Continues(k.(awaitingPaint := false), scroll)
      else if !g.captured then Ends(false, j.original)
      else if j.next + 1 >= |j.tiles| then Ends(g.written, j.original)
      else Continues(k.(captured := j.captured + 1, next := j.next + 1, awaitingPaint := true), j.tiles[j.next + 1])
  }

  /** A frame keeps a sound job sound and brings it closer to its end, with the next tile in view; the job
      ends within 90 frames and two for each tile, and ends well only after its last tile. */
  lemma {:induction false} FrameAdvances(j: Job, scroll: real, g: Glance)
    requires JobSound(j)
    ensures var t := JobFrame(j, scroll, g);
            match t
            case Continues(k, y) =>
              && k.request == j.request && JobSound(k) && Sooner(k, j)
              && (k.awaitingPaint ==> y == k.tiles[k.next])
              && (!k.awaitingPaint ==> y == scroll)
            case Ends(ok, y) =>
              && j.frames + 1 <= METRICS_WAIT_FRAMES + 2 * |j.tiles|
              && (ok ==> j.phase.WaitPaint? && j.captured + 1 == |j.tiles|)
  {
  }

  /** When the metrics were read in a job's last frame, it scrolls back to the offset they were read at if and
      only if planning its tiles succeeded, or the offset recorded at the start was already that one. */
  lemma {:induction false} RestoresWhatItRead(j: Job, scroll: real, g: Glance)
    requires j.phase.WaitMetrics? && g.painted && JobFrame(j, scroll, g).Ends?
    ensures JobFrame(j, scroll, g).scroll == Clamp(scroll) <==> g.plan.Ok? || j.original == Clamp(scroll)
  {
    match g.plan
    case Ok(_) =>
    case Err(_) =>
  }

  /** The frames of a job while nobody else scrolls the list. */
  function JobRun(j: Job, scroll: real, gs: seq<Glance>): Tick
    decreases gs
  {
    if gs == [] then Continues(j, scroll)
    else
      match JobFrame(j, scroll, gs[0])
      case Continues(k, y) => JobRun(k, y, gs[1..])
      case Ends(ok, y) => Ends(ok, y)
  }

  /** Whether the job's metrics were read and its tiles planned: the first frame that found the list painted,
      before the 90th, decides. */
  predicate Planned(gs: seq<Glance>, frames: nat)
    decreases gs
  {
    gs != [] &&
    if gs[0].painted then gs[0].plan.Ok? else frames + 1 < METRICS_WAIT_FRAMES && Planned(gs[1..], frames + 1)
  }

  lemma {:induction false} PaintingKeepsOriginal(j: Job, scroll: real, gs: seq<Glance>)
    requires j.phase.WaitPaint? && JobRun(j, scroll, gs).Ends?
    ensures JobRun(j, scroll, gs).scroll == j.original
    decreases gs
  {
    if JobFrame(j, scroll, gs[0]).Continues? {
      var t := JobFrame(j, scroll, gs[0]);
      PaintingKeepsOriginal(t.job, t.scroll, gs[1..]);
    }
  }

  lemma {:induction false} RunRestores(j: Job, scroll: real, gs: seq<Glance>)
    requires j.phase.WaitMetrics? && j.frames < METRICS_WAIT_FRAMES && JobRun(j, scroll, gs).Ends?
    ensures JobRun(j, scroll, gs).scroll == if Planned(gs, j.frames) then Clamp(scroll) else j.original
    decreases gs
  {
    var t := JobFrame(j, scroll, gs[0]);
    if t.Continues? {
      if gs[0].painted {
        PaintingKeepsOriginal(t.job, t.scroll, gs[1..]);
      } else {
        RunRestores(t.job, t.scroll, gs[1..]);
      }
    }
  }

  /** A capture that ends leaves the list where it found it if and only if the list was painted when the capture
      started, or its tiles were planned later, or it stood at the top. */
  lemma {:induction false} CaptureRestores(r: Request, scroll: real, painted: bool, gs: seq<Glance>)
    requires JobRun(StartOf(r, scroll, painted), scroll, gs).Ends?
    ensures JobRun(StartOf(r, scroll, painted), scroll, gs).scroll == Clamp(scroll) <==>
              painted || Planned(gs, 0) || Clamp(scroll) == 0.0
  {
    RunRestores(StartOf(r, scroll, painted), scroll, gs);
  }

  /** Not painted at the start, then painted at offset 40 with tiles that cannot be planned: the list ends at the
      top. */
  lemma {:induction false} UnpaintedStartLosesItsPlace(r: Request, why: string)
    ensures JobRun(StartOf(r, 40.0, false), 40.0, [Glance(true, Err(why), true, true)]) == Ends(false, 0.0)
  {
    var j, g := StartOf(r, 40.0, false), Glance(true, Err(why), true, true);
    assert [g][0] == g && JobFrame(j, 40.0, g) == Ends(false, 0.0);
  }

  /** `n` tiles are shot: a frame to paint, then a frame that captures, for each of them, and the last one also writes
      the picture. */
  predicate Shoots(gs: seq<Glance>, n: nat)
    decreases n
  {
    n == 0 || (|gs| >= 2 && gs[1].captured && if n == 1 then gs[1].written else Shoots(gs[2..], n - 1))
  }

  /** The first frame that finds the list painted, before the 90th, plans some tiles, and all of them are shot. */
  predicate Captures(gs: seq<Glance>, frames: nat)
    decreases gs
  {
    gs != [] &&
    if gs[0].painted then gs[0].plan.Ok? && gs[0].plan.value != [] && Shoots(gs[1..], |gs[0].plan.value|)
    else frames + 1 < METRICS_WAIT_FRAMES && Captures(gs[1..], frames + 1)
  }

  /** The tiles planned by the first frame that finds the list painted. */
  function TilesOf(gs: seq<Glance>): seq<real>
  {
    if gs == [] then []
    else if !gs[0].painted then TilesOf(gs[1..])
    else if gs[0].plan.Ok? then gs[0].plan.value else []
  }

  /** Where the list stood in each frame that took a picture of it. */
  function Shots(j: Job, scroll: real, gs: seq<Glance>): seq<real>
    decreases gs
  {
    if gs == [] then []
    else
      (if j.phase.WaitPaint? && !j.awaitingPaint then [scroll] else []) +
      match JobFrame(j, scroll, gs[0])
      case Continues(k, y) => Shots(k, y, gs[1..])
      case Ends(_, _) => []
  }

  /** The job has ended, and well. */
  predicate EndsWell(t: Tick) { t.Ends? && t.ok }

  lemma {:induction false} PaintedJobShoots(j: Job, gs: seq<Glance>)
    requires j.phase.WaitPaint? && j.awaitingPaint && j.next < |j.tiles|
    ensures var t := JobRun(j, j.tiles[j.next], gs);
            && (EndsWell(t) <==> Shoots(gs, |j.tiles| - j.next))
            && (EndsWell(t) ==> Shots(j, j.tiles[j.next], gs) == j.tiles[j.next..])
    decreases |gs|
  {
    if |gs| >= 2 {
      var k := j.(frames := j.frames + 1, awaitingPaint := false);
      assert JobFrame(j, j.tiles[j.next], gs[0]) == Continues(k, j.tiles[j.next]);
      assert gs[1..][0] == gs[1] && gs[1..][1..] == gs[2..];
      if gs[1].captured && j.next + 1 < |j.tiles| {
        var t := JobFrame(k, j.tiles[j.next], gs[1]);
        PaintedJobShoots(t.job, gs[2..]);
      }
    }
  }

  lemma {:induction false} JobShoots(j: Job, scroll: real, gs: seq<Glance>)
    requires j.phase.WaitMetrics?
    ensures var t := JobRun(j, scroll, gs);
            && (EndsWell(t) <==> Captures(gs, j.frames))
            && (EndsWell(t) ==> Shots(j, scroll, gs) == TilesOf(gs))
    decreases |gs|
  {
    if gs != [] && JobFrame(j, scroll, gs[0]).Continues? {
      var t := JobFrame(j, scroll, gs[0]);
      if gs[0].painted {
        PaintedJobShoots(t.job, gs[1..]);
      } else {
        JobShoots(t.job, scroll, gs[1..]);
      }
    }
  }

  /** A capture ends well if and only if its tiles were planned in time and every one was captured after a frame to
      paint; and then the list stood at the planned offsets, in order, when its pictures were taken. */
  lemma {:induction false} CaptureShootsThePlan(r: Request, scroll: real, painted: bool, gs: seq<Glance>)
    ensures var j := StartOf(r, scroll, painted);
            && (EndsWell(JobRun(j, scroll, gs)) <==> Captures(gs, 0))
            && (EndsWell(JobRun(j, scroll, gs)) ==> Shots(j, scroll, gs) == TilesOf(gs))
  {
    JobShoots(StartOf(r, scroll, painted), scroll, gs);
  }

  function Requests(replies: seq<Reply>): (r: seq<Request>)
    ensures |r| == |replies|
  {
    if replies == [] then [] else Requests(replies[..|replies| - 1]) + [replies[|replies| - 1].request]
  }

  lemma {:induction false} RequestsGrow(replies: seq<Reply>, r: Reply)
    ensures Requests(replies + [r]) == Requests(replies) + [r.request]
  {
    assert (replies + [r])[..|replies|] == replies;
  }

  class Ui {
    var mailbox: seq<Request>
    var backlog: seq<Request>
    var pending: Option<Fire>
    var lastResult: Option<(string, bool)>
    var job: Option<Job>
    var effects: seq<Effect>
    var scroll: real
    var quitting: bool
    ghost var accepted: seq<Request>
    ghost var replied: seq<Reply>

    ghost function InFlight(): seq<Request>
      reads this
    {
      (if pending.Some? then [pending.value.request] else []) + (if job.Some? then [job.value.request] else [])
    }

    ghost predicate Bookkeeping()
      reads this
    {
      && |mailbox| <= MAX_MAILBOX_DEPTH
      && (forall r :: r in replied ==> r.answer.id == r.request.id)
      && (quitting ==> exists r :: r in replied && r.request.quits)
    }

    /** Accepted requests are answered, in flight, in the backlog or in the mailbox, in arrival order; at
        most one is in flight; and the queued effects are those of the fire in flight. */
    ghost predicate Valid()
      reads this
    {
      && Bookkeeping()
      && accepted == Requests(replied) + InFlight() + backlog + mailbox
      && !(pending.Some? && job.Some?)
      && (job.Some? ==> JobSound(job.value))
      && (if pending.Some? then effects == [RunAction(pending.value.binding), FinishFire] || effects == [FinishFire]
          else effects == [])
    }

    /** The same with `r` taken out of the backlog and nothing in flight. */
    ghost predicate Holding(r: Request)
      reads this
    {
      && Bookkeeping()
      && accepted == Requests(replied) + [r] + backlog + mailbox
      && pending.None? && job.None? && effects == []
    }

    constructor ()
      ensures Valid() && accepted == [] && replied == [] && !quitting
    {
      mailbox, backlog, pending, lastResult, job := [], [], None, None, None;
      effects, scroll, quitting := [], 0.0, false;
      accepted, replied := [], [];
    }

    /** A full mailbox answers at once and keeps nothing. */
    method Push(r: Request) returns (bounced: Option<Answer>)
      requires Valid()
      modifies this`mailbox, this`accepted
      ensures Valid()
      ensures bounced.Some? <==> |old(mailbox)| >= MAX_MAILBOX_DEPTH
      ensures bounced.Some? ==>
                mailbox == old(mailbox) && accepted == old(accepted) && bounced.value == Answer(r.id, false)
      ensures bounced.None? ==> accepted == old(accepted) + [r]
    {
      if |mailbox| >= MAX_MAILBOX_DEPTH { return Some(Answer(r.id, false)); }
      bounced := None;
      mailbox := mailbox + [r];
      accepted := accepted + [r];
    }

    /** Consumes the request: it cannot be answered twice. */
    method Send(r: Request, ok: bool)
      requires Holding(r)
      modifies this`replied
      ensures Valid() && replied == old(replied) + [Reply(r, Answer(r.id, ok))]
    {
      RequestsGrow(replied, Reply(r, Answer(r.id, ok)));
      replied := replied + [Reply(r, Answer(r.id, ok))];
    }

    // ----- keybinding fires

    /** Records the fire before dispatching it. The action runs later, or inside the call when it is global and
        the window has no focus; the finish runs after it either way. */
    method StartFire(r: Request) returns (deferred: bool)
      requires Holding(r)
      modifies this`replied, this`pending, this`lastResult, this`effects
      ensures Valid() && deferred == pending.Some?
      ensures deferred ==> replied == old(replied) && pending.value.request == r
      ensures deferred ==>
                || (effects == [RunAction(pending.value.binding), FinishFire] && lastResult == None)
                || (effects == [FinishFire] && (lastResult.Some? ==> lastResult.value.0 == pending.value.binding))
      ensures !deferred ==> replied == old(replied) + [Reply(r, Answer(r.id, false))]
    {
      var authorized: Option<string>, inside: bool := *, *;
      match authorized
      case None =>
        Send(r, false);
        deferred := false;
      case Some(binding) =>
        lastResult := None;
        pending := Some(Fire(r, binding));
        if inside {
          var handled: bool, ok: bool := *, *;
          if handled { lastResult := Some((binding, ok)); }
        } else {
          effects := effects + [RunAction(binding)];
        }
        effects := effects + [FinishFire];
        deferred := true;
    }

    /** A listener's body ran: for the agent's action, or because the user pressed a key. */
    method Listen(binding: string, ok: bool)
      requires Valid()
      modifies this`lastResult
      ensures Valid() && lastResult == Some((binding, ok))
    {
      lastResult := Some((binding, ok));
    }

    /** The queued finish answers with what the listener of its own binding recorded, if any. */
    method FinishPending()
      requires Bookkeeping() && accepted == Requests(replied) + InFlight() + backlog + mailbox
      requires pending.Some? && job.None? && effects == []
      modifies this`pending, this`lastResult, this`replied, this`quitting
      ensures Valid() && pending.None?
      ensures replied == old(replied) + [Reply(old(pending).value.request,
                Answer(old(pending).value.request.id, old(lastResult) == Some((old(pending).value.binding, true))))]
    {
      var fire := pending.value;
      pending := None;
      var listener := lastResult;
      lastResult := None;
      var ok := listener.Some? && listener.value.0 == fire.binding && listener.value.1;
      Send(fire.request, ok);
      var down: bool := *;
      if fire.request.quits && down {
        assert Reply(fire.request, Answer(fire.request.id, ok)) in replied;
        quitting := true;
      }
    }

    /** Runs the first queued effect: it belongs to the fire in flight. */
    method RunEffect()
      requires Valid() && effects != []
      modifies this
      ensures Valid() && mailbox == old(mailbox) && backlog == old(backlog) && accepted == old(accepted)
      ensures |effects| == |old(effects)| - 1
      ensures old(effects)[0].FinishFire? ==>
                var fire := old(pending).value;
                && pending.None?
                && replied == old(replied) + [Reply(fire.request,
                    Answer(fire.request.id, old(lastResult) == Some((fire.binding, true))))]
      ensures old(effects)[0].RunAction? ==>
                && replied == old(replied) && pending == old(pending)
                && (lastResult == old(lastResult)
                    || (lastResult.Some? && lastResult.value.0 == old(effects)[0].binding))
    {
      var first := effects[0];
      effects := effects[1..];
      match first
      case RunAction(binding) =>
        var handled: bool, ok: bool := *, *;
        if handled { Listen(binding, ok); }
      case FinishFire => FinishPending();
    }

    /** One more answer, and it is to `r`. */
    ghost predicate Answers(r: Request, before: seq<Reply>)
      reads this
    {
      |replied| == |before| + 1 && replied[..|before|] == before && replied[|before|].request == r
    }

    // ----- scrolled captures

    /** The offset read back is never negative; `None` while the list is not painted. */
    method Metrics(painted: bool) returns (offset: Option<real>)
      ensures offset == if painted then Some(Clamp(scroll)) else None
    {
      offset := if painted then Some(Clamp(scroll)) else None;
    }

    method StartScrolled(r: Request, allowed: bool, painted: bool)
      requires Holding(r)
      modifies this`replied, this`job
      ensures Valid() && pending.None? && job == if allowed then Some(StartOf(r, scroll, painted)) else None
      ensures replied == if allowed then old(replied) else old(replied) + [Reply(r, Answer(r.id, false))]
    {
      if !allowed {
        Send(r, false);
        return;
      }
      var offset := Metrics(painted);
      job := Some(Job(r, if offset.Some? then offset.value else 0.0, [], 0, 0, false, WaitMetrics, 0, false));
    }

    method FinishJob(j: Job, ok: bool)
      requires Holding(j.request)
      modifies this`replied, this`scroll
      ensures Valid() && scroll == j.original
      ensures replied == old(replied) + [Reply(j.request, Answer(j.request.id, ok))]
    {
      scroll := j.original;
      Send(j.request, ok);
    }

    /** What a frame of job `j` leaves behind. */
    ghost predicate Ticked(t: Tick, r: Request, before: seq<Reply>)
      reads this
    {
      match t
      case Continues(k, y) => job == Some(k) && scroll == y && replied == before
      case Ends(ok, y) => job == None && scroll == y && replied == before + [Reply(r, Answer(r.id, ok))]
    }

    /** One frame of a capture: at most one answer, one tile or one paint. */
    method Advance(g: Glance)
      requires Valid() && job.Some?
      modifies this`job, this`scroll, this`replied
      ensures Valid() && Ticked(JobFrame(old(job).value, old(scroll), g), old(job).value.request, old(replied))
    {
      var j := job.value;
      FrameAdvances(j, scroll, g);
      job := None;
      match j.phase
      case WaitMetrics => AdvanceMetrics(j.(frames := j.frames + 1), g);
      case WaitPaint => AdvancePaint(j.(frames := j.frames + 1), g);
    }

    method AdvanceMetrics(j: Job, g: Glance)
      requires j.frames > 0 && Holding(j.request) && JobSound(j.(frames := j.frames - 1)) && j.phase.WaitMetrics?
      modifies this`job, this`scroll, this`replied
      ensures Valid() && Ticked(JobFrame(j.(frames := j.frames - 1), old(scroll), g), j.request, old(replied))
    {
      var offset := Metrics(g.painted);
      match offset
      case None =>
        if j.frames < METRICS_WAIT_FRAMES { job := Some(j); } else { FinishJob(j, false); }
      case Some(y) =>
        match g.plan
        case Err(_) => FinishJob(j, false);
        case Ok(tiles) =>
          var ready := j.(original := y, measured := true, tiles := tiles, next := 0);
          if tiles == [] {
            FinishJob(ready, false);
          } else {
            scroll := tiles[0];
            job := Some(ready.(phase := WaitPaint, awaitingPaint := true));
          }
    }

    method AdvancePaint(j: Job, g: Glance)
      requires j.frames > 0 && Holding(j.request) && JobSound(j.(frames := j.frames - 1)) && j.phase.WaitPaint?
      modifies this`job, this`scroll, this`replied
      ensures Valid() && Ticked(JobFrame(j.(frames := j.frames - 1), old(scroll), g), j.request, old(replied))
    {
      if j.awaitingPaint {
        job := Some(j.(awaitingPaint := false));
        return;
      }
      if !j.measured { assert false; }
      if !g.captured {
        FinishJob(j, false);
        return;
      }
      var n := j.(captured := j.captured + 1, next := j.next + 1);
      if n.next >= |n.tiles| {
        FinishJob(n, g.written);
        return;
      }
      scroll := n.tiles[n.next];
      job := Some(n.(awaitingPaint := true));
    }

    // ----- the drain

    ghost function Waiting(): nat
      reads this
    {
      |backlog| + |mailbox|
    }

    /** Moves the whole mailbox to the back of the backlog. */
    method Collect()
      requires Valid()
      modifies this`backlog, this`mailbox
      ensures Valid() && mailbox == [] && Waiting() == old(Waiting())
    {
      ghost var before := Requests(replied) + InFlight();
      assert before + backlog + mailbox == before + (backlog + mailbox) + [];
      backlog := backlog + mailbox;
      mailbox := [];
    }

    /** One frame: takes the mailbox, then moves the job on, waits for the fire, or drains the backlog until
        something has to be deferred. */
    method Frame() returns (ghost seen: Glance)
      requires Valid()
      modifies this
      ensures Valid() && accepted == old(accepted) && mailbox == []
      ensures old(pending).Some? ==> replied == old(replied) && pending == old(pending)
      ensures old(job).Some? ==>
                Ticked(JobFrame(old(job).value, old(scroll), seen), old(job).value.request, old(replied))
      ensures pending.None? && job.None? && old(job).None? ==> backlog == [] || |replied| > |old(replied)|
      ensures old(pending).None? && (old(job).Some? || old(Waiting()) > 0) ==>
                || |replied| > |old(replied)|
                || (replied == old(replied) && Waiting() < old(Waiting()))
                || (replied == old(replied) && Waiting() == old(Waiting()) && effects == []
                    && job.Some? && old(job).Some? && Sooner(job.value, old(job).value))
    {
      Collect();
      if job.Some? {
        var g: Glance := *;
        seen := g;
        FrameAdvances(job.value, scroll, g);
        hide JobSound, JobFrame, Sooner, Requests, Ui.Bookkeeping;
        Advance(g);
        return;
      }
      hide JobSound, Sooner, Requests;
      seen := *;
      if pending.None? { Drain(); }
    }

    /** Pops the backlog until it is empty, a fire is in flight, or a capture was asked for. */
    method Drain()
      requires Valid() && pending.None? && job.None? && mailbox == []
      modifies this`backlog, this`pending, this`job, this`lastResult, this`effects, this`replied, this`quitting
      ensures Valid() && |replied| >= |old(replied)|
      ensures |replied| == |old(replied)| ==>
                replied == old(replied) && (old(backlog) == [] || |backlog| < |old(backlog)|)
      ensures pending.None? && job.None? ==> backlog == [] || |replied| > |old(replied)|
    {
      while backlog != []
        invariant Valid() && pending.None? && job.None? && |replied| >= |old(replied)|
        invariant |replied| == |old(replied)| ==> replied == old(replied) && backlog == old(backlog)
        decreases |backlog|
      {
        var r := backlog[0];
        backlog := backlog[1..];
        match r.kind
        case Keybinding =>
          var deferred := StartFire(r);
          if deferred { return; }
        case Scrolled =>
          var allowed: bool, painted: bool := *, *;
          StartScrolled(r, allowed, painted);
          return;
        case Plain => Serve(r);
      }
    }

    /** Requests answered at once; a shutdown quits after its reply. */
    method Serve(r: Request)
      requires Holding(r)
      modifies this`replied, this`quitting
      ensures Valid() && Answers(r, old(replied)) && pending.None? && job.None?
      ensures quitting <==> old(quitting) || r.quits
    {
      var ok: bool := *;
      Send(r, ok);
      if r.quits {
        assert Reply(r, Answer(r.id, ok)) in replied;
        quitting := true;
      }
    }

    /** With frames and effects running, everything accepted is answered, once and in arrival order. */
    method Settle()
      requires Valid()
      modifies this
      ensures Valid() && accepted == old(accepted) && Requests(replied) == accepted
    {
      hide JobFrame, Requests, Ui.Bookkeeping, Ui.Ticked;
      while pending.Some? || job.Some? || backlog != [] || mailbox != []
        invariant Valid() && accepted == old(accepted)
        decreases |accepted| - |replied|, |backlog| + |mailbox|, |effects|,
                  if job.Some? then Stage(job.value) else 0, if job.Some? then Left(job.value) else 0
      {
        if effects != [] { RunEffect(); } else { var _ := Frame(); }
      }
    }
  }
}
