/** The bounded event ring against an unbounded log, and the pollers that read it. */
module EventStream {
  import opened Ordering
  import opened Protocol

  datatype Level = Trace | Debug | Info | Warn | Error

  datatype Event = Event(seqNo: nat, level: Level, source: string, message: string)

  datatype Poll = Poll(events: seq<Event>, latest: nat, lagged: bool)

  function Min(a: nat, b: nat): nat { if a < b then a else b }

  function Max(a: nat, b: nat): nat { if a < b then b else a }

  /** How many of `n` pushed events a ring of this capacity has evicted. */
  function Dropped(n: nat, capacity: nat): nat { if n > capacity then n - capacity else 0 }

  /** Sequence numbers count the log from one. */
  predicate Numbered(log: seq<Event>)
  {
    forall i :: 0 <= i < |log| ==> log[i].seqNo == i + 1
  }

  /** A poll read off the unbounded log: the oldest retained events newer than the cursor. */
  function PageOf(log: seq<Event>, capacity: nat, since: Option<nat>, limit: nat): Poll
  {
    var dropped := Dropped(|log|, capacity);
    var from := Max(dropped, if since.Some? then since.value else 0);
    var upto := Min(|log|, from + Min(limit, Max(capacity, 1)));
    Poll(if from <= upto then log[from..upto] else [], |log|, since.Some? && (since.value + 1) % U64 < dropped + 1)
  }

  /** What a page of `page` events holds after reading the log up to `upto`. */
  function Taken(log: seq<Event>, dropped: nat, since: Option<nat>, page: nat, upto: nat): seq<Event>
    requires upto <= |log|
  {
    var from := Max(dropped, if since.Some? then since.value else 0);
    if from <= Min(upto, from + page) then log[from..Min(upto, from + page)] else []
  }

  lemma {:induction false} TakeOne(log: seq<Event>, dropped: nat, since: Option<nat>, page: nat, at: nat)
    requires Numbered(log) && dropped <= at < |log|
    ensures var taken := Taken(log, dropped, since, page, at);
            Taken(log, dropped, since, page, at + 1) ==
              if (since.None? || log[at].seqNo > since.value) && |taken| < page then taken + [log[at]] else taken
  {
  }

  lemma {:induction false} TakenWhole(log: seq<Event>, capacity: nat, since: Option<nat>, limit: nat)
    ensures var dropped, page := Dropped(|log|, capacity), Min(limit, Max(capacity, 1));
            && Taken(log, dropped, since, page, dropped) == []
            && PageOf(log, capacity, since, limit) ==
                 Poll(Taken(log, dropped, since, page, |log|), |log|,
                      since.Some? && (since.value + 1) % U64 < dropped + 1)
  {
    var dropped := Dropped(|log|, capacity);
    assert log[dropped..dropped] == [];
  }

  class EventRing {
    const capacity: nat
    var next: nat
    var buf: seq<Event>
    ghost var log: seq<Event>

    /** The buffer is the last min(capacity, pushed) events of the log. */
    ghost predicate Valid()
      reads this
    {
      next == |log| + 1 < U64 && Numbered(log) && buf == log[Dropped(|log|, capacity)..]
    }

    constructor (capacity: nat)
      ensures Valid() && this.capacity == capacity && log == []
    {
      this.capacity := capacity;
      next, buf, log := 1, [], [];
    }

    method Push(level: Level, source: string, message: string) returns (seqNo: nat)
      requires Valid() && next + 1 < U64
      modifies this
      ensures Valid() && seqNo == |log| && log == old(log) + [Event(seqNo, level, source, message)]
    {
      seqNo := next;
      next := next + 1;
      if capacity > 0 && |buf| == capacity { buf := buf[1..]; }
      var event := Event(seqNo, level, source, message);
      if capacity > 0 { buf := buf + [event]; }
      log := log + [event];
    }

    method Since(since: Option<nat>, limit: nat) returns (poll: Poll)
      requires Valid() && (since.Some? ==> since.value < U64)
      ensures poll == PageOf(log, capacity, since, limit)
    {
      var page := Min(limit, Max(capacity, 1));
      var base := next - |buf|;
      ghost var dropped := Dropped(|log|, capacity);
      assert base == dropped + 1;
      TakenWhole(log, capacity, since, limit);
      var retained := buf;
      ghost var all := log;
      assert |retained| == |all| - dropped && retained == all[dropped..];
      var events := Page(retained, since, page, all, dropped);
      poll := Poll(events, next - 1, since.Some? && (since.value + 1) % U64 < base);
    }

    /** Filters by the cursor and stops at the page size. */
    static method Page(retained: seq<Event>, since: Option<nat>, page: nat, ghost all: seq<Event>, ghost dropped: nat)
      returns (events: seq<Event>)
      requires Numbered(all) && dropped <= |all| && retained == all[dropped..]
      requires Taken(all, dropped, since, page, dropped) == []
      ensures events == Taken(all, dropped, since, page, |all|)
    {
      hide Taken, Numbered;
      events := [];
      for i := 0 to |retained|
        invariant events == Taken(all, dropped, since, page, dropped + i)
      {
        TakeOne(all, dropped, since, page, dropped + i);
        if (since.None? || retained[i].seqNo > since.value) && |events| < page { events := events + [retained[i]]; }
      }
    }

    method Latest() returns (n: nat)
      requires Valid()
      ensures n == |log|
    {
      n := next - 1;
    }
  }

  // ----- what a poll means

  /** An event newer than the cursor has been evicted. */
  ghost predicate LostNewer(log: seq<Event>, capacity: nat, since: Option<nat>)
  {
    since.Some? && exists e :: e in log && e.seqNo > since.value && e !in log[Dropped(|log|, capacity)..]
  }

  lemma {:induction false} LostNewerIsBehind(log: seq<Event>, capacity: nat, since: nat)
    requires Numbered(log)
    ensures LostNewer(log, capacity, Some(since)) <==> since < Dropped(|log|, capacity)
  {
    var dropped := Dropped(|log|, capacity);
    if since < dropped {
      var e := log[since];
      assert e in log && e.seqNo > since;
      forall i | dropped <= i < |log| ensures log[i] != e {}
    }
  }

  /** `lagged` is right about whether an event newer than the cursor has been evicted exactly when the cursor
      is not the largest 64-bit number. */
  lemma {:induction false} LaggedIsExact(log: seq<Event>, capacity: nat, since: Option<nat>, limit: nat)
    requires Numbered(log) && |log| + 1 < U64 && (since.Some? ==> since.value < U64)
    ensures (PageOf(log, capacity, since, limit).lagged <==> LostNewer(log, capacity, since)) <==>
              since != Some(U64 - 1)
  {
    if since.Some? { LostNewerIsBehind(log, capacity, since.value); }
    hide LostNewer;
  }

  /** At that cursor the sum wraps to 0: the poll reports a lag although nothing was ever pushed. */
  lemma {:induction false} LargestCursorLags(capacity: nat, limit: nat)
    ensures PageOf([], capacity, Some(U64 - 1), limit).lagged && !LostNewer([], capacity, Some(U64 - 1))
  {
  }

  // ----- pollers

  /** A reader that moves its cursor to the last number it received; `missed` are the numbers a poll
      told it were lost. */
  datatype Reader = Reader(cursor: nat, got: seq<nat>, missed: set<nat>)

  function Numbers(events: seq<Event>): (r: seq<nat>)
    ensures |r| == |events| && forall i :: 0 <= i < |r| ==> r[i] == events[i].seqNo
  {
    if events == [] then [] else Numbers(events[..|events| - 1]) + [events[|events| - 1].seqNo]
  }

  function Span(a: nat, b: nat): (r: set<nat>)
    ensures forall n: nat :: n in r <==> a < n <= b
    decreases b
  {
    if b <= a then {} else Span(a, b - 1) + {b}
  }

  function Read(r: Reader, poll: Poll, dropped: nat): Reader
  {
    Reader(if poll.events == [] then r.cursor else poll.events[|poll.events| - 1].seqNo,
           r.got + Numbers(poll.events),
           if poll.lagged then r.missed + Span(r.cursor, dropped) else r.missed)
  }

  datatype Action = Emit(level: Level, source: string, message: string) | Ask(limit: nat)

  datatype System = System(log: seq<Event>, reader: Reader)

  function Act(capacity: nat, s: System, a: Action): System
  {
    match a
    case Emit(level, source, message) => s.(log := s.log + [Event(|s.log| + 1, level, source, message)])
    case Ask(limit) =>
      s.(reader := Read(s.reader, PageOf(s.log, capacity, Some(s.reader.cursor), limit), Dropped(|s.log|, capacity)))
  }

  function RunAll(capacity: nat, s: System, actions: seq<Action>): System
    decreases actions
  {
    if actions == [] then s else RunAll(capacity, Act(capacity, s, actions[0]), actions[1..])
  }

  /** Received numbers ascend, none of them was lost, only evicted events were reported lost, and up to the
      cursor every number was either received or reported lost. */
  predicate Complete(capacity: nat, s: System)
  {
    && Numbered(s.log) && s.reader.cursor <= |s.log|
    && (forall i, j :: 0 <= i < j < |s.reader.got| ==> s.reader.got[i] < s.reader.got[j])
    && (forall i :: 0 <= i < |s.reader.got| ==> 1 <= s.reader.got[i] <= s.reader.cursor)
    && (forall n: nat :: n in s.reader.missed ==> n !in s.reader.got && n <= Dropped(|s.log|, capacity))
    && (forall n: nat :: 1 <= n <= s.reader.cursor ==> n in s.reader.got || n in s.reader.missed)
  }

  /** A page holds the oldest retained events newer than the cursor, as many as there are and as the page has room
      for; without a cursor it starts with the oldest retained event and reports no lag. */
  lemma {:induction false} PageShape(log: seq<Event>, capacity: nat, cursor: nat, limit: nat)
    requires Numbered(log) && cursor <= |log| && |log| + 1 < U64
    ensures var p, dropped := PageOf(log, capacity, Some(cursor), limit), Dropped(|log|, capacity);
            && (forall i :: 0 <= i < |p.events| ==>
                  p.events[i] == log[Max(dropped, cursor) + i] && p.events[i].seqNo == Max(dropped, cursor) + i + 1)
            && |p.events| == Min(Min(limit, Max(capacity, 1)), |log| - Max(dropped, cursor))
            && p.latest == |log|
            && PageOf(log, capacity, None, limit) == PageOf(log, capacity, Some(0), limit).(lagged := false)
            && (p.lagged <==> cursor < dropped)
            && (p.events == [] ==> limit == 0 || Max(dropped, cursor) == |log|)
  {
  }

  lemma {:induction false} AskKeepsComplete(capacity: nat, s: System, limit: nat)
    requires Complete(capacity, s) && |s.log| + 1 < U64
    ensures Complete(capacity, Act(capacity, s, Ask(limit)))
  {
    PageShape(s.log, capacity, s.reader.cursor, limit);
    var p, dropped := PageOf(s.log, capacity, Some(s.reader.cursor), limit), Dropped(|s.log|, capacity);
    var from, added := Max(dropped, s.reader.cursor), Numbers(p.events);
    var t := Act(capacity, s, Ask(limit));
    assert t.reader.got == s.reader.got + added;
    hide PageOf, Numbers, Span;
    forall n: nat | n in t.reader.missed ensures n !in t.reader.got && n <= dropped {
      assert forall i :: 0 <= i < |added| ==> added[i] > from;
    }
    forall n: nat | 1 <= n <= t.reader.cursor ensures n in t.reader.got || n in t.reader.missed {
      if n <= s.reader.cursor {
        assert n in s.reader.got || n in s.reader.missed;
      } else if n > from {
        assert added[n - from - 1] == n;
      }
    }
  }

  lemma {:induction false} LogOnlyGrows(capacity: nat, s: System, actions: seq<Action>)
    ensures |s.log| <= |RunAll(capacity, s, actions).log|
    decreases actions
  {
    if actions != [] { LogOnlyGrows(capacity, Act(capacity, s, actions[0]), actions[1..]); }
  }

  /** Over every run of pushes and polls a reader that advances to the last number it received gets every
      event once, in order, but for those a poll reported as lost. */
  lemma {:induction false} ReaderMissesNothingSilently(capacity: nat, s: System, actions: seq<Action>)
    requires Complete(capacity, s) && |RunAll(capacity, s, actions).log| + 1 < U64
    ensures Complete(capacity, RunAll(capacity, s, actions))
    decreases actions
  {
    if actions != [] {
      LogOnlyGrows(capacity, s, actions);
      match actions[0]
      case Emit(_, _, _) => ReaderMissesNothingSilently(capacity, Act(capacity, s, actions[0]), actions[1..]);
      case Ask(limit) =>
        AskKeepsComplete(capacity, s, limit);
        ReaderMissesNothingSilently(capacity, Act(capacity, s, actions[0]), actions[1..]);
    }
  }

  /** A poll moves the cursor exactly when it may return an event and a newer one is retained. */
  lemma {:induction false} PollAdvances(capacity: nat, s: System, limit: nat)
    requires Complete(capacity, s) && |s.log| + 1 < U64
    ensures var t := Act(capacity, s, Ask(limit));
            && s.reader.cursor <= t.reader.cursor
            && (s.reader.cursor < t.reader.cursor <==>
                  limit > 0 && exists e :: e in s.log[Dropped(|s.log|, capacity)..] && e.seqNo > s.reader.cursor)
  {
    var dropped := Dropped(|s.log|, capacity);
    PageShape(s.log, capacity, s.reader.cursor, limit);
    hide PageOf, Numbers;
    if Max(dropped, s.reader.cursor) < |s.log| {
      var e := s.log[|s.log| - 1];
      assert e == s.log[dropped..][|s.log| - 1 - dropped] && e.seqNo > s.reader.cursor;
    }
  }

  function Asks(limits: seq<nat>): (r: seq<Action>)
    ensures |r| == |limits|
  {
    if limits == [] then [] else [Ask(limits[0])] + Asks(limits[1..])
  }

  /** A reader that keeps polling, never for an empty page, reaches the end of the log, in at most as many
      polls as there are events past its cursor. */
  lemma {:induction false} PollsReachTheEnd(capacity: nat, s: System, limits: seq<nat>)
    requires Complete(capacity, s) && |s.log| + 1 < U64 && capacity > 0
    requires (forall i :: 0 <= i < |limits| ==> limits[i] > 0) && |limits| >= |s.log| - s.reader.cursor
    ensures var t := RunAll(capacity, s, Asks(limits));
            t.log == s.log && t.reader.cursor == |s.log| && Complete(capacity, t)
    decreases |limits|
  {
    if limits != [] {
      var t := Act(capacity, s, Ask(limits[0]));
      PollAdvances(capacity, s, limits[0]);
      if s.reader.cursor < |s.log| {
        var last := s.log[|s.log| - 1];
        assert last in s.log[Dropped(|s.log|, capacity)..] && last.seqNo > s.reader.cursor;
      }
      AskKeepsComplete(capacity, s, limits[0]);
      assert Asks(limits)[0] == Ask(limits[0]) && Asks(limits)[1..] == Asks(limits[1..]);
      assert |limits[1..]| >= |t.log| - t.reader.cursor;
      hide Act, Asks, Dropped;
      PollsReachTheEnd(capacity, t, limits[1..]);
    }
  }

  /** Jumping to `latest` instead is gap-free exactly when the page was not cut short: some retained event
      newer than the cursor is skipped if and only if there are more of them than the page holds. */
  lemma {:induction false} LatestSkipsWhenTruncated(log: seq<Event>, capacity: nat, since: nat, limit: nat)
    requires Numbered(log)
    ensures var p, kept := PageOf(log, capacity, Some(since), limit), log[Dropped(|log|, capacity)..];
            (exists e :: e in kept && since < e.seqNo <= p.latest && e !in p.events) <==>
              |log| - Max(Dropped(|log|, capacity), since) > Min(limit, Max(capacity, 1))
  {
    var p, dropped := PageOf(log, capacity, Some(since), limit), Dropped(|log|, capacity);
    var kept, from, page := log[dropped..], Max(dropped, since), Min(limit, Max(capacity, 1));
    if |log| - from > page {
      var e := log[from + page];
      assert kept[from + page - dropped] == e;
      assert e !in p.events;
    } else {
      forall e | e in kept && since < e.seqNo ensures e in p.events {
        var i :| 0 <= i < |kept| && kept[i] == e;
        assert e == log[dropped + i];
        assert p.events[dropped + i - from] == e;
      }
    }
  }
}
