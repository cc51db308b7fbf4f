/** The client's wire: request numbers, single calls with retries, and pipelined chunks. */
module WireClient {
  import opened Ordering
  import opened Protocol

  const MAX_CHUNK: nat := 128

  // ----- decimal request ids

  function Digit(d: nat): char
    requires d < 10
  {
    '0' + d as char
  }

  /** Shortest decimal spelling. */
  function Decimal(n: nat): string
  {
    if n < 10 then [Digit(n)] else Decimal(n / 10) + [Digit(n % 10)]
  }

  function ValueOf(s: string): int
  {
    if s == [] then 0 else 10 * ValueOf(s[..|s| - 1]) + (s[|s| - 1] as int - '0' as int)
  }

  lemma {:induction false} DecimalReadsBack(n: nat)
    ensures ValueOf(Decimal(n)) == n
  {
    if n < 10 {
      assert [Digit(n)][..0] == [];
    } else {
      DecimalReadsBack(n / 10);
      var s := Decimal(n);
      assert s[..|s| - 1] == Decimal(n / 10);
    }
  }

  /** Different numbers never share an id. */
  lemma {:induction false} DecimalInjective(m: nat, n: nat)
    requires Decimal(m) == Decimal(n)
    ensures m == n
  {
    DecimalReadsBack(m);
    DecimalReadsBack(n);
  }

  function Pow10(k: nat): nat
  {
    if k == 0 then 1 else 10 * Pow10(k - 1)
  }

  lemma {:induction false} U64Fits()
    ensures U64 <= Pow10(20)
  {
    assert Pow10(5) == 100000;
    assert Pow10(10) == 100000 * Pow10(5);
    assert Pow10(15) == 100000 * Pow10(10);
    assert Pow10(20) == 100000 * Pow10(15);
  }

  /** Taking off the last digit leaves a number with one digit less, and its spelling without that digit. */
  lemma {:induction false} OneDigit(n: nat, k: nat, after: string)
    requires 0 < n < Pow10(k)
    ensures k > 0 && n / 10 < Pow10(k - 1)
    ensures Decimal(n) + after == (if n / 10 > 0 then Decimal(n / 10) else []) + ([Digit(n % 10)] + after)
  {
  }

  /** Fills the buffer from its end; twenty bytes are enough for every 64-bit number. */
  method FormatU64(n: nat, buf: array<char>) returns (start: nat)
    requires n < U64 && buf.Length == 20
    modifies buf
    ensures start < 20 && buf[start..] == Decimal(n)
  {
    start := 20;
    if n == 0 {
      buf[19] := '0';
      return 19;
    }
    U64Fits();
    hide *;
    var rest := n;
    while rest > 0
      invariant start <= 20 && 0 <= rest < Pow10(start) && rest <= n
      invariant start < 20 || rest == n
      invariant rest == 0 ==> start < 20
      invariant Decimal(n) == (if rest > 0 then Decimal(rest) else []) + buf[start..]
      decreases rest
    {
      OneDigit(rest, start, buf[start..]);
      start := start - 1;
      PutDigit(buf, start, Digit(rest % 10));
      rest := rest / 10;
    }
  }

  method PutDigit(buf: array<char>, at: nat, digit: char)
    requires at < buf.Length
    modifies buf
    ensures buf[at..] == [digit] + old(buf[at + 1..])
  {
    buf[at] := digit;
  }

  // ----- the wire

  /** A request line, and the operation it carries. */
  datatype Line = Line(number: nat, id: string, op: Op)

  /** The server answers the lines of a connection one at a time, in order. */
  datatype Response = Response(line: Line, ok: bool)

  datatype Exchange = Answers(responses: seq<Response>) | Retryable | Fatal

  function LinesOf(start: nat, ops: seq<Op>): (r: seq<Line>)
    ensures |r| == |ops| && forall i :: 0 <= i < |r| ==> r[i] == Line(start + i, Decimal(start + i), ops[i])
  {
    if ops == [] then []
    else LinesOf(start, ops[..|ops| - 1]) + [Line(start + |ops| - 1, Decimal(start + |ops| - 1), ops[|ops| - 1])]
  }

  /** One response for each line, in order. */
  predicate Match(responses: seq<Response>, lines: seq<Line>)
  {
    |responses| == |lines| && forall i :: 0 <= i < |lines| ==> responses[i].line == lines[i]
  }

  /** Numbers ascend: no line twice. The one exception allowed is `last`, repeated at the end. */
  predicate AtMostOnce(lines: seq<Line>, last: Option<nat>)
  {
    forall i, j :: 0 <= i < j < |lines| ==>
      lines[i].number < lines[j].number || (lines[i].number == lines[j].number && last == Some(lines[i].number))
  }

  /** The wire grew from `before` to `after` by lines numbered from `lo` up to `hi`, none written twice but `last`. */
  ghost predicate Sent(before: seq<Line>, after: seq<Line>, lo: nat, hi: nat, last: Option<nat>)
  {
    && |before| <= |after| && after[..|before|] == before
    && AtMostOnce(after[|before|..], last)
    && forall i :: |before| <= i < |after| ==> lo <= after[i].number < hi
  }

  lemma {:induction false} SentLines(before: seq<Line>, start: nat, ops: seq<Op>, hi: nat, last: Option<nat>)
    requires start + |ops| <= hi
    ensures Sent(before, before + LinesOf(start, ops), start, hi, last)
  {
  }

  lemma {:induction false} SentAgain(before: seq<Line>, after: seq<Line>, line: Line)
    requires |before| <= |after| && after[..|before|] == before
    requires forall i :: |before| <= i < |after| ==> after[i] == line
    ensures Sent(before, after, line.number, line.number + 1, Some(line.number))
  {
  }

  lemma {:induction false} SentBoth(a: seq<Line>, b: seq<Line>, c: seq<Line>, lo: nat, mid: nat, hi: nat,
                                    last: Option<nat>)
    requires lo <= mid <= hi && Sent(a, b, lo, mid, None) && Sent(b, c, mid, hi, last)
    ensures Sent(a, c, lo, hi, last)
  {
    assert c[..|a|] == b[..|a|];
    forall i | |a| <= i < |c| ensures lo <= c[i].number < hi { assert i < |b| ==> c[i] == b[i]; }
    var s := c[|a|..];
    forall i, j | 0 <= i < j < |s|
      ensures s[i].number < s[j].number || (s[i].number == s[j].number && last == Some(s[i].number))
    {
      assert |a| + j < |b| ==> s[i] == b[|a|..][i] && s[j] == b[|a|..][j];
      assert |a| + i >= |b| ==> s[i] == c[|b|..][|a| + i - |b|] && s[j] == c[|b|..][|a| + j - |b|];
      assert |a| + i < |b| ==> s[i] == b[|a| + i];
    }
  }

  lemma {:induction false} LinesOfParts(start: nat, ops: seq<Op>, at: nat, end: nat)
    requires at <= end <= |ops|
    ensures LinesOf(start, ops[..end]) == LinesOf(start, ops[..at]) + LinesOf(start + at, ops[at..end])
  {
    var a, b, c := LinesOf(start, ops[..end]), LinesOf(start, ops[..at]), LinesOf(start + at, ops[at..end]);
    hide LinesOf;
    forall i | 0 <= i < end ensures a[i] == (b + c)[i] {
      if i >= at { assert c[i - at] == Line(start + i, Decimal(start + i), ops[at..end][i - at]); }
    }
  }

  lemma {:induction false} MatchBoth(a: seq<Response>, b: seq<Response>, l: seq<Line>, m: seq<Line>)
    requires Match(a, l) && Match(b, m)
    ensures Match(a + b, l + m)
  {
  }

  /** The line carries the operation its number stands for. */
  predicate IsFor(line: Line, start: nat, ops: seq<Op>)
  {
    && start <= line.number < start + |ops| && line.id == Decimal(line.number)
    && line.op == ops[line.number - start]
  }

  /** Every line since the first `n` is one of these operations, under its own number. */
  ghost predicate Carry(wire: seq<Line>, n: nat, start: nat, ops: seq<Op>)
  {
    forall i :: n <= i < |wire| ==> IsFor(wire[i], start, ops)
  }

  lemma {:induction false} LinesCarry(before: seq<Line>, start: nat, ops: seq<Op>, k: nat)
    requires k <= |ops|
    ensures Carry(before + LinesOf(start, ops[..k]), |before|, start, ops)
  {
    hide LinesOf, Decimal;
  }

  lemma {:induction false} PartsCarry(a: seq<Line>, b: seq<Line>, n: nat, start: nat, ops: seq<Op>, at: nat, end: nat)
    requires at <= end <= |ops| && n <= |a| <= |b| && b[..|a|] == a
    requires Carry(a, n, start, ops) && Carry(b, |a|, start + at, ops[at..end])
    ensures Carry(b, n, start, ops)
  {
    hide Decimal;
    forall i | n <= i < |b| ensures IsFor(b[i], start, ops) {
      if i < |a| { assert b[i] == a[i]; } else { assert IsFor(b[i], start + at, ops[at..end]); }
    }
  }

  lemma {:induction false} ChunksJoin(before: seq<Line>, middle: seq<Line>, after: seq<Line>, start: nat, ops: seq<Op>,
                                      at: nat, end: nat, hi: nat, last: Option<nat>)
    requires at <= end <= |ops| && start + at <= hi
    requires Sent(before, middle, start, start + at, None) && Carry(middle, |before|, start, ops)
    requires Sent(middle, after, start + at, hi, last) && Carry(after, |middle|, start + at, ops[at..end])
    ensures Sent(before, after, start, hi, last) && Carry(after, |before|, start, ops)
  {
    assert |before| <= |middle| <= |after| && after[..|middle|] == middle by { hide AtMostOnce; }
    hide Sent, Carry;
    SentBoth(before, middle, after, start, start + at, hi, last);
    PartsCarry(middle, after, |before|, start, ops, at, end);
  }

  /** The number of the last operation, if it goes out in a chunk of its own. */
  function LoneNumber(start: nat, n: nat): Option<nat>
  {
    if n % MAX_CHUNK == 1 then Some(start + n - 1) else None
  }

  lemma {:induction false} LastChunk(start: nat, at: nat, end: nat, n: nat)
    requires at % MAX_CHUNK == 0 && at < n && end == if at + MAX_CHUNK <= n then at + MAX_CHUNK else n
    ensures LoneNumber(start + at, end - at) == if end == n then LoneNumber(start, n) else None
    ensures end % MAX_CHUNK == 0 || end == n
  {
    assert (n - at) % MAX_CHUNK == n % MAX_CHUNK;
  }

  lemma {:induction false} SentWeakens(before: seq<Line>, after: seq<Line>, lo: nat, hi: nat, last: Option<nat>)
    requires Sent(before, after, lo, hi, None)
    ensures Sent(before, after, lo, hi, last)
  {
  }

  class AgentClient {
    var nextId: nat
    var live: bool
    /** Lines on the live connection that have no response yet. */
    var unanswered: seq<Line>
    /** Every line ever fully written, on any connection. */
    ghost var wire: seq<Line>
    const idBuf: array<char>

    /** Between calls a live connection owes no response, so answers never go to another call. */
    ghost predicate Valid()
      reads this
    {
      && idBuf.Length == 20 && nextId >= 1
      && unanswered == []
      && forall i :: 0 <= i < |wire| ==> wire[i].number < nextId
    }

    constructor ()
      ensures Valid() && fresh(idBuf) && wire == [] && nextId == 1 && !live
    {
      idBuf := new char[20](_ => '0');
      nextId, live, unanswered, wire := 1, false, [], [];
    }

    method Drop()
      modifies this`live, this`unanswered
      ensures !live && unanswered == []
    {
      live, unanswered := false, [];
    }

    /** Writes one line, or fails with less than a line written. */
    method Write(number: nat, op: Op) returns (ok: bool)
      requires idBuf.Length == 20 && number < U64
      modifies this`unanswered, this`wire, idBuf
      ensures ok ==> wire == old(wire) + [Line(number, Decimal(number), op)]
                     && unanswered == old(unanswered) + [Line(number, Decimal(number), op)]
      ensures !ok ==> wire == old(wire) && unanswered == old(unanswered)
    {
      var start := FormatU64(number, idBuf);
      var line := Line(number, idBuf[start..], op);
      ok := *;
      if ok { wire, unanswered := wire + [line], unanswered + [line]; }
    }

    /** Reads the next response, if the connection still gives one that parses. */
    method Receive() returns (r: Option<Response>)
      modifies this`unanswered
      ensures r.Some? ==> old(unanswered) != [] && r.value.line == old(unanswered)[0]
      ensures r.Some? ==> unanswered == old(unanswered)[1..]
    {
      r := None;
      var arrives: bool, ok: bool := *, *;
      if arrives && unanswered != [] {
        r := Some(Response(unanswered[0], ok));
        unanswered := unanswered[1..];
      }
    }

    /** Writes every line; `k` is how many went out. */
    method WriteAll(start: nat, ops: seq<Op>) returns (k: nat)
      requires idBuf.Length == 20 && unanswered == [] && start + |ops| <= U64
      modifies this`unanswered, this`wire, idBuf
      ensures k <= |ops| && unanswered == LinesOf(start, ops[..k]) && wire == old(wire) + LinesOf(start, ops[..k])
    {
      k := 0;
      while k < |ops|
        invariant k <= |ops|
        invariant unanswered == LinesOf(start, ops[..k]) && wire == old(wire) + LinesOf(start, ops[..k])
      {
        var ok := Write(start + k, ops[k]);
        if !ok { return; }
        assert ops[..k + 1][..k] == ops[..k];
        k := k + 1;
      }
    }

    /** Reads one response for each line. */
    method ReadAll(ghost lines: seq<Line>, n: nat) returns (r: Option<seq<Response>>)
      requires unanswered == lines && |lines| == n
      modifies this`unanswered
      ensures r.Some? ==> Match(r.value, lines) && unanswered == []
    {
      var responses: seq<Response> := [];
      while |responses| < n
        invariant |responses| <= n && unanswered == lines[|responses|..]
        invariant forall j :: 0 <= j < |responses| ==> responses[j].line == lines[j]
        decreases n - |responses|
      {
        var response := Receive();
        match response
        case None => return None;
        case Some(answer) => responses := responses + [answer];
      }
      r := Some(responses);
    }

    /** All lines, one flush, then one response each. A failure may be retried only if no line was written. */
    method ExchangePipeline(start: nat, ops: seq<Op>) returns (r: Exchange)
      requires idBuf.Length == 20 && unanswered == [] && ops != [] && start + |ops| <= U64
      modifies this`unanswered, this`wire, idBuf
      ensures r.Answers? ==> wire == old(wire) + LinesOf(start, ops) && Match(r.responses, LinesOf(start, ops))
      ensures r.Answers? ==> unanswered == []
      ensures r.Retryable? ==> wire == old(wire)
      ensures r.Fatal? ==> exists k :: 1 <= k <= |ops| && wire == old(wire) + LinesOf(start, ops[..k])
    {
      var k := WriteAll(start, ops);
      if k < |ops| { return if k > 0 then Fatal else Retryable; }
      assert ops[..k] == ops;
      var flushed: bool := *;
      if !flushed { return Fatal; }
      var responses := ReadAll(LinesOf(start, ops), |ops|);
      match responses
      case None => r := Fatal;
      case Some(answers) => r := Answers(answers);
    }

    /** One attempt, on the live connection or on a new one; any failure gives the connection up. */
    method PipelineOnce(start: nat, ops: seq<Op>) returns (r: Exchange)
      requires Valid() && ops != [] && start + |ops| <= nextId <= U64
      modifies this`live, this`unanswered, this`wire, idBuf
      ensures Valid() && (!r.Answers? ==> !live)
      ensures r.Answers? ==> wire == old(wire) + LinesOf(start, ops) && Match(r.responses, LinesOf(start, ops))
      ensures r.Retryable? ==> wire == old(wire)
      ensures r.Fatal? ==> exists k :: 1 <= k <= |ops| && wire == old(wire) + LinesOf(start, ops[..k])
    {
      if !live {
        var connected: bool := *;
        if !connected { return Retryable; }
        live := true;
      }
      r := ExchangePipeline(start, ops);
      if !r.Answers? { Drop(); }
    }

    /** Retries until a deadline, but never after a line was written: each line goes out at most once. */
    method PipelineRetry(ops: seq<Op>) returns (r: Option<seq<Response>>)
      requires Valid() && ops != [] && nextId + |ops| <= U64
      modifies this, idBuf
      ensures Valid() && nextId == old(nextId) + |ops|
      ensures r.Some? ==> wire == old(wire) + LinesOf(old(nextId), ops) && Match(r.value, LinesOf(old(nextId), ops))
      ensures r.None? ==> exists k :: 0 <= k <= |ops| && wire == old(wire) + LinesOf(old(nextId), ops[..k])
    {
      var start := nextId;
      nextId := nextId + |ops|;
      var attempts: nat := *;
      assert wire == wire + LinesOf(start, ops[..0]);
      while attempts > 0
        invariant Valid() && nextId == old(nextId) + |ops| && wire == old(wire)
      {
        var exchange := PipelineOnce(start, ops);
        match exchange
        case Answers(responses) => return Some(responses);
        case Fatal => return None;
        case Retryable => attempts := attempts - 1;
      }
      r := None;
    }

    /** A single call is resent until it is answered or the deadline passes. */
    method Roundtrip(op: Op) returns (r: Option<Response>)
      requires Valid() && nextId + 1 <= U64
      modifies this, idBuf
      ensures Valid() && nextId == old(nextId) + 1
      ensures r.Some? ==> r.value.line == Line(old(nextId), Decimal(old(nextId)), op) && |wire| > |old(wire)|
      ensures |wire| >= |old(wire)| && wire[..|old(wire)|] == old(wire)
      ensures forall i :: |old(wire)| <= i < |wire| ==> wire[i] == Line(old(nextId), Decimal(old(nextId)), op)
    {
      var number := nextId;
      nextId := nextId + 1;
      var attempts: nat := *;
      while attempts > 0
        invariant Valid() && nextId == old(nextId) + 1
        invariant |wire| >= |old(wire)| && wire[..|old(wire)|] == old(wire)
        invariant forall i :: |old(wire)| <= i < |wire| ==> wire[i] == Line(number, Decimal(number), op)
      {
        attempts := attempts - 1;
        var connected: bool := *;
        if live || connected {
          live := true;
          var ok := Write(number, op);
          if ok {
            var response := Receive();
            match response
            case Some(answer) => return Some(answer);
            case None =>
          }
          Drop();
        }
      }
      r := None;
    }

    /** Responses come back one for each operation, in their order, however the list is split; only a
        single-operation chunk, which can only be the last, may be resent. */
    method Pipeline(ops: seq<Op>) returns (r: Option<seq<Response>>)
      requires Valid() && nextId + |ops| <= U64
      modifies this, idBuf
      ensures Valid() && old(nextId) <= nextId <= old(nextId) + |ops|
      ensures r.Some? ==> nextId == old(nextId) + |ops| && Match(r.value, LinesOf(old(nextId), ops))
      ensures Sent(old(wire), wire, old(nextId), nextId, LoneNumber(old(nextId), |ops|))
      ensures Carry(wire, |old(wire)|, old(nextId), ops)
      decreases |ops|
    {
      hide Sent, AtMostOnce;
      if ops == [] {
        SentLines(wire, nextId, [], nextId, None);
        assert wire + [] == wire;
        return Some([]);
      }
      if |ops| == 1 {
        r := PipelineOne(ops);
        return;
      }
      if |ops| > MAX_CHUNK {
        r := PipelineChunks(ops);
        return;
      }
      r := PipelineChunk(ops);
    }

    method PipelineChunk(ops: seq<Op>) returns (r: Option<seq<Response>>)
      requires Valid() && nextId + |ops| <= U64 && 1 < |ops| <= MAX_CHUNK
      modifies this, idBuf
      ensures Valid() && nextId == old(nextId) + |ops|
      ensures r.Some? ==> Match(r.value, LinesOf(old(nextId), ops))
      ensures Sent(old(wire), wire, old(nextId), nextId, None)
      ensures Carry(wire, |old(wire)|, old(nextId), ops)
    {
      ghost var before, start := wire, nextId;
      hide Sent, AtMostOnce, Carry;
      r := PipelineRetry(ops);
      assert ops[..|ops|] == ops;
      ghost var k :| 0 <= k <= |ops| && wire == before + LinesOf(start, ops[..k]);
      SentLines(before, start, ops[..k], nextId, None);
      LinesCarry(before, start, ops, k);
    }

    method PipelineOne(ops: seq<Op>) returns (r: Option<seq<Response>>)
      requires Valid() && nextId + |ops| <= U64 && |ops| == 1
      modifies this, idBuf
      ensures Valid() && nextId == old(nextId) + 1
      ensures r.Some? ==> Match(r.value, LinesOf(old(nextId), ops))
      ensures Sent(old(wire), wire, old(nextId), nextId, Some(old(nextId)))
      ensures Carry(wire, |old(wire)|, old(nextId), ops)
    {
      var one := Roundtrip(ops[0]);
      SentAgain(old(wire), wire, Line(old(nextId), Decimal(old(nextId)), ops[0]));
      match one
      case None => r := None;
      case Some(answer) => r := Some([answer]);
    }

    method PipelineChunks(ops: seq<Op>) returns (r: Option<seq<Response>>)
      requires Valid() && nextId + |ops| <= U64 && |ops| > MAX_CHUNK
      modifies this, idBuf
      ensures Valid() && old(nextId) <= nextId <= old(nextId) + |ops|
      ensures r.Some? ==> nextId == old(nextId) + |ops| && Match(r.value, LinesOf(old(nextId), ops))
      ensures Sent(old(wire), wire, old(nextId), nextId, LoneNumber(old(nextId), |ops|))
      ensures Carry(wire, |old(wire)|, old(nextId), ops)
      decreases |ops|, 1
    {
      var out: seq<Response> := [];
      var at := 0;
      SentLines(wire, nextId, [], nextId, None);
      assert wire + [] == wire;
      assert ops[..0] == [];
      assert Match(out, LinesOf(nextId, ops[..0]));
      assert Carry(wire, |wire|, nextId, ops);
      hide Sent, AtMostOnce, LoneNumber, Match, LinesOf, AgentClient.Valid, Carry;
      while at < |ops|
        invariant Valid() && 0 <= at <= |ops| && nextId == old(nextId) + at
        invariant at % MAX_CHUNK == 0 || at == |ops|
        invariant Match(out, LinesOf(old(nextId), ops[..at]))
        invariant Sent(old(wire), wire, old(nextId), nextId,
                  if at == |ops| then LoneNumber(old(nextId), |ops|) else None)
        invariant Carry(wire, |old(wire)|, old(nextId), ops)
        decreases |ops| - at
      {
        var part, end := NextChunk(ops, at, out, old(nextId), old(wire));
        match part
        case None => return None;
        case Some(longer) => out, at := longer, end;
      }
      assert ops[..|ops|] == ops;
      r := Some(out);
    }

    /** Adds the responses of the chunk that starts at `at`. */
    method NextChunk(ops: seq<Op>, at: nat, out: seq<Response>, ghost first: nat, ghost before: seq<Line>)
      returns (r: Option<seq<Response>>, end: nat)
      requires Valid() && |ops| > MAX_CHUNK && at < |ops| && at % MAX_CHUNK == 0
      requires nextId == first + at && first + |ops| <= U64
      requires Match(out, LinesOf(first, ops[..at])) && Sent(before, wire, first, nextId, None)
      requires Carry(wire, |before|, first, ops)
      modifies this, idBuf
      ensures Valid() && first + at <= nextId <= first + |ops|
      ensures at < end <= |ops| && (end % MAX_CHUNK == 0 || end == |ops|)
      ensures r.Some? ==> nextId == first + end && Match(r.value, LinesOf(first, ops[..end]))
      ensures Sent(before, wire, first, nextId, if r.Some? && end < |ops| then None else LoneNumber(first, |ops|))
      ensures Carry(wire, |before|, first, ops)
      decreases |ops|, 0
    {
      hide Sent, AtMostOnce, LoneNumber, Match, LinesOf, AgentClient.Valid, Carry;
      end := if at + MAX_CHUNK <= |ops| then at + MAX_CHUNK else |ops|;
      ghost var middle, start, last := wire, nextId, LoneNumber(nextId, end - at);
      LastChunk(first, at, end, |ops|);
      r := Pipeline(ops[at..end]);
      ChunksJoin(before, middle, wire, first, ops, at, end, nextId, last);
      match r
      case None =>
        if end < |ops| { SentWeakens(before, wire, first, nextId, LoneNumber(first, |ops|)); }
      case Some(answers) =>
        MatchBoth(out, answers, LinesOf(first, ops[..at]), LinesOf(start, ops[at..end]));
        LinesOfParts(first, ops, at, end);
        r := Some(out + answers);
    }
  }
}
