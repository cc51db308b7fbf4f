/** `$name` placeholders: a byte-level scanner and a substituter over UTF-8 text. */
module Placeholder {
  import opened Ordering

  type Byte = x: int | 0 <= x < 256

  type Bytes = seq<Byte>

  const DOLLAR: Byte := 0x24
  const OPEN: Byte := 0x7B
  const CLOSE: Byte := 0x7D

  // ----- UTF-8 (section 3 of RFC 3629)

  function EncodeChar(c: char): (b: Bytes)
    ensures 1 <= |b| <= 4
    ensures c as int < 0x80 ==> b == [c as int]
    ensures c as int >= 0x80 ==> forall i :: 0 <= i < |b| ==> b[i] >= 0x80
  {
    var n := c as int;
    if n < 0x80 then [n]
    else if n < 0x800 then [0xC0 + n / 64, 0x80 + n % 64]
    else if n < 0x10000 then [0xE0 + n / 4096, 0x80 + n / 64 % 64, 0x80 + n % 64]
    else [0xF0 + n / 262144, 0x80 + n / 4096 % 64, 0x80 + n / 64 % 64, 0x80 + n % 64]
  }

  function Encode(s: string): Bytes
  {
    if s == [] then [] else EncodeChar(s[0]) + Encode(s[1..])
  }

  predicate Continuation(b: Byte) { 0x80 <= b < 0xC0 }

  function ToChar(n: int): Option<char>
  {
    if 0 <= n < 0xD800 || 0xE000 <= n < 0x11_0000 then Some(n as char) else None
  }

  /** The character encoded at the front of `b`. */
  function DecodeChar(b: Bytes): Option<char>
  {
    if b == [] then None
    else
      var lead: int := b[0];
      if lead < 0x80 then ToChar(lead)
      else if 0xC0 <= lead < 0xE0 && |b| >= 2 && Continuation(b[1]) then
        ToChar((lead - 0xC0) * 64 + Low(b[1]))
      else if 0xE0 <= lead < 0xF0 && |b| >= 3 && Continuation(b[1]) && Continuation(b[2]) then
        ToChar((lead - 0xE0) * 4096 + Low(b[1]) * 64 + Low(b[2]))
      else if 0xF0 <= lead < 0xF8 && |b| >= 4 && Continuation(b[1]) && Continuation(b[2]) && Continuation(b[3]) then
        ToChar((lead - 0xF0) * 262144 + Low(b[1]) * 4096 + Low(b[2]) * 64 + Low(b[3]))
      else None
  }

  /** The six payload bits of a continuation byte. */
  function Low(b: Byte): int { b - 0x80 }

  lemma {:induction false} DecodeTwo(n: int, b: Bytes)
    requires 0x80 <= n < 0x800 && |b| >= 2 && b[0] == 0xC0 + n / 64 && b[1] == 0x80 + n % 64
    ensures DecodeChar(b) == ToChar(n)
  {
    assert 0xC0 <= b[0] < 0xE0 && Continuation(b[1]);
    assert (b[0] - 0xC0) * 64 + Low(b[1]) == n;
  }

  lemma {:induction false} DecodeThree(n: int, b: Bytes)
    requires 0x800 <= n < 0x10000 && |b| >= 3
    requires b[0] == 0xE0 + n / 4096 && b[1] == 0x80 + n / 64 % 64 && b[2] == 0x80 + n % 64
    ensures DecodeChar(b) == ToChar(n)
  {
    assert 0xE0 <= b[0] < 0xF0 && Continuation(b[1]) && Continuation(b[2]);
    assert n / 4096 * 64 + n / 64 % 64 == n / 64;
    assert (b[0] - 0xE0) * 4096 + Low(b[1]) * 64 + Low(b[2]) == n;
  }

  lemma {:induction false} DecodeFour(n: int, b: Bytes)
    requires 0x10000 <= n < 0x110000 && |b| >= 4
    requires b[0] == 0xF0 + n / 262144 && b[1] == 0x80 + n / 4096 % 64 && b[2] == 0x80 + n / 64 % 64
              && b[3] == 0x80 + n % 64
    ensures DecodeChar(b) == ToChar(n)
  {
    assert 0xF0 <= b[0] < 0xF8 && Continuation(b[1]) && Continuation(b[2]) && Continuation(b[3]);
    assert n / 262144 * 64 + n / 4096 % 64 == n / 4096;
    assert n / 4096 * 64 + n / 64 % 64 == n / 64;
    assert (b[0] - 0xF0) * 262144 + Low(b[1]) * 4096 + Low(b[2]) * 64 + Low(b[3]) == n;
  }

  /** Decoding reads back the character that was encoded, whatever follows it. */
  lemma {:induction false} DecodeInvertsEncode(c: char, rest: Bytes)
    ensures DecodeChar(EncodeChar(c) + rest) == Some(c)
  {
    var n := c as int;
    var b := EncodeChar(c) + rest;
    assert ToChar(n) == Some(c);
    if n >= 0x10000 {
      assert b[0] == 0xF0 + n / 262144 && b[1] == 0x80 + n / 4096 % 64 && b[2] == 0x80 + n / 64 % 64
          && b[3] == 0x80 + n % 64;
      hide *;
      DecodeFour(n, b);
    } else if n >= 0x800 {
      assert b[0] == 0xE0 + n / 4096 && b[1] == 0x80 + n / 64 % 64 && b[2] == 0x80 + n % 64;
      hide *;
      DecodeThree(n, b);
    } else if n >= 0x80 {
      assert b[0] == 0xC0 + n / 64 && b[1] == 0x80 + n % 64;
      hide *;
      DecodeTwo(n, b);
    }
  }

  lemma {:induction false} EncodeConcat(s: string, t: string)
    ensures Encode(s + t) == Encode(s) + Encode(t)
  {
    if s == [] {
      assert s + t == t;
    } else {
      assert (s + t)[0] == s[0] && (s + t)[1..] == s[1..] + t;
      EncodeConcat(s[1..], t);
    }
  }

  // ----- the scanner, over bytes

  predicate IdentStartByte(b: Byte) { 0x41 <= b <= 0x5A || 0x61 <= b <= 0x7A || b == 0x5F }

  predicate IdentByte(b: Byte) { IdentStartByte(b) || 0x30 <= b <= 0x39 }

  predicate IsIdent(name: Bytes)
  {
    name != [] && IdentStartByte(name[0]) && forall i :: 0 <= i < |name| ==> IdentByte(name[i])
  }

  function FindClose(b: Bytes): (r: Option<nat>)
    ensures r.Some? ==> r.value < |b| && b[r.value] == CLOSE && forall i :: 0 <= i < r.value ==> b[i] != CLOSE
    ensures r.None? ==> forall i :: 0 <= i < |b| ==> b[i] != CLOSE
  {
    if b == [] then None
    else if b[0] == CLOSE then Some(0)
    else
      assert forall i :: 1 <= i < |b| ==> b[i] == b[1..][i - 1];
      match FindClose(b[1..]) case None => None case Some(k) => Some(k + 1)
  }

  /** Length of the longest prefix of identifier bytes. */
  function RunLength(b: Bytes): (n: nat)
    ensures n <= |b| && forall i :: 0 <= i < n ==> IdentByte(b[i])
    ensures n < |b| ==> !IdentByte(b[n])
  {
    if b == [] || !IdentByte(b[0]) then 0 else 1 + RunLength(b[1..])
  }

  datatype Match = Match(name: Bytes, length: nat)

  /** `$ident` or `${ident}` at the front of `b`, whose first byte is the dollar. */
  function ParsePlaceholder(b: Bytes): (m: Option<Match>)
    requires b != []
    ensures m.Some? ==> 1 < m.value.length <= |b| && IsIdent(m.value.name)
  {
    if |b| < 2 then None
    else if b[1] == OPEN then
      match FindClose(b[2..])
      case None => None
      case Some(k) => if IsIdent(b[2..2 + k]) then Some(Match(b[2..2 + k], k + 3)) else None
    else
      var n := RunLength(b[1..]);
      if n > 0 && IsIdent(b[1..1 + n]) then Some(Match(b[1..1 + n], n + 1)) else None
  }

  /** An identifier's bytes as text. */
  function Text(name: Bytes): (s: string)
    requires forall i :: 0 <= i < |name| ==> name[i] < 0x80
    ensures |s| == |name| && forall i :: 0 <= i < |s| ==> s[i] as int == name[i]
  {
    if name == [] then [] else [name[0] as char] + Text(name[1..])
  }

  // ----- the reference: segments of characters

  datatype Segment = Lit(c: char) | Hole(name: string)

  predicate IdentChar(c: char) { c as int < 0x80 && IdentByte(c as int) }

  function RunChars(s: string): (n: nat)
    ensures n <= |s| && forall i :: 0 <= i < n ==> IdentChar(s[i])
    ensures n < |s| ==> !IdentChar(s[n])
  {
    if s == [] || !IdentChar(s[0]) then 0 else 1 + RunChars(s[1..])
  }

  predicate NameStart(c: char) { c as int < 0x80 && IdentStartByte(c as int) }

  /** The placeholder at the front of `s` and its length: a dollar, then a name that starts with a
      letter or underscore and runs as far as it can, alone or closed in braces. */
  function HoleAt(s: string): (h: Option<(string, nat)>)
    ensures h.Some? ==> 0 < h.value.1 <= |s|
  {
    if |s| < 2 || s[0] != '$' then None
    else
      var braced := s[1] == '{';
      var body := if braced then s[2..] else s[1..];
      var n := RunChars(body);
      if n == 0 || !NameStart(body[0]) then None
      else if !braced then Some((body[..n], n + 1))
      else if n < |body| && body[n] == '}' then Some((body[..n], n + 3))
      else None
  }

  function Segments(s: string): seq<Segment>
  {
    if s == [] then []
    else match HoleAt(s)
      case Some(h) => [Hole(h.0)] + Segments(s[h.1..])
      case None => [Lit(s[0])] + Segments(s[1..])
  }

  function Names(segments: seq<Segment>): set<string>
  {
    set g | g in segments && g.Hole? :: g.name
  }

  function Prepend(s: string, r: Result<string>): Result<string>
  {
    match r case Ok(t) => Ok(s + t) case Err(e) => Err(e)
  }

  /** The text with every hole filled, or the first hole that has no value. */
  function Fill(segments: seq<Segment>, given: map<string, string>): Result<string>
  {
    if segments == [] then Ok([])
    else match segments[0]
      case Lit(c) => Prepend([c], Fill(segments[1..], given))
      case Hole(name) =>
        if name in given then Prepend(given[name], Fill(segments[1..], given)) else Err("missing --set " + name)
  }

  // ----- the scanner agrees with the reference

  lemma {:induction false} AsciiPrefix(s: string, n: nat)
    requires n <= |s| && forall i :: 0 <= i < n ==> s[i] as int < 0x80
    ensures n <= |Encode(s)| && Encode(s)[n..] == Encode(s[n..])
    ensures forall i :: 0 <= i < n ==> Encode(s)[i] == s[i] as int
    decreases n
  {
    if n > 0 {
      AsciiPrefix(s[1..], n - 1);
      assert Encode(s) == [s[0] as int] + Encode(s[1..]);
      assert s[1..][n - 1..] == s[n..];
    }
  }

  lemma {:induction false} RunsAgree(s: string)
    ensures RunLength(Encode(s)) == RunChars(s)
  {
    var n := RunChars(s);
    AsciiPrefix(s, n);
    var b := Encode(s);
    forall i | 0 <= i < n ensures IdentByte(b[i]) { assert IdentChar(s[i]); }
    if n < |s| { assert Encode(s[n..])[0] == EncodeChar(s[n])[0] == b[n]; }
    assert n < |b| ==> !IdentByte(b[n]);
  }

  /** Inside braces: a closing brace right after an identifier run, or no placeholder. */
  lemma {:induction false} BracedAgrees(b: Bytes)
    ensures (FindClose(b).Some? && IsIdent(b[..FindClose(b).value])) <==>
            (0 < RunLength(b) < |b| && b[RunLength(b)] == CLOSE && IdentStartByte(b[0]))
    ensures FindClose(b).Some? && IsIdent(b[..FindClose(b).value]) ==> FindClose(b).value == RunLength(b)
  {
    var n := RunLength(b);
    if FindClose(b).Some? && IsIdent(b[..FindClose(b).value]) {
      var k := FindClose(b).value;
      assert b[..k][0] == b[0];
      assert forall i :: 0 <= i < k ==> IdentByte(b[i]) by { assert forall i :: 0 <= i < k ==> b[..k][i] == b[i]; }
      assert !IdentByte(CLOSE);
    }
  }

  lemma {:induction false} SameText(name: Bytes, s: string)
    requires |name| == |s| && forall i :: 0 <= i < |s| ==> name[i] < 0x80 && name[i] == s[i] as int
    ensures Text(name) == s
  {
    forall i | 0 <= i < |s| ensures Text(name)[i] == s[i] {}
  }

  ghost predicate Agrees(s: string, m: Option<Match>)
  {
    match HoleAt(s)
    case None => m.None?
    case Some(h) => m.Some? && m.value.length == h.1 && IsIdent(m.value.name) && Text(m.value.name) == h.0
                    && h.1 <= |Encode(s)| && Encode(s)[h.1..] == Encode(s[h.1..])
  }

  lemma {:induction false} HolePlain(s: string)
    requires |s| >= 2 && s[0] == '$' && s[1] != '{'
    ensures var n := RunChars(s[1..]);
            HoleAt(s) == if n == 0 || !NameStart(s[1]) then None else Some((s[1..][..n], n + 1))
  {
  }

  lemma {:induction false} ParsePlain(b: Bytes, e: Bytes)
    requires |b| >= 2 && b[1] != OPEN && b[1..] == e
    ensures ParsePlaceholder(b) == if RunLength(e) > 0 && IdentStartByte(e[0])
                                   then Some(Match(e[..RunLength(e)], RunLength(e) + 1)) else None
  {
    var n := RunLength(e);
    assert b[1..1 + n] == e[..n];
    if n > 0 {
      assert e[..n][0] == e[0];
      assert forall i :: 0 <= i < n ==> e[..n][i] == e[i];
    }
  }

  /** The identifier run after a dollar, in bytes and in characters. */
  lemma {:induction false} PlainBody(body: string)
    requires body != [] && body[0] != '{'
    ensures var b, n := Encode(body), RunChars(body);
            && b != [] && b[0] != OPEN && RunLength(b) == n <= |b|
            && (n > 0 ==> Text(b[..n]) == body[..n] && (IdentStartByte(b[0]) <==> NameStart(body[0])))
  {
    var b, n := Encode(body), RunChars(body);
    RunsAgree(body);
    AsciiPrefix(body, n);
    assert b[0] == EncodeChar(body[0])[0];
    if n > 0 { SameText(b[..n], body[..n]); }
  }

  lemma {:induction false} PlainAgrees(s: string)
    requires |s| >= 2 && s[0] == '$' && s[1] != '{'
    ensures Encode(s) != [] && Agrees(s, ParsePlaceholder(Encode(s)))
  {
    var body := s[1..];
    var n := RunChars(body);
    AsciiPrefix(s, 1);
    assert forall i :: 0 <= i < n + 1 ==> s[i] as int < 0x80 by {
      assert forall i :: 1 <= i < n + 1 ==> s[i] == body[i - 1];
    }
    AsciiPrefix(s, n + 1);
    hide *;
    PlainBody(body);
    HolePlain(s);
    assert Encode(s)[1] == Encode(body)[0];
    ParsePlain(Encode(s), Encode(body));
    assert Agrees(s, ParsePlaceholder(Encode(s))) by { AgreesByCases(s, ParsePlaceholder(Encode(s))); }
  }

  predicate BracedName(body: string)
  {
    var n := RunChars(body);
    0 < n < |body| && NameStart(body[0]) && body[n] == '}'
  }

  lemma {:induction false} BraceBody(body: string)
    ensures var b := Encode(body);
            && (BracedName(body) <==> FindClose(b).Some? && IsIdent(b[..FindClose(b).value]))
            && (BracedName(body) ==> && FindClose(b).value == RunChars(body)
                                     && Text(b[..FindClose(b).value]) == body[..RunChars(body)])
  {
    var b, n := Encode(body), RunChars(body);
    RunsAgree(body);
    BracedAgrees(b);
    AsciiPrefix(body, n);
    if n < |body| { assert Encode(body[n..])[0] == EncodeChar(body[n])[0] == b[n]; }
    if BracedName(body) { SameText(b[..n], body[..n]); }
  }

  lemma {:induction false} ParseBraced(b: Bytes, e: Bytes)
    requires |b| >= 2 && b[1] == OPEN && b[2..] == e
    ensures ParsePlaceholder(b) == if FindClose(e).Some? && IsIdent(e[..FindClose(e).value])
                                   then Some(Match(e[..FindClose(e).value], FindClose(e).value + 3)) else None
  {
    if FindClose(e).Some? {
      var k := FindClose(e).value;
      assert b[2..2 + k] == e[..k];
    }
  }

  lemma {:induction false} HoleBraced(s: string)
    requires |s| >= 2 && s[0] == '$' && s[1] == '{'
    ensures HoleAt(s) == if BracedName(s[2..]) then Some((s[2..][..RunChars(s[2..])], RunChars(s[2..]) + 3)) else None
  {
  }

  lemma {:induction false} BracesAgree(s: string)
    requires |s| >= 2 && s[0] == '$' && s[1] == '{'
    ensures Encode(s) != [] && Agrees(s, ParsePlaceholder(Encode(s)))
  {
    var body := s[2..];
    var n := RunChars(body);
    AsciiPrefix(s, 2);
    if BracedName(body) {
      assert forall i :: 0 <= i < n + 3 ==> s[i] as int < 0x80 by {
        assert forall i :: 2 <= i < n + 3 ==> s[i] == body[i - 2];
      }
      AsciiPrefix(s, n + 3);
    }
    assert Encode(s)[1] == s[1] as int == OPEN;
    hide *;
    BraceBody(body);
    HoleBraced(s);
    ParseBraced(Encode(s), Encode(body));
    assert Agrees(s, ParsePlaceholder(Encode(s))) by { AgreesByCases(s, ParsePlaceholder(Encode(s))); }
  }

  lemma {:induction false} AgreesByCases(s: string, m: Option<Match>)
    requires HoleAt(s).None? ==> m.None?
    requires HoleAt(s).Some? ==>
               var h := HoleAt(s).value;
               m.Some? && m.value.length == h.1 && IsIdent(m.value.name) && Text(m.value.name) == h.0
               && h.1 <= |Encode(s)| && Encode(s)[h.1..] == Encode(s[h.1..])
    ensures Agrees(s, m)
  {
  }

  /** At a dollar sign the byte parser and the reference find the same placeholder. */
  lemma {:induction false} ParseAgrees(s: string)
    requires s != [] && s[0] == '$'
    ensures Encode(s) != [] && Agrees(s, ParsePlaceholder(Encode(s)))
  {
    if |s| < 2 {
      assert Encode(s) == [DOLLAR] + Encode(s[1..]);
    } else if s[1] == '{' {
      BracesAgree(s);
    } else {
      PlainAgrees(s);
    }
  }

  // ----- collecting

  /** The names the byte scanner collects. */
  function ScanNames(b: Bytes): set<string>
    decreases |b|
  {
    if b == [] then {}
    else if b[0] == DOLLAR && ParsePlaceholder(b).Some? then
      var m := ParsePlaceholder(b).value;
      {Text(m.name)} + ScanNames(b[m.length..])
    else ScanNames(b[1..])
  }

  lemma {:induction false} ScanStep(b: Bytes, i: nat)
    requires i < |b|
    ensures b[i] == DOLLAR && ParsePlaceholder(b[i..]).Some? ==>
              var m := ParsePlaceholder(b[i..]).value;
              ScanNames(b[i..]) == {Text(m.name)} + ScanNames(b[i + m.length..])
    ensures !(b[i] == DOLLAR && ParsePlaceholder(b[i..]).Some?) ==> ScanNames(b[i..]) == ScanNames(b[i + 1..])
  {
    hide ParsePlaceholder, Text;
    assert b[i..][0] == b[i] && b[i..][1..] == b[i + 1..];
    if ParsePlaceholder(b[i..]).Some? {
      var m := ParsePlaceholder(b[i..]).value;
      assert b[i..][m.length..] == b[i + m.length..];
    }
  }

  method CollectPlaceholders(s: string, known: set<string>) returns (out: set<string>)
    ensures out == known + Names(Segments(s))
  {
    var bytes := Encode(s);
    out := known;
    var i := 0;
    ScanIsNames(s);
    hide Encode, ParsePlaceholder, Text, Names, Segments;
    while i < |bytes|
      invariant i <= |bytes| && out + ScanNames(bytes[i..]) == known + ScanNames(bytes)
    {
      var found := None;
      if bytes[i] == DOLLAR { found := ParsePlaceholder(bytes[i..]); }
      ScanStep(bytes, i);
      match found
      case Some(m) =>
        out := out + {Text(m.name)};
        i := i + m.length;
      case None =>
        i := i + 1;
    }
    assert bytes[i..] == [];
  }

  lemma {:induction false} ScanSkips(p: Bytes, rest: Bytes)
    requires forall i :: 0 <= i < |p| ==> p[i] != DOLLAR
    ensures ScanNames(p + rest) == ScanNames(rest)
  {
    if p == [] {
      assert p + rest == rest;
    } else {
      assert (p + rest)[1..] == p[1..] + rest;
      ScanSkips(p[1..], rest);
    }
  }

  lemma {:induction false} ScanIsNames(s: string)
    ensures ScanNames(Encode(s)) == Names(Segments(s))
    decreases |s|
  {
    if s != [] {
      var b := Encode(s);
      if s[0] == '$' { ParseAgrees(s); }
      match HoleAt(s)
      case Some(h) =>
        ScanIsNames(s[h.1..]);
        NamesCons(Hole(h.0), Segments(s[h.1..]));
        assert b[0] == DOLLAR by { assert b == EncodeChar('$') + Encode(s[1..]); }
      case None =>
        ScanIsNames(s[1..]);
        NamesCons(Lit(s[0]), Segments(s[1..]));
        if s[0] == '$' {
          assert b == [DOLLAR] + Encode(s[1..]);
          assert b[1..] == Encode(s[1..]);
        } else {
          ScanSkips(EncodeChar(s[0]), Encode(s[1..]));
        }
    }
  }

  lemma {:induction false} NamesCons(g: Segment, rest: seq<Segment>)
    ensures Names([g] + rest) == (if g.Hole? then {g.name} else {}) + Names(rest)
  {
  }

  // ----- substituting

  /** One turn of the substituter: the text a placeholder or a character contributes, the bytes it
      takes, and (ghost) the characters it takes. */
  method SubstituteFront(front: Bytes, given: map<string, string>, ghost rest: string)
    returns (piece: Result<string>, taken: nat, ghost used: nat)
    requires front != [] && front == Encode(rest)
    ensures piece.Err? ==> Fill(Segments(rest), given) == Err(piece.error)
    ensures piece.Ok? ==>
              && 0 < taken <= |front| && used <= |rest| && front[taken..] == Encode(rest[used..])
              && Fill(Segments(rest), given) == Prepend(piece.value, Fill(Segments(rest[used..]), given))
  {
    FrontChar(rest);
    var found := None;
    if front[0] == DOLLAR { found := ParsePlaceholder(front); }
    match found
    case Some(m) =>
      StepOverHole(rest, given, m);
      var name := Text(m.name);
      piece := if name in given then Ok(given[name]) else Err("missing --set " + name);
      taken, used := m.length, m.length;
    case None =>
      match DecodeChar(front)
      case Some(ch) =>
        StepOverChar(rest, given, ch);
        piece, taken, used := Ok([ch]), |EncodeChar(ch)|, 1;
      case None =>
        assert false;
  }

  /** The substituter's loop. */
  method SubstituteBytes(bytes: Bytes, given: map<string, string>, ghost input: string) returns (r: Result<string>)
    requires bytes == Encode(input)
    ensures r == Fill(Segments(input), given)
  {
    var out := "";
    var i: nat := 0;
    ghost var rest := input;
    PrependNothing(Fill(Segments(input), given));
    assert bytes[0..] == bytes;
    while i < |bytes|
      invariant i <= |bytes| && bytes[i..] == Encode(rest)
      invariant Fill(Segments(input), given) == Prepend(out, Fill(Segments(rest), given))
    {
      hide Encode, Fill, Segments;
      ghost var used;
      var piece, taken;
      piece, taken, used := SubstituteFront(bytes[i..], given, rest);
      match piece
      case Err(e) => return Err(e);
      case Ok(text) =>
        PrependTwice(out, text, Fill(Segments(rest[used..]), given));
        assert bytes[i..][taken..] == bytes[i + taken..];
        out, i, rest := out + text, i + taken, rest[used..];
    }
    assert rest == [] || |Encode(rest)| > 0;
    PrependNothing(Ok(out));
    assert out + [] == out;
    return Ok(out);
  }

  method SubstituteString(input: string, given: map<string, string>) returns (r: Result<string>)
    ensures r == Fill(Segments(input), given)
  {
    var bytes := Encode(input);
    if DOLLAR !in bytes {
      NoDollarNoHoles(input, given);
      return Ok(input);
    }
    r := SubstituteBytes(bytes, given, input);
  }

  lemma {:induction false} PrependNothing(r: Result<string>)
    ensures Prepend("", r) == r
  {
    if r.Ok? { assert "" + r.value == r.value; }
  }

  lemma {:induction false} PrependTwice(a: string, b: string, r: Result<string>)
    ensures Prepend(a, Prepend(b, r)) == Prepend(a + b, r)
  {
    if r.Ok? { assert a + (b + r.value) == a + b + r.value; }
  }

  /** The scan position is always a character boundary: decoding there never fails. */
  lemma {:induction false} FrontChar(s: string)
    requires Encode(s) != []
    ensures s != [] && DecodeChar(Encode(s)) == Some(s[0]) && Encode(s)[0] == EncodeChar(s[0])[0]
  {
    DecodeInvertsEncode(s[0], Encode(s[1..]));
  }

  lemma {:induction false} StepOverHole(s: string, given: map<string, string>, m: Match)
    requires Encode(s) != [] && s != [] && Encode(s)[0] == DOLLAR && ParsePlaceholder(Encode(s)) == Some(m)
    requires Encode(s)[0] == EncodeChar(s[0])[0]
    ensures m.length <= |s| && Encode(s)[m.length..] == Encode(s[m.length..])
    ensures Fill(Segments(s), given) ==
              if Text(m.name) in given then Prepend(given[Text(m.name)], Fill(Segments(s[m.length..]), given))
              else Err("missing --set " + Text(m.name))
  {
    assert s[0] == '$';
    ParseAgrees(s);
    var h := HoleAt(s).value;
    assert Segments(s) == [Hole(h.0)] + Segments(s[h.1..]);
  }

  lemma {:induction false} StepOverChar(s: string, given: map<string, string>, c: char)
    requires s != [] && s[0] == c && Encode(s) != []
    requires Encode(s)[0] == DOLLAR ==> ParsePlaceholder(Encode(s)).None?
    ensures |EncodeChar(c)| <= |Encode(s)| && Encode(s)[|EncodeChar(c)|..] == Encode(s[1..])
    ensures Fill(Segments(s), given) == Prepend([c], Fill(Segments(s[1..]), given))
  {
    if c == '$' {
      ParseAgrees(s);
      assert Encode(s) == [DOLLAR] + Encode(s[1..]);
    }
    assert Segments(s) == [Lit(c)] + Segments(s[1..]);
  }

  lemma {:induction false} NoDollarNoHoles(s: string, given: map<string, string>)
    requires DOLLAR !in Encode(s)
    ensures Fill(Segments(s), given) == Ok(s) && Names(Segments(s)) == {}
  {
    if s != [] {
      assert Encode(s) == EncodeChar(s[0]) + Encode(s[1..]);
      assert Encode(s)[0] == EncodeChar(s[0])[0] && Encode(s)[0] in Encode(s);
      assert s[0] != '$';
      NoDollarNoHoles(s[1..], given);
      NamesCons(Lit(s[0]), Segments(s[1..]));
      assert [s[0]] + s[1..] == s;
      assert Segments(s) == [Lit(s[0])] + Segments(s[1..]);
    }
  }

  /** Substitution succeeds exactly when every collected name has a value. */
  lemma {:induction false} FillIffGiven(segments: seq<Segment>, given: map<string, string>)
    ensures Fill(segments, given).Ok? <==> Names(segments) <= given.Keys
  {
    if segments != [] {
      FillIffGiven(segments[1..], given);
      assert segments == [segments[0]] + segments[1..];
      NamesCons(segments[0], segments[1..]);
    }
  }

  /** Text in which nothing is collected is left as it is. */
  lemma {:induction false} NothingCollectedNothingChanged(s: string, given: map<string, string>)
    requires Names(Segments(s)) == {}
    ensures Fill(Segments(s), given) == Ok(s)
    decreases |s|
  {
    if s != [] {
      match HoleAt(s)
      case Some(h) =>
        NamesCons(Hole(h.0), Segments(s[h.1..]));
      case None =>
        NamesCons(Lit(s[0]), Segments(s[1..]));
        NothingCollectedNothingChanged(s[1..], given);
        assert Segments(s) == [Lit(s[0])] + Segments(s[1..]);
        assert [s[0]] + s[1..] == s;
    }
  }
}
