/** What a whole response byte stream means to the client, however it arrives. */
module HttpStream {
  import opened Bytes
  import opened CLib
  import opened HttpHead

  const HDR_MAX: nat := 512

  datatype State = Headers | Body | Done | Failed

  datatype Result = Ok | ErrParse | ErrConnect | ErrStatus | ErrAborted | ErrTimeout | ErrInternal

  /** The scalar fields of `ctx_t`. */
  datatype Ctx = Ctx(
    state: State, hdr_len: nat, status_ok: bool, content_length: nat, body_received: nat, result: Result, complete: bool)

  const START := Ctx(Headers, 0, false, 0, 0, ErrInternal, false)

  // ---- Where the head ends -----------------------------------------------------------

  /** The four bytes before position `n` are CR LF CR LF. */
  predicate EndsHead(s: seq<byte>, n: nat) {
    4 <= n <= |s| && s[n - 4] == CR && s[n - 3] == LF && s[n - 2] == CR && s[n - 1] == LF
  }

  /** The first such position from `n` on, or one past the end. */
  function HeadEnd(s: seq<byte>, n: nat): (k: nat)
    requires n <= |s| + 1
    ensures n <= k <= |s| + 1 && (k <= |s| ==> EndsHead(s, k)) && forall j :: n <= j < k ==> !EndsHead(s, j)
    decreases |s| + 1 - n
  {
    if n == |s| + 1 || EndsHead(s, n) then n else HeadEnd(s, n + 1)
  }

  predicate NoEndBelow(s: seq<byte>, k: nat) { forall j :: 0 <= j < k ==> !EndsHead(s, j) }

  predicate IsHeadEnd(s: seq<byte>, k: nat) { EndsHead(s, k) && NoEndBelow(s, k) }

  lemma HeadEndIs(s: seq<byte>, k: nat)
    requires IsHeadEnd(s, k)
    ensures HeadEnd(s, 0) == k
  {
  }

  lemma NoHeadEnd(s: seq<byte>)
    requires NoEndBelow(s, |s| + 1)
    ensures HeadEnd(s, 0) == |s| + 1
  {
  }

  lemma EndsInPrefix(s: seq<byte>, t: seq<byte>, n: nat)
    requires n <= |s|
    ensures EndsHead(s + t, n) == EndsHead(s, n)
  {
  }

  // ---- The meaning of a stream ----------------------------------------------------------

  /** The context once `s` has arrived, and the body bytes handed to the callback. */
  datatype Meaning = Meaning(ctx: Ctx, body: seq<byte>)

  function Cut(rest: seq<byte>, len: nat): seq<byte> { if 0 < len <= |rest| then rest[..len] else rest }

  /** After the head `h`. The countdowns keep the verifier from expanding meanings. */
  function InBody(h: seq<byte>, rest: seq<byte>, countdown: nat := 4): Meaning {
    if countdown > 0 then InBody(h, rest, countdown - 1) else AfterHead(h, rest)
  }

  function AfterHead(h: seq<byte>, rest: seq<byte>): Meaning {
    var (ok, len) := (StatusOk(h), ContentLength(h));
    var full := 0 < len <= |rest|;
    Meaning(
      if full then Ctx(if ok then Done else Failed, |h|, ok, len, len, if ok then Ok else ErrStatus, true)
      else Ctx(Body, |h|, ok, len, |rest|, ErrInternal, false),
      Cut(rest, len))
  }

  function Interpret(s: seq<byte>, countdown: nat := 4): Meaning {
    if countdown > 0 then Interpret(s, countdown - 1) else Read(s)
  }

  function Read(s: seq<byte>): Meaning {
    var e := HeadEnd(s, 0);
    if e <= |s| && e <= HDR_MAX then InBody(s[..e], s[e..])
    else if |s| <= HDR_MAX then Meaning(START.(hdr_len := |s|), [])
    else Meaning(START.(hdr_len := HDR_MAX, state := Failed, result := ErrParse), [])
  }

  /** The bytes in the header buffer. */
  function Buffered(s: seq<byte>): seq<byte> {
    var e := HeadEnd(s, 0);
    if e <= |s| && e <= HDR_MAX then s[..e] else if |s| <= HDR_MAX then s else s[..HDR_MAX]
  }

  /** The result when the peer closes after `s`. */
  function Close(c: Ctx): Ctx {
    if c.state == Body && (c.content_length == 0 || c.body_received == c.content_length) && c.status_ok
    then Finish(c, Ok)
    else Finish(c, if c.status_ok then ErrAborted else ErrStatus)
  }

  /** `mark_complete`: the first result stays. */
  function Finish(c: Ctx, r: Result): Ctx {
    if c.complete then c else c.(result := r, state := if r == Ok then Done else Failed, complete := true)
  }

  function Final(s: seq<byte>): Result { Close(Interpret(s).ctx).result }

  lemma InBodyIs(h: seq<byte>, rest: seq<byte>)
    ensures InBody(h, rest) == AfterHead(h, rest)
  {
    assert InBody(h, rest, 2) == InBody(h, rest, 1) == InBody(h, rest, 0);
    assert InBody(h, rest, 4) == InBody(h, rest, 3) == InBody(h, rest, 2);
  }

  lemma InterpretIs(s: seq<byte>)
    ensures Interpret(s) == Read(s)
    ensures var e := HeadEnd(s, 0);
      e <= |s| && e <= HDR_MAX ==> Interpret(s) == AfterHead(s[..e], s[e..])
  {
    var e := HeadEnd(s, 0);
    if e <= |s| {
      InBodyIs(s[..e], s[e..]);
    }
    assert Interpret(s, 2) == Interpret(s, 1) == Interpret(s, 0);
    assert Interpret(s, 4) == Interpret(s, 3) == Interpret(s, 2);
  }

  // ---- How meanings grow -----------------------------------------------------------------

  lemma HeadStays(s: seq<byte>, t: seq<byte>)
    requires HeadEnd(s, 0) <= |s|
    ensures HeadEnd(s + t, 0) == HeadEnd(s, 0)
  {
    var e := HeadEnd(s, 0);
    forall n | n <= e ensures EndsHead(s + t, n) == EndsHead(s, n) {
      EndsInPrefix(s, t, n);
    }
    HeadEndIs(s + t, e);
  }

  /** Once the head is read, more bytes are more body. */
  lemma BodyGrows(s: seq<byte>, t: seq<byte>)
    requires var e := HeadEnd(s, 0); e <= |s| && e <= HDR_MAX
    ensures var e := HeadEnd(s, 0);
      Interpret(s) == InBody(s[..e], s[e..]) && Interpret(s + t) == InBody(s[..e], s[e..] + t) && Buffered(s + t) == Buffered(s)
  {
    InterpretIs(s);
    InterpretIs(s + t);
    HeadStays(s, t);
    var e := HeadEnd(s, 0);
    assert (s + t)[..e] == s[..e] && (s + t)[e..] == s[e..] + t;
  }

  lemma Unfinished(s: seq<byte>)
    ensures Interpret(s).ctx.state == Done ==> Interpret(s).ctx.complete
    ensures Interpret(s).ctx.body_received == |Interpret(s).body|
  {
    InterpretIs(s);
  }

  /** Whatever follows a complete transfer is ignored. */
  lemma CompleteStays(s: seq<byte>, t: seq<byte>)
    requires Interpret(s).ctx.complete
    ensures Interpret(s + t) == Interpret(s) && Buffered(s + t) == Buffered(s)
  {
    InterpretIs(s);
    BodyGrows(s, t);
    var e := HeadEnd(s, 0);
    var len := ContentLength(s[..e]);
    InBodyIs(s[..e], s[e..] + t);
    assert (s[e..] + t)[..len] == s[e..][..len];
  }

  /** So is whatever follows a header that overflowed. */
  lemma OverflowStays(s: seq<byte>, t: seq<byte>)
    requires |s| > HDR_MAX && HeadEnd(s, 0) > HDR_MAX
    ensures Interpret(s + t) == Interpret(s) && Buffered(s + t) == Buffered(s)
  {
    InterpretIs(s);
    InterpretIs(s + t);
    var u := s + t;
    var e := HeadEnd(u, 0);
    if e <= HDR_MAX {
      EndsInPrefix(s, t, e);
    }
    assert u[..HDR_MAX] == s[..HDR_MAX];
  }

  /** Once the transfer is complete or the header has overflowed, nothing that follows changes anything. */
  lemma SettledStays(s: seq<byte>, t: seq<byte>)
    requires Interpret(s).ctx.complete || Interpret(s).ctx.state == Failed
    ensures Interpret(s + t) == Interpret(s) && Buffered(s + t) == Buffered(s)
  {
    InterpretIs(s);
    if Interpret(s).ctx.complete {
      CompleteStays(s, t);
    } else {
      OverflowStays(s, t);
    }
  }

  /** A body never shrinks. */
  lemma BodyStays(s: seq<byte>, t: seq<byte>)
    ensures |Interpret(s).body| <= |Interpret(s + t).body|
  {
    InterpretIs(s);
    var e := HeadEnd(s, 0);
    if e <= |s| && e <= HDR_MAX {
      BodyGrows(s, t);
      InBodyIs(s[..e], s[e..]);
      InBodyIs(s[..e], s[e..] + t);
    }
  }

  // ---- What the network does -------------------------------------------------------------

  /** What LwIP reports: a chain of buffers, a buffer with an error, the peer's close, a reset, or no connection. */
  datatype Net = Segment(chain: seq<seq<byte>>) | BadSegment | PeerClose | Reset | NoConnection

  /** The bytes that arrive before the first event of another kind. */
  function Received(events: seq<Net>): seq<byte> {
    if events == [] || !events[0].Segment? then [] else Concat(events[0].chain) + Received(events[1..])
  }

  /** The first event of another kind. */
  function EndOf(events: seq<Net>): Option<Net> {
    if events == [] then None else if events[0].Segment? then EndOf(events[1..]) else Some(events[0])
  }

  /**
   The result of a request. A refused chunk breaks it off; a response that is complete decides it; otherwise what ends
   the connection does. When nothing does, the deadline passes, and the result depends on whether there is a connection
   to abort.
   */
  ghost predicate Outcome(r: Result, events: seq<Net>, refused: bool) {
    var c := Interpret(Received(events)).ctx;
    if refused then r == ErrAborted
    else if c.complete then r == c.result
    else
      match EndOf(events)
      case Some(PeerClose) => r == Close(c).result
      case Some(NoConnection) => r == ErrConnect
      case Some(_) => r == ErrAborted
      case None => r == ErrAborted || r == ErrTimeout
  }

  /** The whole response arrives, is a success, and ends in its Content-Length or the close. */
  ghost predicate Arrives(events: seq<Net>) {
    && (Interpret(Received(events)).ctx.complete || EndOf(events) == Some(PeerClose))
    && Final(Received(events)) == Ok
  }

  /** A request succeeds exactly when the response arrives and no chunk is refused. */
  lemma OutcomeOk(r: Result, events: seq<Net>, refused: bool)
    requires Outcome(r, events, refused)
    ensures r == Ok <==> !refused && Arrives(events)
  {
    Unfinished(Received(events));
  }

  /** Success, and any result after an orderly close, depends on the received bytes alone. */
  lemma OutcomeIsFinal(r: Result, events: seq<Net>, refused: bool)
    requires Outcome(r, events, refused) && (r == Ok || (!refused && EndOf(events) == Some(PeerClose)))
    ensures r == Final(Received(events)) && !refused
  {
  }

  lemma ConcatMore(s: seq<byte>, chain: seq<seq<byte>>, i: nat)
    requires i < |chain|
    ensures s + Concat(chain[..i + 1]) == (s + Concat(chain[..i])) + chain[i]
  {
    assert chain[..i + 1][..i] == chain[..i];
  }

  lemma {:induction false} ConcatPrefix(chain: seq<seq<byte>>, i: nat) returns (tail: seq<byte>)
    requires i <= |chain|
    ensures Concat(chain) == Concat(chain[..i]) + tail
  {
    if i == |chain| {
      assert chain[..i] == chain;
      tail := [];
    } else {
      var init := chain[..|chain| - 1];
      tail := ConcatPrefix(init, i);
      assert init[..i] == chain[..i];
      tail := tail + chain[|chain| - 1];
    }
  }
}
