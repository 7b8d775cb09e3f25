/** The HTTP client (src/network/http_get.c) with the chunk callback of `ota download` (src/cli/commands/cmd_ota.c). */
module Http {
  import opened Bytes
  import opened FlashMap
  import opened HttpHead
  import opened HttpStream
  import opened Metadata
  import Ota

  // ---- The callback ------------------------------------------------------------------

  /** `dl_state_t` and `on_chunk`. Ghost: what the slot can take, and how often flash had refused at the start. */
  class Download {
    const ota: Ota.Updater
    ghost const limit: nat
    ghost const refusals: nat
    var bytes: nat
    var last_report: nat
    var error: bool

    ghost function Footprint(): set<object> {
      {this, ota, ota.flash, ota.flash.mem, ota.sha, ota.sha.state, ota.sha.buf, ota.page_buf}
    }

    /** Everything delivered so far, `d`, has been staged and hashed. */
    ghost predicate Flowing(d: seq<byte>)
      reads Footprint()
    {
      && ota.Valid() && !error && ota.status.update_in_progress
      && bytes == ota.status.bytes_written == |d| && ota.history == Ota.History(d, d, false, false)
      && Ota.Limit(ota.status) == limit && ota.flash.refused == refusals
    }

    /** A chunk was refused: flash refused, or the body does not fit. */
    ghost predicate Stopped(body: seq<byte>)
      reads Footprint()
    {
      Sane() && error && (ota.flash.refused > refusals || |body| > limit)
    }

    /** Delivered in full or not, the update is still in progress. */
    ghost predicate Sane()
      reads Footprint()
    {
      ota.Valid() && ota.status.update_in_progress
    }

    constructor (ota: Ota.Updater)
      ensures this.ota == ota && bytes == 0 && !error && limit == Ota.Limit(ota.status) && refusals == ota.flash.refused
    {
      this.ota, bytes, last_report, error := ota, 0, 0, false;
      limit, refusals := Ota.Limit(ota.status), ota.flash.refused;
    }

    method OnChunk(data: seq<byte>, ghost d: seq<byte>) returns (keep: bool)
      requires Flowing(d) && data != []
      modifies Footprint()
      ensures keep ==> Flowing(d + data)
      ensures !keep ==> Stopped(d + data)
      ensures OnlySlot(old(ota.Map()), ota.Map(), Other(ota.slot))
    {
      var r := ota.Write(bytes, data);
      if r != Ota.Ok {
        error := true;
        return false;
      }
      bytes := bytes + |data|;
      if bytes - last_report >= 32 * 1024 {
        last_report := bytes;
      }
      keep := true;
    }
  }

  // ---- The client ----------------------------------------------------------------------

  lemma MoreHead(h: seq<byte>, g: seq<byte>, b: byte)
    requires NoEndBelow(h, |h| + 1) && g == h + [b]
    ensures NoEndBelow(g, |g|)
  {
    forall j | 0 <= j < |g| ensures !EndsHead(g, j) {
      EndsInPrefix(h, [b], j);
    }
  }

  /** The header buffer holds `h`, which is no whole head yet. */
  ghost predicate Collecting(c: Ctx, buf: seq<byte>, h: seq<byte>) {
    c == START.(hdr_len := |h|) && |h| <= HDR_MAX && |h| <= |buf| && buf[..|h|] == h && NoEndBelow(h, |h| + 1)
  }

  /** `feed_header_bytes` found the end of the head `g`. */
  ghost predicate Collected(c: Ctx, buf: seq<byte>, g: seq<byte>) {
    && |g| <= HDR_MAX && |g| <= |buf| && buf[..|g|] == g && IsHeadEnd(g, |g|)
    && c == Ctx(Body, |g|, StatusOk(g), ContentLength(g), 0, ErrInternal, false)
  }

  /** The header buffer overflowed. */
  ghost predicate Overflowed(c: Ctx, buf: seq<byte>, g: seq<byte>) {
    && |g| == HDR_MAX <= |buf| && buf[..|g|] == g && NoEndBelow(g, |g| + 1)
    && c == START.(hdr_len := HDR_MAX, state := Failed, result := ErrParse)
  }

  lemma CollectingMeans(s: seq<byte>, c: Ctx, buf: seq<byte>)
    requires Collecting(c, buf, s)
    ensures c == Interpret(s).ctx && Buffered(s) == s && Interpret(s).body == []
  {
    InterpretIs(s);
    NoHeadEnd(s);
  }

  lemma CollectedMeans(s: seq<byte>, c: Ctx, buf: seq<byte>, g: seq<byte>, rest: seq<byte>)
    requires Collected(c, buf, g) && s == g + rest
    ensures Interpret(s) == InBody(g, rest) && Buffered(s) == g && Interpret(s).ctx.hdr_len == |g|
  {
    InBodyIs(g, rest);
    InterpretIs(s);
    HeadEndIs(g, |g|);
    HeadStays(g, rest);
    assert s[..|g|] == g && s[|g|..] == rest;
  }

  lemma CollectedStart(c: Ctx, buf: seq<byte>, g: seq<byte>)
    requires Collected(c, buf, g)
    ensures InBody(g, []) == Meaning(c, [])
  {
    InBodyIs(g, []);
  }

  lemma OverflowedMeans(s: seq<byte>, c: Ctx, buf: seq<byte>, g: seq<byte>, rest: seq<byte>)
    requires Overflowed(c, buf, g) && s == g + rest && rest != []
    ensures c == Interpret(s).ctx && Buffered(s) == g && Interpret(s).body == [] && HeadEnd(s, 0) > HDR_MAX
  {
    InterpretIs(s);
    var e := HeadEnd(s, 0);
    if e <= HDR_MAX {
      EndsInPrefix(g, rest, e);
    }
    assert s[..HDR_MAX] == g;
  }

  /** `ctx_t`. Ghost: the bytes received, and whether the callback broke the transfer off. */
  class Client {
    const dl: Download
    const hdr_buf: array<byte>
    var c: Ctx
    ghost var stream: seq<byte>
    ghost var broken: bool

    ghost predicate Wired() {
      hdr_buf.Length == HDR_MAX + 1 && hdr_buf !in dl.Footprint()
    }

    ghost function Footprint(): set<object> { {this, hdr_buf} + dl.Footprint() }

    /** The context is what the stream means, and its body has gone through the callback. */
    ghost predicate Matches(s: seq<byte>)
      reads Footprint()
    {
      && c == Interpret(s).ctx && c.hdr_len <= hdr_buf.Length && hdr_buf[..c.hdr_len] == Buffered(s)
      && dl.Flowing(Interpret(s).body)
    }

    ghost predicate Valid()
      reads Footprint()
    {
      Wired() && if broken then dl.Stopped(Interpret(stream).body) && c.complete && c.result == ErrAborted else Matches(stream)
    }

    constructor (dl: Download)
      requires dl.Flowing([])
      ensures this.dl == dl && Valid() && stream == [] && !broken && fresh(hdr_buf)
    {
      this.dl, hdr_buf := dl, new byte[HDR_MAX + 1];
      c, stream, broken := START, [], false;
      new;
      CollectingMeans([], c, hdr_buf[..]);
      assert hdr_buf[..0] == [];
    }

    method FeedHeaderBytes(data: seq<byte>, ghost h: seq<byte>) returns (consumed: nat)
      requires Wired() && Collecting(c, hdr_buf[..], h)
      modifies this`c, hdr_buf
      ensures consumed <= |data|
      ensures var g := h + data[..consumed];
        || (Collected(c, hdr_buf[..], g))
        || (Collecting(c, hdr_buf[..], g) && consumed == |data|)
        || (Overflowed(c, hdr_buf[..], g) && consumed < |data|)
    {
      consumed := 0;
      assert h + data[..0] == h;
      while consumed < |data|
        invariant consumed <= |data| && Collecting(c, hdr_buf[..], h + data[..consumed])
      {
        ghost var g := h + data[..consumed];
        if c.hdr_len == HDR_MAX {
          c := c.(result := ErrParse, state := Failed);
          return;
        }
        ghost var was := hdr_buf[..];
        hdr_buf[c.hdr_len] := data[consumed];
        c := c.(hdr_len := c.hdr_len + 1);
        consumed := consumed + 1;
        Stored(was, hdr_buf[..], g, data[consumed - 1]);
        assert h + data[..consumed] == g + [data[consumed - 1]];
        MoreHead(g, g + [data[consumed - 1]], data[consumed - 1]);
        if EndsHead(hdr_buf[..c.hdr_len], c.hdr_len) {
          var ok, len := ParseResponseHeaders(hdr_buf[..c.hdr_len]);
          c := c.(status_ok := ok, content_length := len, state := Body);
          return;
        }
      }
    }

    static lemma Stored(was: seq<byte>, now: seq<byte>, g: seq<byte>, b: byte)
      requires |g| < |was| && was[..|g|] == g && now == was[|g| := b]
      ensures now[..|g| + 1] == g + [b]
    {
    }

    /** `mark_complete`. */
    method MarkComplete(r: Result)
      modifies this`c
      ensures c == Finish(old(c), r)
    {
      if c.complete {
        return;
      }
      c := c.(result := r, state := if r == Ok then Done else Failed, complete := true);
    }

    /** The body half of one segment; `kept` says whether the callback went along. */
    method TakeBody(data: seq<byte>, ghost h: seq<byte>, ghost r: seq<byte>) returns (ghost kept: bool)
      requires Wired() && c == InBody(h, r).ctx && c.state == Body && data != [] && dl.Flowing(InBody(h, r).body)
      modifies this`c, dl.Footprint()
      ensures OnlySlot(old(dl.ota.Map()), dl.ota.Map(), Other(dl.ota.slot))
      ensures if kept then c == InBody(h, r + data).ctx && dl.Flowing(InBody(h, r + data).body)
        else c.complete && c.result == ErrAborted && dl.Stopped(InBody(h, r + data).body)
    {
      BodyTaken(h, r, data);
      var take := |data|;
      if c.content_length > 0 {
        var left := c.content_length - c.body_received;
        take := if take > left then left else take;
      }
      var keep := dl.OnChunk(data[..take], r);
      kept := keep;
      if !keep {
        MarkComplete(ErrAborted);
        return;
      }
      c := c.(body_received := c.body_received + take);
      if c.content_length > 0 && c.body_received == c.content_length {
        if c.status_ok {
          MarkComplete(Ok);
        } else {
          MarkComplete(ErrStatus);
        }
      }
    }

    /** What follows the head in the segment that ends it. */
    method AfterHead(rest: seq<byte>, ghost g: seq<byte>)
      requires Wired() && !broken && Collected(c, hdr_buf[..], g) && dl.Flowing([])
      modifies Footprint()
      ensures Valid() && stream == g + rest && OnlySlot(old(dl.ota.Map()), dl.ota.Map(), Other(dl.ota.slot))
    {
      stream := g + rest;
      CollectedMeans(stream, c, hdr_buf[..], g, rest);
      CollectedStart(c, hdr_buf[..], g);
      assert [] + rest == rest;
      if |rest| > 0 {
        ghost var kept := TakeBody(rest, g, []);
        broken := !kept;
      }
    }

    /** One segment before the end of the head. */
    method HeadSegment(data: seq<byte>)
      requires Valid() && !broken && c.state == Headers
      modifies Footprint()
      ensures Valid() && stream == old(stream) + data && OnlySlot(old(dl.ota.Map()), dl.ota.Map(), Other(dl.ota.slot))
    {
      ghost var h := stream;
      HeadersCollect(h, c, hdr_buf[..]);
      var used := FeedHeaderBytes(data, h);
      ghost var g := h + data[..used];
      TakenAndRest(stream, data, used);
      if c.state == Failed {
        OverflowedMeans(g + data[used..], c, hdr_buf[..], g, data[used..]);
        stream := stream + data;
      } else if c.state == Body {
        AfterHead(data[used..], g);
      } else {
        CollectingMeans(g, c, hdr_buf[..]);
        stream := stream + data;
      }
    }

    /** One segment of body. */
    method BodySegment(data: seq<byte>)
      requires Valid() && !broken && c.state == Body && data != []
      modifies Footprint()
      ensures Valid() && stream == old(stream) + data && OnlySlot(old(dl.ota.Map()), dl.ota.Map(), Other(dl.ota.slot))
    {
      ghost var h, r := BodySplits(stream, data);
      ghost var kept := TakeBody(data, h, r);
      broken := !kept;
      stream := stream + data;
    }

    /** One buffer of a chain. */
    method TakeSegment(data: seq<byte>)
      requires Valid() && !c.complete
      modifies Footprint()
      ensures Valid() && stream == old(stream) + data && OnlySlot(old(dl.ota.Map()), dl.ota.Map(), Other(dl.ota.slot))
    {
      if c.state == Headers {
        HeadSegment(data);
      } else if c.state == Body && |data| > 0 {
        BodySegment(data);
      } else {
        Unfinished(stream);
        Idle(data);
      }
    }

    ghost method Idle(data: seq<byte>)
      requires Valid() && !c.complete && (c.state == Failed || data == [])
      modifies this`stream
      ensures Valid() && stream == old(stream) + data
    {
      if c.state == Failed {
        SettledStays(stream, data);
      } else {
        assert stream + data == stream;
      }
      stream := stream + data;
    }

    /** What arrives after the transfer is settled does not matter. */
    ghost method Skip(tail: seq<byte>)
      requires Valid() && (c.complete || c.state == Failed)
      modifies this`stream
      ensures Valid() && stream == old(stream) + tail
    {
      if broken {
        BodyStays(stream, tail);
      } else {
        SettledStays(stream, tail);
      }
      stream := stream + tail;
    }

    /** The walk along a chain, which stops once the transfer is settled. */
    method WalkChain(chain: seq<seq<byte>>) returns (i: nat)
      requires Valid()
      modifies Footprint()
      ensures Valid() && i <= |chain| && stream == old(stream) + Concat(chain[..i])
      ensures i < |chain| ==> c.complete || c.state == Failed
      ensures OnlySlot(old(dl.ota.Map()), dl.ota.Map(), Other(dl.ota.slot))
    {
      i := 0;
      ghost var s := stream;
      assert s + Concat(chain[..0]) == s;
      while i < |chain| && !c.complete
        invariant i <= |chain| && Valid() && stream == s + Concat(chain[..i])
        invariant OnlySlot(old(dl.ota.Map()), dl.ota.Map(), Other(dl.ota.slot))
      {
        ConcatMore(s, chain, i);
        TakeSegment(chain[i]);
        i := i + 1;
        if c.state == Failed {
          break;
        }
      }
    }

    /** `tcp_recv_cb` on a chain of buffers. */
    method TcpRecv(chain: seq<seq<byte>>)
      requires Valid()
      modifies Footprint()
      ensures Valid() && stream == old(stream) + Concat(chain)
      ensures OnlySlot(old(dl.ota.Map()), dl.ota.Map(), Other(dl.ota.slot))
    {
      var i := WalkChain(chain);
      ghost var tail := ConcatPrefix(chain, i);
      ConcatAssociates(old(stream), Concat(chain[..i]), tail);
      if i < |chain| {
        Skip(tail);
      } else {
        assert chain[..|chain|] == chain;
      }
    }

    /** `tcp_recv_cb` without a buffer: the peer closed. */
    method PeerClosed()
      requires Valid()
      modifies this`c
      ensures broken ==> c == old(c)
      ensures !broken ==> c == Close(Interpret(stream).ctx) && dl.Flowing(Interpret(stream).body)
    {
      if c.state == Body && (c.content_length == 0 || c.body_received == c.content_length) && c.status_ok {
        MarkComplete(Ok);
      } else if !c.complete {
        MarkComplete(if c.status_ok then ErrAborted else ErrStatus);
      }
    }
  }

  lemma BodySplits(s: seq<byte>, data: seq<byte>) returns (h: seq<byte>, r: seq<byte>)
    requires Interpret(s).ctx.state == Body
    ensures Interpret(s) == InBody(h, r) && Interpret(s + data) == InBody(h, r + data) && Buffered(s + data) == Buffered(s)
    ensures Interpret(s + data).ctx.hdr_len == Interpret(s).ctx.hdr_len
  {
    InterpretIs(s);
    var e := HeadEnd(s, 0);
    h, r := s[..e], s[e..];
    BodyGrows(s, data);
    InBodyIs(h, r);
    InBodyIs(h, r + data);
  }

  function Room(c: Ctx, data: seq<byte>): (n: int)
  {
    if c.content_length > 0 && |data| > c.content_length - c.body_received then c.content_length - c.body_received else |data|
  }

  /** How a segment of body moves the context on. */
  lemma BodyTaken(h: seq<byte>, r: seq<byte>, data: seq<byte>)
    requires InBody(h, r).ctx.state == Body && data != []
    ensures var (c, d) := (InBody(h, r).ctx, InBody(h, r + data).ctx);
      var take := Room(c, data);
      && InBody(h, r).body == r && c.body_received == |r| && !c.complete && 0 < take <= |data|
      && InBody(h, r + data).body == r + data[..take]
      && var e := c.(body_received := |r| + take);
        d == if 0 < c.content_length == |r| + take then Finish(e, if c.status_ok then Ok else ErrStatus) else e
  {
    InBodyIs(h, r);
    InBodyIs(h, r + data);
    var c := InBody(h, r).ctx;
    CutMore(r, data, c.content_length);
    assert |r + data| == |r| + |data|;
    assert c == Ctx(Body, |h|, StatusOk(h), ContentLength(h), |r|, ErrInternal, false);
  }

  lemma CutMore(r: seq<byte>, data: seq<byte>, len: nat)
    requires len == 0 || |r| < len
    ensures var take := if len > 0 && |data| > len - |r| then len - |r| else |data|;
      Cut(r, len) == r && Cut(r + data, len) == r + data[..take]
  {
  }

  lemma TakenAndRest(s: seq<byte>, data: seq<byte>, k: nat)
    requires k <= |data|
    ensures s + data == (s + data[..k]) + data[k..]
    ensures k == |data| ==> s + data[..k] == s + data
  {
  }

  /** Before the end of the head, the buffer holds the whole stream. */
  lemma HeadersCollect(s: seq<byte>, c: Ctx, buf: seq<byte>)
    requires c == Interpret(s).ctx && c.state == Headers && c.hdr_len <= |buf| && buf[..c.hdr_len] == Buffered(s)
    ensures Collecting(c, buf, s) && Interpret(s).body == []
  {
    InterpretIs(s);
  }

  // ---- The whole request -------------------------------------------------------------

  lemma ReceivedMore(events: seq<Net>, i: nat, s: seq<byte>)
    requires i < |events| && events[i].Segment? && s + Received(events[i..]) == Received(events)
    ensures (s + Concat(events[i].chain)) + Received(events[i + 1..]) == Received(events)
  {
  }

  /** The data events up to the first of another kind, or until the transfer is complete. */
  method TakeSegments(client: Client, events: seq<Net>) returns (i: nat)
    requires client.Valid() && client.stream == []
    modifies client.Footprint()
    ensures client.Valid() && i <= |events| && (client.c.complete || i == |events| || !events[i].Segment?)
    ensures client.stream + Received(events[i..]) == Received(events)
    ensures EndOf(events[i..]) == EndOf(events)
    ensures OnlySlot(old(client.dl.ota.Map()), client.dl.ota.Map(), Other(client.dl.ota.slot))
  {
    i := 0;
    while i < |events| && !client.c.complete && events[i].Segment?
      invariant i <= |events| && client.Valid()
      invariant client.stream + Received(events[i..]) == Received(events)
      invariant EndOf(events[i..]) == EndOf(events)
      invariant OnlySlot(old(client.dl.ota.Map()), client.dl.ota.Map(), Other(client.dl.ota.slot))
    {
      ReceivedMore(events, i, client.stream);
      client.TcpRecv(events[i].chain);
      assert events[i..][1..] == events[i + 1..];
      i := i + 1;
    }
  }

  /** What ends the request: a completed transfer, the event `e`, or the deadline, which aborts a connection there is. */
  method End(client: Client, e: Option<Net>)
    requires client.Valid() && (client.c.complete || e.None? || !e.value.Segment?)
    modifies client`c
    ensures client.dl.Sane()
    ensures client.broken ==> client.c.result == ErrAborted && client.dl.Stopped(Interpret(client.stream).body)
    ensures !client.broken ==>
      var c := Interpret(client.stream).ctx;
      && client.c.body_received == c.body_received == |Interpret(client.stream).body|
      && client.dl.Flowing(Interpret(client.stream).body)
      && if c.complete then client.c.result == c.result
         else match e {
           case Some(PeerClose) => client.c.result == Close(c).result
           case Some(NoConnection) => client.c.result == ErrConnect
           case Some(_) => client.c.result == ErrAborted
           case None => client.c.result == ErrAborted || client.c.result == ErrTimeout
         }
  {
    Unfinished(client.stream);
    if client.c.complete {
    } else if e.None? {
      var connected: bool := *;
      client.MarkComplete(if connected then ErrAborted else ErrTimeout);
    } else if e.value.PeerClose? {
      client.PeerClosed();
    } else {
      client.MarkComplete(if e.value.NoConnection? then ErrConnect else ErrAborted);
    }
  }

  /** Bytes that a request no longer looks at. */
  lemma Unread(client: Client, events: seq<Net>, i: nat)
    requires client.Valid() && i <= |events| && (client.c.complete || i == |events| || !events[i].Segment?)
    requires client.stream + Received(events[i..]) == Received(events)
    ensures if client.broken then |Interpret(client.stream).body| <= |Interpret(Received(events)).body|
      else Interpret(Received(events)) == Interpret(client.stream)
  {
    if client.broken {
      BodyStays(client.stream, Received(events[i..]));
    } else {
      if client.c.complete {
        SettledStays(client.stream, Received(events[i..]));
      } else {
        assert Received(events[i..]) == [];
        assert client.stream + [] == client.stream;
      }
    }
  }

  /** The request from the first byte of the response on. */
  method Serve(client: Client, events: seq<Net>)
    requires client.Valid() && client.stream == []
    modifies client.Footprint()
    ensures client.dl.Sane() && OnlySlot(old(client.dl.ota.Map()), client.dl.ota.Map(), Other(client.dl.ota.slot))
    ensures Outcome(client.c.result, events, client.dl.error)
    ensures client.dl.error ==> client.dl.Stopped(Interpret(Received(events)).body)
    ensures !client.dl.error ==>
      client.dl.Flowing(Interpret(Received(events)).body) && client.c.body_received == |Interpret(Received(events)).body|
  {
    var i := TakeSegments(client, events);
    Unread(client, events, i);
    var e := if i < |events| then Some(events[i]) else None;
    assert !client.c.complete ==> e == EndOf(events[i..]);
    End(client, e);
  }

  /**
   `http_get` over the events LwIP reports; when they run out the deadline passes. The result, and the body handed to
   the callback, depend on the received bytes and what ends the connection, not on how the bytes were cut into segments
   and chains. A chunk is refused exactly if flash refuses or the body does not fit the slot.
   */
  method HttpGet(dl: Download, events: seq<Net>) returns (r: Result, total: nat)
    requires dl.Flowing([])
    modifies dl.Footprint()
    ensures dl.Sane() && OnlySlot(old(dl.ota.Map()), dl.ota.Map(), Other(dl.ota.slot))
    ensures Outcome(r, events, dl.error)
    ensures dl.error <==>
      dl.ota.flash.refused > old(dl.ota.flash.refused) || |Interpret(Received(events)).body| > Ota.Limit(old(dl.ota.status))
    ensures !dl.error ==>
      dl.Flowing(Interpret(Received(events)).body) && total == |Interpret(Received(events)).body|
  {
    var client := new Client(dl);
    Serve(client, events);
    r, total := client.c.result, client.c.body_received;
  }
}
