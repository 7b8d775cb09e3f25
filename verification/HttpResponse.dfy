/** What a transfer delivers and when it succeeds, for any stream and for the responses a server writes. */
module HttpResponse {
  import opened Bytes
  import opened CLib
  import opened HttpHead
  import opened HttpMessage
  import opened HttpStream

  /** `Ok` exactly for a 2xx head within the header buffer, followed by a whole body; a nonzero Content-Length is never exceeded. */
  lemma OkMeans(s: seq<byte>)
    ensures var e := HeadEnd(s, 0);
      Final(s) == Ok <==>
        && e <= |s| && e <= 512 && StatusOk(s[..e])
        && (ContentLength(s[..e]) == 0 || ContentLength(s[..e]) <= |s| - e)
    ensures var c := Interpret(s).ctx;
      (c.content_length > 0 ==> c.body_received <= c.content_length) && c.body_received == |Interpret(s).body|
  {
    InterpretIs(s);
  }

  /** Every other result after a close: too short a body after a 2xx head, or no such head at all. */
  lemma FailureMeans(s: seq<byte>)
    ensures var e := HeadEnd(s, 0);
      var good := e <= |s| && e <= 512 && StatusOk(s[..e]);
      && (Final(s) == ErrAborted <==> good && |s| - e < ContentLength(s[..e])) && (Final(s) == ErrStatus <==> !good)
    ensures var c := Interpret(s).ctx; c.complete ==> c.result == Final(s)
    ensures HeadEnd(s, 0) > 512 && |s| > 512 ==> Interpret(s).ctx.state == Failed && Interpret(s).ctx.result == ErrParse
  {
    InterpretIs(s);
  }

  lemma EndsLater(a: seq<byte>, b: seq<byte>, n: nat)
    requires |a| + 4 <= n <= |a + b|
    ensures EndsHead(a + b, n) == EndsHead(b, n - |a|)
  {
  }

  lemma NoCrBefore(a: seq<byte>, b: seq<byte>, n: nat)
    requires Clean(a) && 4 <= n < |a| + 4 && n <= |a + b|
    ensures !EndsHead(a + b, n)
  {
  }

  /** The fields after a line break contain no earlier end of head. */
  lemma {:induction false} FieldsEnd(fs: seq<Field>)
    requires forall f :: f in fs ==> GoodField(f)
    ensures IsHeadEnd(CRLF + Fields(fs), |CRLF + Fields(fs)|)
  {
    if fs != [] {
      var (l, w) := (Line(fs[0]), CRLF + Fields(fs[1..]));
      FieldsEnd(fs[1..]);
      LineClean(fs[0]);
      ConcatAssociates(CRLF, l, w);
      OneMoreLine(l, w);
    }
  }

  lemma OneMoreLine(l: seq<byte>, w: seq<byte>)
    requires Clean(l) && l != [] && IsHeadEnd(w, |w|)
    ensures var v := (CRLF + l) + w; IsHeadEnd(v, |v|)
  {
    var v := (CRLF + l) + w;
    forall n | 0 <= n < |v| ensures !EndsHead(v, n) {
      if n >= 4 {
        LineEnd(l, w, n);
      }
    }
    EndsLater(CRLF + l, w, |v|);
  }

  lemma LineEnd(l: seq<byte>, w: seq<byte>, n: nat)
    requires Clean(l) && l != [] && 4 <= n < |CRLF + l + w| && IsHeadEnd(w, |w|)
    ensures !EndsHead((CRLF + l) + w, n)
  {
    var v := (CRLF + l) + w;
    if n - 4 >= |l| + 2 {
      EndsLater(CRLF + l, w, n);
      assert !EndsHead(w, n - |l| - 2);
    } else if n == 4 {
      assert v[2] == l[0];
    } else if n == 5 {
      assert v[1] == LF;
    } else {
      assert v[n - 4] == l[n - 6];
    }
  }

  lemma HeadEnds(minor: byte, code: nat, reason: seq<byte>, fs: seq<Field>, body: seq<byte>)
    requires GoodHead(minor, reason, fs)
    ensures var h := Head(minor, code, reason, fs); HeadEnd(h + body, 0) == |h|
  {
    var h := Head(minor, code, reason, fs);
    var (s, v) := (StatusLine(minor, code, reason), CRLF + Fields(fs));
    HeadIs(minor, code, reason, fs);
    StatusLineClean(minor, code, reason);
    FieldsEnd(fs);
    forall n | 0 <= n < |h| ensures !EndsHead(h, n) {
      if 4 <= n < |s| + 4 {
        NoCrBefore(s, v, n);
      } else if n >= 4 {
        EndsLater(s, v, n);
      }
    }
    EndsLater(s, v, |h|);
    HeadEndIs(h, |h|);
    HeadStays(h, body);
  }

  /**
   A response as a server writes it, whose head fits the header buffer: the callback gets the body, cut at a nonzero
   Content-Length, and the transfer succeeds exactly when the code is 2xx and the body is whole (section 6.3 of
   RFC 9112, the Content-Length and connection-close cases). Another code is a status error, a short body an abort.
   */
  lemma ResponseReads(minor: byte, code: nat, reason: seq<byte>, fs: seq<Field>, body: seq<byte>)
    requires GoodHead(minor, reason, fs) && |Head(minor, code, reason, fs)| <= 512
    ensures var s := Head(minor, code, reason, fs) + body;
      var len := LastLength(fs, 0);
      && Interpret(s).body == (if len == 0 || |body| <= len then body else body[..len])
      && Final(s) == if !(200 <= code < 300) then ErrStatus else if len == 0 || len <= |body| then Ok else ErrAborted
  {
    var h := Head(minor, code, reason, fs);
    var s := h + body;
    HeadEnds(minor, code, reason, fs, body);
    HeadReads(minor, code, reason, fs);
    assert s[..|h|] == h && s[|h|..] == body;
    OkMeans(s);
    FailureMeans(s);
    InterpretIs(s);
  }
}
