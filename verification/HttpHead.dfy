/** The response header block: how http_get.c reads it, and what that reading means for a header a server writes. */
module HttpHead {
  import opened Bytes
  import opened CLib

  predicate AtCrlf(t: seq<byte>) { |t| >= 2 && t[0] == CR && t[1] == LF }

  /** `strstr(t, "\r\n")`. */
  function FromCrlf(t: seq<byte>): (r: Option<seq<byte>>)
    ensures r.Some? ==> AtCrlf(r.value) && |r.value| <= |t|
  {
    if t == [] then None else if AtCrlf(t) then Some(t) else FromCrlf(t[1..])
  }

  // ---- What the header says ----------------------------------------------------------

  function Lower(c: byte): byte { if 65 <= c <= 90 then c + 32 else c }

  const CONTENT_LENGTH: seq<byte> := [99, 111, 110, 116, 101, 110, 116, 45, 108, 101, 110, 103, 116, 104, 58]
  const HTTP_1: seq<byte> := [72, 84, 84, 80, 47, 49, 46]

  predicate CiStartsWith(t: seq<byte>, prefix: seq<byte>) {
    |t| >= |prefix| && forall i :: 0 <= i < |prefix| ==> Lower(t[i]) == Lower(prefix[i])
  }

  /** Letter `p` in either case; any other character as it is. */
  predicate InEitherCase(c: byte, p: byte) { c == p || (97 <= p <= 122 && c == p - 32) }

  /** `t` starts with the lower-case text `prefix`, each letter in either case. */
  predicate StartsInEitherCase(t: seq<byte>, prefix: seq<byte>) {
    |t| >= |prefix| && forall i :: 0 <= i < |prefix| ==> InEitherCase(t[i], prefix[i])
  }

  predicate NoUpper(t: seq<byte>) { forall i :: 0 <= i < |t| ==> !(65 <= t[i] <= 90) }

  predicate NamesLength(t: seq<byte>) { StartsInEitherCase(t, CONTENT_LENGTH) }

  lemma NamesSpelled()
    ensures Spells(CONTENT_LENGTH, "content-length:") && Spells(HTTP_1, "HTTP/1.")
  {
  }

  lemma LowerMeans(c: byte, p: byte)
    requires !(65 <= p <= 90)
    ensures Lower(c) == Lower(p) <==> InEitherCase(c, p)
  {
  }

  /** The prefix test finds a lower-case text in any letter case, and nothing else. */
  lemma FoundInAnyCase(t: seq<byte>, prefix: seq<byte>)
    requires NoUpper(prefix)
    ensures CiStartsWith(t, prefix) <==> StartsInEitherCase(t, prefix)
  {
    forall i | 0 <= i < |prefix| && i < |t|
      ensures Lower(t[i]) == Lower(prefix[i]) <==> InEitherCase(t[i], prefix[i])
    {
      LowerMeans(t[i], prefix[i]);
    }
  }

  lemma NameFound(t: seq<byte>)
    ensures CiStartsWith(t, CONTENT_LENGTH) <==> NamesLength(t)
  {
    FoundInAnyCase(t, CONTENT_LENGTH);
  }

  /** The length so far, after looking at the line at the front of `t`. */
  function LengthAt(t: seq<byte>, acc: nat): nat {
    if CiStartsWith(t, CONTENT_LENGTH) then Strtoul(SkipWs(t[15..])) else acc
  }

  /** The last Content-Length among the lines of `t` before its first empty line. */
  function LengthFrom(t: seq<byte>, acc: nat): nat
    decreases |t|
  {
    if t == [] || AtCrlf(t) then acc
    else
      var next := FromCrlf(t);
      if next.Some? then LengthFrom(next.value[2..], LengthAt(t, acc)) else LengthAt(t, acc)
  }

  function ContentLength(h: seq<byte>): nat {
    var next := FromCrlf(CString(h, 0));
    if next.Some? then LengthFrom(next.value[2..], 0) else 0
  }

  predicate StatusOk(h: seq<byte>) {
    && |h| >= 12 && h[..7] == HTTP_1
    && var sp := FromByte(CString(h, 0), SPACE);
      sp.Some? && 200 <= Atoi(sp.value[1..]) < 300
  }

  // ---- The code ------------------------------------------------------------------

  /** `ci_starts_with`. */
  method CiStarts(t: seq<byte>, prefix: seq<byte>) returns (yes: bool)
    ensures yes == CiStartsWith(t, prefix)
    ensures NoUpper(prefix) ==> (yes <==> StartsInEitherCase(t, prefix))
  {
    if NoUpper(prefix) {
      FoundInAnyCase(t, prefix);
    }
    var i := 0;
    while i < |prefix|
      invariant i <= |prefix| && i <= |t|
      invariant forall j :: 0 <= j < i ==> Lower(t[j]) == Lower(prefix[j])
    {
      if i == |t| || Lower(t[i]) != Lower(prefix[i]) {
        return false;
      }
      i := i + 1;
    }
    yes := true;
  }

  /** The blank skip and the number of a Content-Length line. */
  method ReadLength(t: seq<byte>) returns (n: nat)
    requires |t| >= 15
    ensures n == Strtoul(SkipWs(t[15..]))
  {
    var v := t[15..];
    while v != [] && IsWs(v[0])
      invariant SkipWs(v) == SkipWs(t[15..])
      decreases |v|
    {
      v := v[1..];
    }
    n := Strtoul(v);
  }

  /** `parse_response_headers` on the header bytes, which the code terminates with a NUL. */
  method ParseResponseHeaders(h: seq<byte>) returns (status_ok: bool, content_length: nat)
    ensures status_ok == StatusOk(h) && content_length == ContentLength(h)
  {
    var text := CString(h, 0);
    status_ok := false;
    if |h| >= 12 && h[..7] == HTTP_1 {
      var sp := FromByte(text, SPACE);
      if sp.Some? {
        var code := Atoi(sp.value[1..]);
        status_ok := 200 <= code < 300;
      }
    }
    var line := FromCrlf(text);
    content_length := 0;
    while line.Some?
      invariant line.Some? ==> AtCrlf(line.value)
      invariant ContentLength(h) == if line.Some? then LengthFrom(line.value[2..], content_length) else content_length
      decreases if line.Some? then |line.value| else 0
    {
      var at := line.value[2..];
      if at == [] || AtCrlf(at) {
        break;
      }
      var is_length := CiStarts(at, CONTENT_LENGTH);
      if is_length {
        content_length := ReadLength(at);
      }
      line := FromCrlf(at);
    }
  }
}
