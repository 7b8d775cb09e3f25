/** `ota download` (src/cli/commands/cmd_ota.c), from the HTTP response to the staged and verified image. */
module CmdOta {
  import opened Bytes
  import opened FlashMap
  import opened Hex
  import opened HttpStream
  import opened Metadata
  import Http
  import Ota
  import Sha256

  datatype Code = CliOk | CliErrArg | CliErrHardware

  /** The slot holds exactly `body`, blank to its end, and the module knows its size and its SHA-256. */
  ghost predicate Downloaded(u: Ota.Updater, body: seq<byte>)
    requires u.flash.Valid()
    reads u, u.flash.mem
  {
    && Ota.HoldsImage(u.Staging(), body) && u.status.image_ready && !u.status.update_in_progress
    && u.status.bytes_written == |body| && u.status.computed_sha256 == Sha256.Digest(body)
  }

  /**
   The transfer and `ota_finalize`. However the response was cut: it gets past `ota_finalize` exactly if the response
   arrives whole, its body fits and flash refuses nothing; then the slot holds the body. Otherwise no image is ready.
   */
  method Fetch(u: Ota.Updater, events: seq<Net>) returns (past: bool)
    requires u.Valid() && u.status.update_in_progress && u.history == Ota.History([], [], false, false)
    requires u.status.bytes_written == 0
    modifies u, u.flash, u.flash.mem, u.sha, u.sha.state, u.sha.buf, u.page_buf
    ensures u.Valid() && OnlySlot(old(u.Map()), u.Map(), Other(u.slot))
    ensures past <==>
      Arrives(events) && |Interpret(Received(events)).body| <= Ota.Limit(old(u.status)) && u.flash.refused == old(u.flash.refused)
    ensures past ==> Downloaded(u, Interpret(Received(events)).body)
    ensures !past ==> !u.status.image_ready
  {
    var dl := new Http.Download(u);
    var hr, total := Http.HttpGet(dl, events);
    OutcomeOk(hr, events, dl.error);
    if hr != HttpStream.Ok || dl.error {
      u.Abort();
      return false;
    }
    var r := u.Finalize();
    past := r == Ota.Ok;
  }

  /** What `wifi_is_connected` says before `ota_begin`, after it, and after an attempt to get the link back. */
  datatype Link = Link(before: bool, after: bool, again: bool)

  predicate Up(link: Link) { link.before && (link.after || link.again) }

  /** Up to the request: the link, `ota_begin`, and the link again, with one attempt to get it back. */
  method Start(u: Ota.Updater, link: Link) returns (ok: bool)
    requires u.Valid()
    modifies u, u.flash, u.flash.mem, u.sha, u.sha.state
    ensures u.Valid() && OnlySlot(old(u.Map()), u.Map(), Other(u.slot)) && u.flash.refused >= old(u.flash.refused)
    ensures ok <==> Up(link) && !old(u.status.update_in_progress) && u.flash.refused == old(u.flash.refused)
    ensures ok ==>
      && u.status.update_in_progress && u.status.bytes_written == 0 && u.history == Ota.History([], [], false, false)
      && Ota.Limit(u.status) == SLOT_SIZE
    ensures !ok ==> !u.status.image_ready || u.status == old(u.status)
  {
    ok := link.before;
    if !ok {
      return;
    }
    var r := u.Begin(0);
    if r != Ota.Ok {
      return false;
    }
    ok := link.after;
    if !ok {
      ok := link.again;
      if !ok {
        u.Abort();
      }
    }
  }

  /**
   `cmd_download`; `sha_hex` is empty when no digest was given. `past`: `ota_finalize` succeeded, which it does exactly if
   the digest, if given, is one, the link is up, no update is in progress, the response arrives whole and fits the slot,
   and flash refuses nothing. Then the image is ready, also when its digest is not the one given. Otherwise no image is
   ready, or the module is as it was.
   */
  method CmdDownload(u: Ota.Updater, sha_hex: seq<byte>, link: Link, events: seq<Net>) returns (code: Code, ghost past: bool)
    requires u.Valid()
    modifies u, u.flash, u.flash.mem, u.sha, u.sha.state, u.sha.buf, u.page_buf
    ensures u.Valid() && OnlySlot(old(u.Map()), u.Map(), Other(u.slot))
    ensures past <==>
      && (sha_hex == [] || OfHex(sha_hex).Some?) && Up(link) && !old(u.status.update_in_progress)
      && Arrives(events) && |Interpret(Received(events)).body| <= SLOT_SIZE && u.flash.refused == old(u.flash.refused)
    ensures past ==> Downloaded(u, Interpret(Received(events)).body)
    ensures !past ==> !u.status.image_ready || u.status == old(u.status)
    ensures code == CliOk <==>
      past && (sha_hex == [] || OfHex(sha_hex) == Some(Sha256.Digest(Interpret(Received(events)).body)))
    ensures code == CliErrArg <==> sha_hex != [] && OfHex(sha_hex) == None
  {
    past := false;
    var expected := None;
    if sha_hex != [] {
      expected := ParseHex(sha_hex);
      if expected.None? {
        return CliErrArg, past;
      }
    }
    var ok := Start(u, link);
    if !ok {
      return CliErrHardware, past;
    }
    var fetched := Fetch(u, events);
    past := fetched;
    if !fetched {
      return CliErrHardware, past;
    }
    if expected.Some? {
      var v := u.Verify(expected.value);
      if v != Ota.Ok {
        return CliErrHardware, past;
      }
    }
    code := CliOk;
  }
}
