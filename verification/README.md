# Pico W terminal firmware: verified model

This project models the parts of the firmware that decide what is kept, what is booted and what is run, in the form
the C code has: buffers and flash are arrays, static variables are class fields, loops are loops, and every such method
is proved against a specification whose own properties are proved as lemmas.

**Dual-slot update.** `Flash` is NOR flash: erasing sets bytes to 0xFF, programming can only clear bits, and each
`flash_safe_execute` may refuse; refusals are counted, so that every failure of a storing operation is tied to one.
`Crc32` is the bit-serial checksum and what it detects (over the bit-vector algebra of `ShiftRegister`); `Sha256` is
the streaming hash against sections 5.1.1, 6.2 and 4.1 of FIPS 180-4, and `Sha256Example` pins that specification to
the roots its constants are cut from and to the published digest of "abc". `Metadata` is the boot record and its
sector, `Bootloader` the boot decision, `Ota` the staging writer with its page buffer and running hash. `BootSystem`
is the transition system of both together, and `Refinement` shows that every session of the code is one of its runs.
`HttpHead`, `HttpMessage`, `HttpStream`, `HttpResponse` and `Http` are the download; `CmdOta` joins it to the writer,
end to end.

**Shell.** `Parser` is the in-place tokenizer, `Vars`, `ShellState` and `Expand` the variables, positional frames and
expansion into the shared 512-byte buffer, and `Shell` the interpreter with `if`, `while`, `repeat`, `run` and `set`.
`ShellMeaning` says what a command means, as the tree of commands it dispatches and their results, and which handlers
such a tree runs in which order; the interpreter keeps a trace of the script lines dispatched and the handlers that
returned. `ShellRun` and `ShellBound` hold the relation every command keeps and the bound on what it can reach. An
argument vector is a sequence of offsets into the buffer, so that `set` and every dispatched line change the strings
behind it. `ScriptText` cuts scripts into lines, `Capture` and `Terminal` go from typed bytes to a stored script and
to the lines that are dispatched when it runs.

**Flash tables.** `SlotTable` is the bounded map that `Vars` and `Scripts` share; `ScriptSlot` is the flash image of a
script. `Bindings` is the GPIO table with its interrupt handler and pump, interrupts coming between any two steps of
the pump and any two stores of an installation, and `BindRecord` its stored form.

`Bytes`, `CLib`, `Hex` and `Lengths` hold what all of these need: words as bytes, C strings, numbers in decimal and in
binary.

Conventions. A pointer is an offset. Sizes are unbounded integers: every size here is bounded by a buffer or by flash,
so `offset + len` cannot wrap. Words that do wrap are bit vectors (`bv32`) or are reduced modulo 2^32 where the code
reduces them. A flash operation that fails leaves flash as it was; power is lost between an erase and a program. What
the code reads from outside - flash refusals, the network, the Wi-Fi link, handlers of other commands - is arbitrary.
`atoi` and `strtoul` saturate as newlib's do. Parameters named `countdown` have no meaning; a default argument of that
name only keeps the verifier from expanding a definition.

Where the code and its comments differ, the model follows the code: the last edge time of a binding is compared modulo
2^32 milliseconds, so an edge may be refused although the last one is long past, and before any edge was accepted the
reference is 0, so the first edge is refused within the debounce time of boot (`Bindings.AcceptedWhen`), although the
handler's comment speaks only of bursts; a Content-Length of 0 is taken as no Content-Length; and a Content-Length
without digits on its line takes its number from the text behind the line break, which `strtoul` skips.

Facts of the code that the theorems respect: a digest mismatch does not clear `image_ready`; an erase failure in a
second `ota_begin` leaves `image_ready` set (`History.stale`); after a failed page program the hash and
`bytes_written` have already advanced (`History.lost`); nothing stops `ota_begin` during probation; without a valid
record only slot A is tried (`BootSystem.TornApply` says exactly when a torn apply comes back to the slot that ran);
an edge between `last_fired_ms = 0` and `pending = false` in `bindings_add` is accepted, sets the reference time and
is then lost (`Bindings.DroppedAreLost`), and one that comes earlier in the installation leaves nothing behind; a
`run` reads its script from flash as it goes, so a script that replaces or removes itself changes the lines still to
come; a request that meets its deadline reports `HTTP_ERR_ABORTED` in place of a timeout when aborting its connection
calls the error callback, since the first result stays; a header that overflows sets `HTTP_ERR_PARSE`, but the close
that follows replaces it by a status error (`HttpResponse.FailureMeans`); `cli_reset` leaves capture mode but not the
capture, so that a shell that is disconnected during `script save` blocks every later capture until the next boot
(`Terminal.OrphanStays`).

## Model

| member | source | states |
|---|---|---|
| Crc32.PicoOtaCrc32 | picow-ota/src/crc32.c:6-17 | the bit-serial loop computes the CRC-32 that the lemmas below are about |
| Crc32.TableDriven | picow-ota/src/crc32.c:6-17 | that CRC is the one of the table-driven code in section 8 of RFC 1952 |
| Crc32.BurstDetected | picow-ota/src/crc32.c:6-17 | equal-length messages that differ only inside four consecutive bytes have different checksums |
| Crc32.SelfCheckBurst | picow-ota/src/crc32.c:6-17 | of two records that carry their own checksum, neither differs from the other only inside four consecutive bytes, the checksum field included |
| Crc32.CheckValue | picow-ota/src/crc32.c:6-17 | the checksum of the digits 1 to 9 is 0xCBF43926, the usual check value of this CRC-32 |
| Sha256.Transform | picow-ota/src/sha256.c:24-56 | one block, in place, is one step of the FIPS 180-4 compression of section 6.2 |
| Sha256.Context.Init | picow-ota/src/sha256.c:58-66 | starts the hash of the empty message |
| Sha256.Context.Update | picow-ota/src/sha256.c:68-96 | the message hashed so far grows by the data, however buffered: state is the fold over full blocks, the buffer holds the rest |
| Sha256.Context.Final | picow-ota/src/sha256.c:98-122 | the digest of the whole message, padded as in section 5.1.1 |
| Sha256.OneShot | picow-ota/src/sha256.c:124-129 | the one-shot form gives the same digest |
| Sha256.InChunks | picow-ota/src/sha256.c:68-122 | any split of a message into updates gives the digest of the whole |
| Sha256Example.RoundConstantsAre | picow-ota/src/sha256.c:7-18 | round constant t is the first 32 bits of the fractional part of the cube root of prime t, for all 64 |
| Sha256Example.InitialHashIs | picow-ota/src/sha256.c:58-66 | the initial hash value is cut from the square roots of the first eight primes |
| Sha256Example.ChIs | picow-ota/src/sha256.c:45 | the choice function takes the bit of its second word where the first has a one, and that of the third elsewhere |
| Sha256Example.MajIs | picow-ota/src/sha256.c:48 | the majority function has a one where at least two of its three words have one |
| Sha256Example.AbcDigest | picow-ota/src/sha256.c:24-129 | the digest of "abc" is the published one, through padding, schedule and all 64 rounds |
| Sha256.Equal | picow-ota/src/sha256.c:151-158 | the constant-time comparison is equality |
| Hex.ParseHex | picow-ota/src/sha256.c:140-149 | accepts exactly 64 hexadecimal digits, either case, and gives the 32 bytes they stand for |
| Hex.HexReads | picow-ota/src/sha256.c:133-149 | a digest written as two digits for each byte, high nibble first, each small or capital, is read as that digest |
| Hex.HexAccepts | picow-ota/src/sha256.c:133-149 | nothing else is accepted |
| Hex.DigitsSpelled | picow-ota/src/sha256.c:161 | the digits are 0 to 9 and a to f, in order |
| Hex.CapitalsSpelled | picow-ota/src/sha256.c:133-138 | the capital digits are 0 to 9 and A to F, in order |
| Hex.FormatHex | picow-ota/src/sha256.c:160-167 | two digits for each byte, high nibble first |
| Hex.HexRoundTrip | picow-ota/src/sha256.c:133-167 | a digest is printed in small letters, and printed and parsed again is the same digest |
| Flash.ProgramBlank | picow-ota/src/ota.c:43-71 | programming erased flash stores the data |
| Flash.ProgramClears | picow-ota/src/ota.c:43-71 | programming leaves on exactly the bits that were on and are on in the data, in its range, and turns none on |
| Flash.EraseSets | picow-ota/src/ota.c:43-57 | an erase sets every byte of its range to 0xFF, and no other |
| FlashMap.RegionsDisjoint | picow-ota/include/pico_ota/metadata.h:19-27 | bootloader, slots, metadata, scripts, bindings and configuration are pairwise disjoint, in flash and sector-aligned |
| FlashMap.RegionsStart | picow-ota/include/pico_ota/metadata.h:19-27 | the addresses that the sizes in the header come to, and those of scripts, bindings and configuration |
| FlashMap.EraseInSlot | picow-ota/src/ota.c:169-173 | an erase inside one slot changes no byte outside that slot |
| FlashMap.ProgramInSlot | picow-ota/src/ota.c:204-207 | a program inside one slot changes no byte outside that slot |
| Metadata.DecodeEncode | picow-ota/src/ota.c:75-95 | a record written reads back as itself |
| Metadata.EncodeDecode | picow-ota/src/ota.c:75-82 | the only bytes accepted are encodings of the record read from them |
| Metadata.BodyParts | picow-ota/include/pico_ota/metadata.h:31-50 | magic, version and every field of a record stand at the byte offsets of the packed structure |
| Metadata.BurstRejected | picow-ota/bootloader/main.c:35-57 | a stored record changed only inside four consecutive bytes is rejected |
| Metadata.WipedReads | picow-ota/src/ota.c:84-95 | between erase and program there is no record, and nothing outside the sector has changed |
| Metadata.WrittenReads | picow-ota/src/ota.c:84-95 | after both the record reads back, and nothing outside the sector has changed |
| Metadata.ReadMetadata | picow-ota/bootloader/main.c:35-43 | finds a record exactly when magic, version and checksum agree, and then that record |
| Bootloader.WriteMetadata | picow-ota/bootloader/main.c:45-57 | only the stored record changes, and it becomes the given one |
| Bootloader.VectorsTaken | picow-ota/bootloader/main.c:94-101 | a slot looks valid exactly when the stack pointer 256 bytes into it, little-endian, lies in the 264 KB of SRAM and the entry behind it is a Thumb address in the 2 MB of flash |
| Bootloader.BlankNotTaken | picow-ota/bootloader/main.c:78-82 | an erased slot does not look valid |
| Bootloader.JumpToSlot | picow-ota/bootloader/main.c:70-90 | control reaches the slot exactly when it looks valid, and the USB loader otherwise |
| Bootloader.BootActive | picow-ota/bootloader/main.c:142-163 | the active slot, or the other one with a record rewritten to name it, or the USB loader |
| Bootloader.BootMain | picow-ota/bootloader/main.c:103-165 | from any flash contents, the outcome and the record left behind are those of the decision, which `BootSystem.FirstBoot`, `TrialBoots`, `ThreeAttempts` and `SettledStep` pin down; nothing else changes; what flash holds once the attempt is counted, and between erase and program of a record |
| BootSystem.BootJumps | picow-ota/bootloader/main.c:103-165 | a boot that jumps leaves a well-formed record naming the slot, which looks valid |
| BootSystem.StepKeeps | picow-ota/src/ota.c:84-113 | every step, failed, torn or cut short by a power loss, keeps the stored record well formed and naming the running slot |
| BootSystem.RunKeeps | picow-ota/src/ota.c:84-302 | so does every run: active slot 0 or 1, at most 3 attempts, none off probation |
| BootSystem.RunJumps | picow-ota/bootloader/main.c:103-165 | whenever a bootloader entry of a run jumps, flash holds a well-formed record naming that slot, and it looks valid |
| BootSystem.ApplyStartsTrial | picow-ota/src/ota.c:264-287 | an apply that succeeds makes the other slot active, on probation with no attempts counted, and puts size and digest into that slot's fields and no other |
| BootSystem.TrialBoots | picow-ota/bootloader/main.c:125-163 | each complete boot of a trial counts down by exactly one, or is back in the old slot |
| BootSystem.TrialCut | picow-ota/bootloader/main.c:138-157 | a boot that loses power after the count write and before any other uses up one attempt and nothing else |
| BootSystem.Rollback | picow-ota/bootloader/main.c:125-163 | without confirm, begin or torn write, the new slot is entered at most three times and within five complete entries control is back in the old slot, off probation, however many entries lose power after the count write |
| BootSystem.ThreeAttempts | picow-ota/bootloader/main.c:125-157 | a sound new slot gets exactly three attempts: as long as there were at most three entries, complete or cut, each complete one entered it, and once the trial is over entries of it and cuts make three |
| BootSystem.ConfirmSettles | picow-ota/src/ota.c:289-301 | a confirm that succeeds settles the record on the running slot |
| BootSystem.ConfirmedStays | picow-ota/bootloader/main.c:125-163 | from then on every boot enters that slot, whatever is staged, fails or is reset, until an apply |
| BootSystem.FirstBoot | picow-ota/bootloader/main.c:107-121 | the first boot without a record, with a plausible image in slot A, settles on slot A: off probation, no attempts, no image described |
| BootSystem.FirstBootStays | picow-ota/bootloader/main.c:103-165 | on a board without a record every boot enters slot A, whatever is staged, fails or is reset, until an apply |
| BootSystem.FirstInit | picow-ota/src/ota.c:123-142 | the first initialisation without a record settles on the running slot, when its write succeeds |
| BootSystem.InitAgrees | picow-ota/src/ota.c:123-142 | after an initialisation, however its write ends, probation and attempts in RAM are those of the record left in flash |
| BootSystem.BootFallsBack | picow-ota/bootloader/main.c:142-163 | when the active slot does not look valid and the other one does, the other one is entered and the record settles on it |
| BootSystem.BootStops | picow-ota/bootloader/main.c:125-163 | when neither looks valid the boot ends in the USB loader, except that a trial whose attempts are used up is first recorded as over |
| BootSystem.TornBoot | picow-ota/bootloader/main.c:107-123 | without a record slot A is entered if it looks valid, and nothing else is tried |
| BootSystem.TornApply | picow-ota/bootloader/main.c:107-123 | power lost inside an apply comes back to the slot that ran if and only if it was slot A |
| Ota.Updater.Begin | picow-ota/src/ota.c:160-184 | results and new status; an I/O error exactly if flash refuses; on success the staging slot is blank and nothing is staged; only that slot changes |
| Ota.LimitIs | picow-ota/src/ota.c:190 | the limit on an update is its announced size, or the 768 KB of a slot |
| Ota.Updater.Write | picow-ota/src/ota.c:186-214 | accepts data exactly at the next offset and within the limit, and fails with an I/O error exactly if flash refuses; pages, then the page buffer, are all staged bytes, the rest of the slot is blank; no page is programmed twice after its erase; what a failed program leaves; only the staging slot changes |
| Ota.Updater.Finalize | picow-ota/src/ota.c:216-234 | the slot holds exactly what was staged, blank to its end, and the digest is that of all hashed bytes; fails exactly if flash refuses the last page, and then nothing changes |
| Ota.Updater.Abort | picow-ota/src/ota.c:236-247 | the update is over and flash is untouched |
| Ota.Updater.Verify | picow-ota/src/ota.c:251-256 | agrees exactly when the expected digest is SHA-256 of the hashed bytes |
| Ota.Updater.WriteRecord | picow-ota/src/ota.c:84-95 | the new record, the old one, or none, by how the write ends, and it fails exactly if flash refuses; flash without a record in between; only the metadata sector changes |
| Ota.Updater.Init | picow-ota/src/ota.c:123-154 | status from the stored record, or a fresh record naming the running slot, whose write fails exactly if flash refuses; in every case probation and attempts of the status are those of the record left in flash, and no update is on |
| Ota.Updater.Apply | picow-ota/src/ota.c:264-287 | records the other slot as active on probation with the staged size and digest, and the running slot's entry kept; reboots unless flash refuses or no image is ready |
| Ota.Updater.ConfirmImage | picow-ota/src/ota.c:289-301 | clears probation in flash and then in RAM, unless flash refuses, and nothing when there is nothing to clear |
| Ota.AppliedDescribes | picow-ota/src/ota.c:264-273 | unless a page program failed or a later begin did, the new entry is the size and SHA-256 of exactly the image the slot holds, and the other entry stays |
| Refinement.RunBootloader | picow-ota/bootloader/main.c:103-165 | one run of the bootloader's code is one boot step of the transition system; what flash holds once the attempt is counted is one cut step, and between erase and program of a record one torn step; bootloader and what lies behind the metadata stay |
| Refinement.ServeStaging | picow-ota/src/ota.c:160-234 | begin, write and finalize, whatever flash refuses, are steps of their own kind |
| Refinement.ServeApply | picow-ota/src/ota.c:264-287 | so is apply, which reboots or returns; losing power between erase and program is the step with that fault |
| Refinement.ServeConfirm | picow-ota/src/ota.c:289-301 | so is confirm, with the same of a power loss |
| Refinement.Live | picow-ota/src/ota.c:123-301 | every session of boots, resets and calls is a run of the transition system whose events answer the session's operations one by one, from the flash it was given to the state the board is in; bootloader and what lies behind the metadata stay; if flash refuses nothing, every apply records size and digest of the one image staged |
| Refinement.SessionJumps | picow-ota/bootloader/main.c:103-165 | in every session, whenever power-up starts an application, flash holds a well-formed record naming its slot, which looks valid |
| Refinement.SessionRollback | picow-ota/bootloader/main.c:125-163 | in every session, after an apply that rebooted from a sound slot, and neither begin nor confirm, the new slot is entered at most three times and five boots bring control back |
| Refinement.SessionDescribes | picow-ota/src/ota.c:264-273 | in a session in which flash refuses nothing, whenever the new slot is entered on trial, the record's size and SHA-256 are those of the one image the slot holds |
| Refinement.SessionConfirmed | picow-ota/src/ota.c:289-301 | in every session, after a confirm that took effect while its slot looked valid, and no apply, every power-up enters that slot |
| HttpHead.CiStarts | src/network/http_get.c:107-115 | a lower-case prefix is matched character by character, each letter in either case and every other character as it is |
| HttpHead.FoundInAnyCase | src/network/http_get.c:107-115 | lowering both sides, as the code does, decides exactly that |
| HttpHead.NamesSpelled | src/network/http_get.c:122-137 | the texts looked for are "content-length:" and "HTTP/1." |
| CLib.NumbersRead | src/network/http_get.c:125-140 | `atoi` and `strtoul` of white space, a sign, a decimal number and anything else: the number, negated or modulo 2^32 after a minus, saturating |
| CLib.DigitsAre | src/network/http_get.c:125-140 | the digits are the characters 0 to 9 in order, and nothing else has a digit value |
| CLib.NumberMore | src/network/http_get.c:125-140 | one more digit behind a number makes it ten times as much and that digit more |
| HttpHead.ParseResponseHeaders | src/network/http_get.c:117-144 | the status verdict, and the last Content-Length before the first empty line, of any header bytes |
| HttpMessage.HeadReads | src/network/http_get.c:117-144 | from a head as a server writes it, the client reads a 2xx code or not and the last Content-Length, each letter of whose name may be in either case, with any blanks before the number; a field with any other name is none |
| HttpStream.CompleteStays | src/network/http_get.c:250-299 | whatever follows a complete transfer is ignored |
| HttpStream.BodyGrows | src/network/http_get.c:262-287 | once the head is read, more bytes are more body |
| HttpResponse.OkMeans | src/network/http_get.c:229-299 | success exactly for a 2xx head within 512 bytes and a whole body; the body received never exceeds a nonzero Content-Length |
| HttpResponse.HeadEnds | src/network/http_get.c:150-171 | the end of a written head is found exactly where the head ends |
| HttpResponse.ResponseReads | src/network/http_get.c:117-299 | for a response as a server writes it, the callback gets the body cut at a nonzero Content-Length, and the result is success exactly when it is 2xx and whole, an abort when it is 2xx and too short, and a status error otherwise |
| HttpResponse.FailureMeans | src/network/http_get.c:232-248 | of any stream that is closed, the result is an abort exactly for a body too short after a 2xx head, and a status error exactly without such a head within 512 bytes, an overflowed header included |
| Http.Download.OnChunk | src/cli/commands/cmd_ota.c:51-64 | keeps everything delivered so far staged and hashed, or stops with an error because flash refused or the body does not fit |
| Http.Client.FeedHeaderBytes | src/network/http_get.c:150-171 | the header buffer holds the bytes so far; it stops exactly at the end of the head or on overflow |
| Http.Client.TakeBody | src/network/http_get.c:262-287 | the context is again the meaning of the bytes so far, and the body has gone through the callback |
| Http.Client.TcpRecv | src/network/http_get.c:250-299 | a chain of buffers has the meaning of its concatenation |
| Http.Client.PeerClosed | src/network/http_get.c:232-248 | the result on close, from the meaning of the stream |
| Http.HttpGet | src/network/http_get.c:229-383 | the result in every case: a refused chunk, a complete response, a close, a reset or bad buffer, no connection, the deadline; a chunk is refused exactly if flash refuses or the body does not fit, and otherwise exactly the body was delivered; segments and chains do not matter |
| HttpStream.OutcomeOk | src/network/http_get.c:229-299 | a request succeeds exactly when the whole response arrives and is a success, and no chunk is refused |
| HttpStream.OutcomeIsFinal | src/network/http_get.c:229-299 | success, and every result after an orderly close, is decided by the received bytes alone |
| CmdOta.Fetch | src/cli/commands/cmd_ota.c:105-119 | gets past finalize exactly if the response arrives whole, its body fits and flash refuses nothing, for any cutting; then the slot holds exactly the body; otherwise no image is ready |
| CmdOta.CmdDownload | src/cli/commands/cmd_ota.c:66-145 | gets past finalize exactly if the digest, if given, is one, the link is up, no update is in progress, the response arrives whole and fits the slot, and flash refuses nothing; succeeds exactly if moreover the digest, if given, is the body's SHA-256; after a mismatch the image is ready all the same; otherwise no image is ready or the module is as it was; only the staging slot changes |
| Parser.QuotingRoundTrip | src/cli/parser.c:25-63 | arguments written bare, quoted with escapes, quoted as they are, or in touching stretches of these, and separated by blanks, parse back to exactly that list, or to too many arguments exactly when there are more than allowed |
| Parser.AnyArgument | src/cli/parser.c:25-63 | any argument whatever can be written |
| Parser.Characters | src/cli/parser.c:5-57 | the characters that matter are the quote, the backslash, the space and the tab |
| Parser.ReadSpelling | src/cli/parser.c:33-57 | a written word is read as what it denotes, up to the blank that ends it |
| Parser.Unclosed | src/cli/parser.c:59 | a line whose last quote is not closed is refused, unless it has too many arguments before that |
| Parser.WordsParsed | src/cli/parser.c:25-63 | words at the front of a line become the first arguments, whatever follows them |
| Parser.CopyWord | src/cli/parser.c:33-57 | the word at the read cursor, as `Parser.ReadSpelling` says what it is, is copied down below the cursor without touching unread input or earlier tokens |
| Parser.CliParse | src/cli/parser.c:9-67 | in place, the argument strings and the error codes are those of the pure tokenizer of the original line, which `Parser.WordsParsed` and `Parser.Unclosed` characterise |
| Vars.Table.Set | src/system/vars.c:47-63 | accepted exactly for a valid name and a short value, with a slot for it; the table is the map updated |
| Vars.Table.Unset | src/system/vars.c:65-70 | the name is gone from the map, and nothing else |
| Vars.Table.Get | src/system/vars.c:72-76 | the map's value, if any |
| Vars.TableBounded | src/system/vars.c:11-63 | the table is always a map of at most 32 valid names to values of at most 95 characters |
| ShellState.State.PushArgs | src/cli/shell_state.c:30-41 | a frame of the first ten arguments, each cut to 63 characters, up to four frames deep |
| ShellState.State.PopArgs | src/cli/shell_state.c:43-45 | the frame before |
| ShellState.State.Expand | src/cli/shell_state.c:54-78 | the value of a special character, which `Expand.RefIs` says under the arguments of a run |
| Expand.RefIs | src/cli/shell_state.c:54-78 | `$0` to `$9` are the arguments, cut to 63 characters, or empty; `$#` counts those after `$0`, at most nine; `$?` is the last status; a name is its variable or empty; each bare, in braces, or with the closing brace missing |
| Expand.Substitutes | src/cli/cli.c:99-152 | a token of plain characters and such references expands to what they stand for, in order, values not being expanded again |
| Expand.LongNameFails | src/cli/cli.c:117-121 | a name longer than 31 characters makes the expansion fail |
| Expand.LoneDollar | src/cli/cli.c:126-132 | a dollar sign before anything else stands for itself |
| Expand.Signs | src/cli/cli.c:95-112 | references are written with a dollar sign, braces, a question mark or a number sign |
| ShellState.StatusReads | src/cli/shell_state.c:72-76 | the status as text is read back as that status |
| Expand.Plain | src/cli/cli.c:99-152 | a token without a dollar expands to itself |
| Expand.ReadReference | src/cli/cli.c:104-132 | reads exactly the reference the pure expansion reads, with or without braces |
| Expand.ExpandToken | src/cli/cli.c:101-149 | the expansion of one token and its terminator, or failure exactly when it does not fit |
| Expand.ExpandArgv | src/cli/cli.c:99-152 | success exactly when every name has at most 31 characters and the expansions with terminators fit 512 bytes; then each argument is the single-pass expansion of its token, which `Expand.Substitutes` says; the last byte stays NUL |
| ShellMeaning.LineSays | src/cli/cli.c:171-191 | a line of written words made of plain characters and references is handed on as what the words stand for, exactly when there are at most 16 and they fit 512 bytes with their terminators |
| ShellMeaning.LineArguments | src/cli/commands/cmd_run.c:40-59 | every line of a run hands on what it says under the arguments of that run |
| ShellMeaning.OthersDispatchNothing | src/cli/cli.c:156-169 | only `if`, `while` and `repeat` dispatch commands, and only a `run` that succeeds dispatches lines |
| ShellMeaning.CountReads | src/cli/commands/cmd_repeat.c:15-20 | a decimal count with white space or a sign before it and text behind it is taken exactly if nothing follows it, it is not negative and it is from 1 to 100000 |
| ShellMeaning.NoCount | src/cli/commands/cmd_repeat.c:15-20 | text that does not start like a number is no count |
| ShellMeaning.Keywords | src/cli/commands/cmd_if.c:17-20 | the words are `if`, `then` and `else` |
| ShellMeaning.MoreKeywords | src/cli/commands/cmd_while.c:17 | and `while`, `do` and `run` |
| ShellMeaning.LastKeywords | src/cli/commands/cmd_repeat.c:34 | and `repeat` and `set` |
| ShellMeaning.Results | src/cli/command.h:23-26 | the results, as `$?` shows them, are 0 for success, 1 for usage, 2 for an argument and 3 for a hardware error |
| ShellMeaning.IfMeans | src/cli/commands/cmd_if.c:11-42 | in `if C then B else E` C runs, then B with its result if C succeeded, otherwise E with its result or, without one, nothing and success |
| ShellMeaning.IfRefused | src/cli/commands/cmd_if.c:11-31 | without condition, `then` or body nothing runs, and it is a usage error |
| ShellMeaning.WhileMeans | src/cli/commands/cmd_while.c:12-38 | in `while C do B` C and B run in turn, at most 10000 times, up to the first C that fails, which is success, or the first B that reports a hardware error or the last round, which are hardware errors |
| ShellMeaning.WhileRefused | src/cli/commands/cmd_while.c:13-25 | without condition, `do` or body nothing runs, and it is a usage error |
| ShellMeaning.LoopsMeans | src/cli/commands/cmd_while.c:27-37 | that alternation, stated position by position, is exactly what the recursive meaning of the loop allows |
| ShellMeaning.RepeatMeans | src/cli/commands/cmd_repeat.c:12-32 | `repeat N B` runs B as often as N says, or nothing with an argument error |
| ShellMeaning.RepeatsMeans | src/cli/commands/cmd_repeat.c:22-31 | exactly: that many times, or up to the first one that reports a hardware error |
| Shell.Cli.SetInPlace | src/cli/commands/cmd_set.c:27-37 | splits at the first equals sign by overwriting it in the argument, and assigns |
| Shell.SplitMeans | src/cli/commands/cmd_set.c:26-37 | `NAME=VALUE` assigns the value to the name, whatever the value is; without an equals sign it is a usage error |
| Shell.Cli.CmdSet | src/cli/commands/cmd_set.c:19-49 | the map is updated or the assignment refused; no terminator in the buffer is lost |
| Shell.Cli.DispatchArgv | src/cli/cli.c:156-169 | the handlers that run and the script lines that are dispatched, in order with words, arguments and results, are those the words mean, recursively, and a `run` dispatches the lines of its script; sets the status; terminates whatever handlers write into argument strings; frames, guard and open flag as found; bounded handler calls |
| Shell.Cli.CmdIf | src/cli/commands/cmd_if.c:11-42 | the first `then` and the first `else` after it split the words; the condition is dispatched, then exactly the body its result picks, whose result is returned; nothing else runs |
| Shell.Cli.CmdWhile | src/cli/commands/cmd_while.c:12-38 | condition and body are dispatched in turn until the condition fails, the body reports a hardware error or 10000 rounds are over, with the result of each case; nothing else runs; within the bound |
| Shell.Cli.CmdRepeat | src/cli/commands/cmd_repeat.c:12-32 | exactly the counted number of dispatches, cut short by a hardware error; nothing else runs; within the bound |
| Shell.Cli.CmdRun | src/cli/commands/cmd_run.c:17-64 | runs exactly when none runs, a frame is free and the store has the script; every line dispatched, whatever the script does, is under a frame of the original arguments and runs the words it has under that frame; the lines are exactly the script's, in order, unless its own slot was erased meanwhile; everything is left as found |
| Shell.Cli.SplitLine | src/cli/cli.c:171-191 | the words of a line stand in the buffer as strings, or parsing or expansion fails exactly when the pure forms do |
| ShellMeaning.LoopsThen | src/cli/commands/cmd_while.c:27-37 | rounds that went on, followed by what the remaining rounds did, are one loop |
| ShellMeaning.RepeatsThen | src/cli/commands/cmd_repeat.c:22-31 | the same for a repetition |
| Shell.Cli.RunLines | src/cli/commands/cmd_run.c:40-59 | at most one command for each script byte, each bounded; the same of the lines dispatched, which are the script's unless its slot was erased meanwhile |
| Shell.Cli.DispatchLine | src/cli/cli.c:171-194 | exactly the words that pure tokenizing and expansion of the line give are dispatched, or nothing, with the error code; a line of a running script goes on record; a `run` dispatches the lines of its script |
| ShellBound.BoundIs | src/cli/commands/cmd_repeat.c:22-31 | the bound on handler calls of a command of n words that opens no script is 100000 to the power (n-1)/2 |
| ShellRun.RoundsEnd | src/cli/commands/cmd_repeat.c:22-31 | 100000 rounds of a command two words shorter stay within the bound |
| ShellRun.PairRoundsEnd | src/cli/commands/cmd_while.c:27-37 | 10000 rounds of condition and body stay within the bound |
| ShellRun.Ran | src/cli/commands/cmd_run.c:40-63 | so does a script, within the bound for a command that may open one |
| ScriptText.ReadLine | src/cli/commands/cmd_run.c:43-50 | one line of at most 255 characters, and the cursor behind the newlines after it |
| ScriptText.IgnoredMeans | src/cli/commands/cmd_run.c:53-55 | a line is dispatched exactly if it has a character other than spaces and tabs and the first such is not `#` |
| ScriptText.HashSpelled | src/cli/commands/cmd_run.c:45-55 | comments start with `#`, and lines end with a line feed or a carriage return |
| ScriptText.LinesCut | src/cli/commands/cmd_run.c:42-58 | a body of lines with any newlines, the last with or without, is cut into those lines, and the commands among them are dispatched in order |
| ScriptText.LongLine | src/cli/commands/cmd_run.c:43-49 | of a longer line the first 255 characters are one line and the rest is the next |
| ScriptText.JoinedLines | src/cli/commands/cmd_run.c:42-58 | captured lines joined by newlines and cut again are the commands among them, in order |
| Capture.Heredoc.CmdSave | src/cli/commands/cmd_script.c:77-96 | a capture starts exactly when none is on and the name is at most 31 characters |
| Capture.Closings | src/cli/commands/cmd_script.c:39-60 | a capture ends with `.end` or `.abort` |
| Capture.Heredoc.CaptureLine | src/cli/commands/cmd_script.c:39-75 | a line joins the body, or ends the capture by `.end`, `.abort` or overflow; only `.end` stores, and a body the store accepts is stored unless flash refuses |
| Terminal.TypePortions | src/cli/cli.c:224-252 | bytes may arrive in any portions |
| Terminal.LinesTyped | src/cli/cli.c:224-252 | printable lines ended by LF, CR or CRLF are exactly the lines that end |
| Terminal.EraseMany | src/cli/cli.c:224-252 | each backspace or delete takes one character off the line, as long as there is one |
| Terminal.Corrected | src/cli/cli.c:224-252 | a mistake that is erased again leaves the line as if it had not been made |
| Terminal.NotTaken | src/cli/cli.c:224-252 | other control characters, and characters beyond 255, are not taken |
| Terminal.Console.EndOfLine | src/cli/cli.c:198-213 | in capture mode the line goes to the capture, nothing is dispatched and the shell is as before; otherwise its words are dispatched, and may start a capture if there is none |
| Terminal.Console.Feed | src/cli/cli.c:224-252 | the line buffer is the fold of the bytes and the capture is that of the lines ended; captured lines leave shell and store alone |
| Terminal.Console.Reset | src/cli/cli.c:49-54 | the typed line is dropped and capture mode left, but the capture stays taken |
| Terminal.OrphanStays | src/cli/cli.c:49-54 | a capture whose shell was reset out of capture mode stays taken, and its shell starts no other, whatever is typed |
| Terminal.CaptureScript | src/cli/commands/cmd_script.c:39-96 | lines typed in capture mode are stored joined, if the store accepts them and flash refuses nothing, and otherwise refused or lost exactly as a save is |
| Terminal.RunCaptured | src/cli/cli.c:171-252 | a typed `run` of them dispatches every line under the run's arguments, and exactly the commands among those lines in order - all of them, if every line is a command - unless the script's slot was erased meanwhile |
| ScriptSlot.ImageReads | src/storage/scripts.c:120-175 | a saved slot is valid, carries its name and gives back its body |
| ScriptSlot.HeaderParts | src/storage/scripts.c:15-23 | every field of a script header stands at the byte offset of the packed structure |
| ScriptSlot.DamageFound | src/storage/scripts.c:150-167 | a script whose slot changed inside four consecutive bytes of the name or the body, or inside the checksum, is not given back |
| Scripts.EraseInRegion | src/storage/scripts.c:39-49 | erasing a slot changes that slot only |
| Scripts.ProgramInRegion | src/storage/scripts.c:51-62 | programming an erased slot changes that slot only, to the image |
| Scripts.BlankStore | src/storage/scripts.c:76-94 | a region never written is the empty store |
| Scripts.EraseStore | src/storage/scripts.c:177-181 | erasing a slot removes its name and keeps the store consistent |
| Scripts.SaveStores | src/storage/scripts.c:120-148 | a save, whole or cut off after its erase, affects its name only, and names stay distinct |
| Scripts.Store.FindByName | src/storage/scripts.c:81-87 | finds a slot exactly when the first 31 characters are in the map |
| Scripts.Store.Save | src/storage/scripts.c:120-148 | the map updated, unchanged, or without the name; it fails exactly for a bad name, a long body, a new name when all sixteen slots are taken, or a refusal of flash; only a free slot or the one with the name is erased |
| Scripts.Store.Load | src/storage/scripts.c:150-175 | the body in the map, if it fits |
| Scripts.Store.Remove | src/storage/scripts.c:177-181 | the name is gone from the map, and nothing else; a stored name stays only if flash refuses; only its slot is erased |
| Scripts.Store.Open | src/storage/scripts.c:187-211 | one script at a time; the body's place in flash holds the map's body |
| Bindings.AcceptTells | src/system/bindings.c:85-100 | an accepted edge is at least the debounce time after every earlier one of its binding, in true time, across clock wrap |
| Bindings.AcceptedWhen | src/system/bindings.c:85-100 | an edge is accepted if and only if the slot is in use for its pin, bound to rising, falling or both as the edge is, and there is no debounce time or the time since the last accepted edge, or since boot before there is one, modulo 2^32 is at least that |
| Bindings.NoSpurious | src/system/bindings.c:213-227 | there are never more dispatches than accepted edges: each uses one up |
| Bindings.DroppedAreLost | src/system/bindings.c:163-164 | edges accepted between the last two stores of an installation are never dispatched |
| Bindings.Table.GpioIrq | src/system/bindings.c:85-100 | exactly the accepting slots are marked, and every slot keeps telling its history |
| Bindings.Table.Add | src/system/bindings.c:149-168 | interrupted between any two of its stores: the pin's own slot or the first free one gets the binding, its flag down and the edges accepted after its reference time was set on record as dropped; refused exactly when there is no place; other slots see interrupts only |
| Bindings.AddedWhen | src/system/bindings.c:139-155 | a binding is refused exactly for a bad pin, a long target or a table full of other pins; pins stay distinct and other bindings stay |
| Bindings.Table.Remove | src/system/bindings.c:170-176 | frees the pin's slot and no other |
| Bindings.Table.DispatchPending | src/system/bindings.c:213-227 | under any interrupts, every binding due at the start is dispatched with its target unless a command installs or removes it |
| BindRecord.DecodeEncode | src/system/bindings.c:242-290 | a stored record reads back as the bindings it was made from |
| BindRecord.AcceptedMeans | src/system/bindings.c:274-284 | a record is accepted exactly for its magic, its version, a good checksum and a count of at most 16 |
| BindRecord.CountInIs | src/system/bindings.c:50-56 | the count is the 16-bit number behind magic and version |
| BindRecord.DamageRejected | src/system/bindings.c:274-284 | a stored record changed only inside four consecutive bytes is rejected |
| BindRecord.EntryParts | src/system/bindings.c:41-48 | every field of a stored entry stands at the byte offset of the packed structure, text padded with zeros |
| BindRecord.HeaderParts | src/system/bindings.c:20-56 | magic, version and count stand in front of them |
| BindRecord.RestZero | src/system/bindings.c:242-262 | entries not in use are zeros |
| Lengths.LenOfIs | src/system/bindings.c:41-48 | a 32-bit field is stored with its low byte first |
| Lengths.WordOfIs | src/system/bindings.c:50-56 | and so is a 16-bit one |
| BindRecord.Save | src/system/bindings.c:242-272 | the bindings in use, compacted, unless flash refuses; then the old record or none, by how the write ends; only that sector changes |
| BindRecord.Load | src/system/bindings.c:274-296 | from any record with a good checksum, the table is what adding its entries in use one by one to an empty table gives, those it refuses left out; a bad record changes nothing |
| BindRecord.RefillNice | src/system/bindings.c:288-294 | of a record that a save stores no entry is refused, and the bindings stand in the first slots in order |
| BindRecord.SaveThenLoad | src/system/bindings.c:242-296 | unless flash refuses, save then load, into the same table or another, gives the same pins, edges, debounce times and targets, compacted, whatever the table held |

## Left out

- BTStack, CYW43, LwIP, DNS, Wi-Fi, USB and GATT: foreign libraries that are not part of this model; TCP is a sequence of received chains, errors and the close.
- The jump itself, VTOR and vector contents: whether a slot looks valid is a predicate of its bytes, and each image is assumed to be built for its slot.
- Power loss inside the code's own methods: the methods in `Ota` and `Bootloader` give out what flash holds at that point, and `Refinement` shows which step of `BootSystem` it is (`PowerLost`, `BootTorn`, `BootCut`), but a session in `Refinement` does not go on from there; for scripts and bindings it equals a program that fails.
- `ota_status` output, `cmd_apply` and `cmd_confirm` messages: printing only.
- Http.HttpGet: the URL, name resolution, connecting and sending the request are one event that ends the request with HTTP_ERR_CONNECT; their other error codes are not told apart, and whether a connection exists at the deadline is arbitrary.
- `script fetch` and `script list/show/rm`: the first is another callback for the same client, the others only read or call what is modelled.
- Shell.Cli.Leaf: other commands are arbitrary; they may write inside argument strings and change variables and scripts, but not the frames, the run guard or the buffer's terminators.
- Shell.Cli.DispatchArgv: the command table is not modelled; a name that is not a control command may or may not be known.
- Shell.Cli.CmdRun: which lines follow after a script's own slot was erased is not stated beyond the frame and the words of each line; a power loss during a run is not modelled.
- Vars.Table.Set: a slot holds its name and value as byte strings rather than as two fixed character arrays.
- ShellState.State.Expand: the rotation of scratch buffers is not modelled, since every caller copies the string at once.
- Terminal.Console: which command starts a capture is arbitrary when a line is dispatched, since the `script` command is not tied to the dispatcher; a capture of the other shell appears as one that is taken.
- Bindings.Table.Add: the copy of the target is one store; the handler does not read it.
- `bindings_clear_all`, `bindings_iter` and the binding commands: loops over the members modelled.
- The interrupt mask of a pin: enabling only adds bits, and the handler's own filter is what the properties rest on.
- Configuration sector, BLE transmit buffer, PWM, ADC, I2C, temperature, uptime, help, echo, log, version: easy members.
- Re-entrancy through the network poll during a command: one command at a time.
