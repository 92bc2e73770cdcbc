# FujiNet NIO applications: verified protocol models

A Dafny model of the parts of the FujiNet NIO client programs where a mistake
loses or repeats data: the resident Atari `N:` handler, the o65 loader that
installs it, the Amiga FMOUNT/FUMOUNT parking protocol, paged directory listing,
and chunked transfer to the app store. `dafny verify dfyconfig.toml` checks it.

## The resident handler

`Resident` is the handler's BSS as a class: two owner records, one 256-byte cache
in two halves, one 512-byte packet, and the one-byte variables of the wire. Each
assembly routine is a method on that state, with eight-bit values and explicit
carries. `Adapter` is the device at the other end: idle, busy with a request, or
ready with a reply. W, P and R each may fail before they take effect, or take
effect and lose their completion, and the device may forget a request it has
accepted, executed or not, so that a poll finds it idle in the middle of an exchange. `Server` says what an honest NetworkService may
do with a request; it may take any prefix of a WRITE.

`Coupling` ties the three together on plain values: for every session ever opened,
what the service took is a prefix of what was PUT; for an owner that is not
faulted, what was taken followed by the cache is everything PUT and OFFSET is the
taken count modulo 2^32; for a reader, OFFSET = delivered + (LEN - POS) and the
unread cache is the next stretch of the stream. There is one small lemma for each
step the handler takes, and each method calls the lemma of its step.

Failing is accounted for too. `Adapter.Meter` counts what the wire went through, and
`Adapter.Impeded` lists the only causes of an I/O error: a W or R that did not
complete, sixty polls in a row that ended no wait, a reply of a length R cannot
collect, or a request of this call that the device forgot or answered with a reply
that does not pass the tests. The same ledger ties
the WRITEs put on the wire to the session histories. `Runs` draws the conclusion for
whole runs: a chain of states from call to call, and an event trace that the calls,
their results and those states determine.

What the packets mean is said twice: by the parsers and tests the handler shares with
the service, and by the lemmas `Wire.FrameInBytes`, `RequestInBytes`, `ReplyInBytes`
and so on, in the numbers of the protocol. The other parts do the same: lemmas whose
names end in `InBytes` or `InNumbers` pin the definitions that a specification has in
common with the code it specifies.

## The loader

`O65` gives the meaning of relocation: the parser of a table, the encoder, and
what a relocated site has to hold. `O65Header` compares the loader's byte-wise
header checks with the build gate's unbounded ones. `O65Load` has the whole load
as one function of the module bytes, and `LoadingPreservesMeaning`. `Loader` is
the streaming parser itself, working in place on 64 KiB of memory through a
128-byte buffer; `LoadModule` refines that function. `InstallSpec` holds the
installer's decisions as functions of memory, and `Installer` the imperative
program around the parser, from saving the zero page to `finish`.

The build modelled has a disk source and the assembly resident and is not the
SpartaDOS X child. A jump to one of the `fail_` labels is a failure result.

## The Amiga tools

`Amiga.Unit` is one DN unit: DOS node, handler, inhibit nesting, medium. The two
commands are methods in the steps of their `main` functions; every answer of Exec
and AmigaDOS is arbitrary. A ghost log keeps what was done to node and medium with
the handler's state at that moment, and says whether the unit counts as parked.

## Listing and app store

`ListCodec` has the request and page formats and the client's decoding of any
bytes; `Listing` the paging loop against a service that pages one fixed list.
`AppStore` has the PUT and GET loops against a store that takes and gives less than
it is asked for.

## Assumptions

- The service is honest where the handler believes it: a believed WRITE reply
  states how much was taken, a believed READ reply carries the stream's bytes at
  the offset asked for and flags the end only at the end, and a believed OPEN reply
  names a new session's handle, different from those of live sessions. Nothing is
  assumed of replies the handler rejects.
- A reply stream is shorter than 2^32 bytes, as the wire's offset is 32 bits wide.
  Output is not bounded: there OFFSET is modulo 2^32.
- The device is idle and no session exists when the handler starts.
- For the loader: TEXT + DATA + BSS fit in 16 bits and the wrapper's table, marker
  and entry offsets lie inside the allocation (the build establishes both; see
  `Installer.Installer.PayloadFits`); MEMLO is at least $0700, above the tables the
  model keeps apart from the allocation, and not $FFFF; the entry point works inside
  its allocation and the borrowed zero page and leaves marker and table alone.
- The borrowed zero-page bank, the IOCB area, the staging buffer, the read buffer
  and the loader's own variables are separate objects from the 64 KiB of memory.
  `InstallSpec.RangeStart` is what makes that sound: the allocation lies between
  $0700 and $6000.
- For the Amiga tools: only these tools inhibit and change media; a handler starts
  or exits on its own only between commands, except that FMOUNT also allows one to
  start before and after mounting and both tools see one exit while they wait for
  it; a failed mount or eject leaves the medium. Failing queries and un-inhibits
  are not assumed away: they set the ghost flag `trouble`, and the statements on
  nesting are for runs without it. Safety of eject, unlink and rewrite holds anyway.
- For the listing: names have at most 220 bytes and no NUL, a response has at most
  512 bytes, and the URI does not have 505 or 506 bytes, the two lengths of `ListCodec.GuardShort`. FLS passes at most 255.
- For the app store: a write takes a prefix of what it is given, a read gives at
  least one byte while there is one, and the end flag is set only at the end. A
  failed write may or may not have had its effect. Whether a write at offset 0 starts
  the value afresh or leaves what lies behind it is the store's choice, the same for
  the whole exchange.

## Where the code and its words differ

- src/common/fnsvc.c:130 counts six fixed bytes in a list request; eight are
  written. `ListCodec.GuardShort` gives the exact URI lengths this concerns.
- apps/platform/atari/resident/fnresident_o65_loader.s:940-972 means to keep every
  relocation inside its segment. The +1 for a WORD is modulo 2^16, so a WORD at
  offset $FFFF passes and its second byte lands at the start of the segment, its
  first on the byte before. `O65.CheckedStays` says that this is the only case and
  `O65.StrayTable` that a table reaching it exists.
- apps/platform/atari/resident/fnresident_o65_loader.s:691-725 drops the carry of its
  sums: `O65Header.WrappedSumsDiffer`.
- apps/platform/atari/resident/fnresident_o65_loader.s:342-348 rounds MEMLO up modulo
  2^16: `InstallSpec.RangeAboveMemlo`.
- apps/platform/atari/resident/fnresident_asm.s:351-353 answers end of file for a READ
  that returns no byte, flagged or not. `Server.UnflaggedEnd` is the input: an honest
  service may send such a reply before the end, and `Coupling.EndsEarly` that the
  stream is then not exhausted. At an end of file the whole stream was
  delivered if and only if OFFSET stands at the end of the stream; with the end flag
  it does. A caller finds out by a STATUS: if that answers end of file too, everything
  was delivered (`Resident.Resident.DoStatus`).

## Model

| member | source | states |
|---|---|---|
| Runs.Run | apps/platform/atari/resident/fnresident_asm.s:70-499 | Every run of OPEN, CLOSE, GET, PUT and STATUS on any IOCBs, under any loss on the wire and any honest service. The calls are answered by the gateway one after the other, from state to state; the events are exactly those the calls, their results and the states at entry give. For every session: the bytes the service took are a prefix of the bytes PUT, the bytes GET delivered are a prefix of the reply stream, the WRITEs carry the PUT bytes without gap, the zero-length WRITE is unique, last, and stands at the total PUT. The WRITEs in the device's trace are exactly those of the sessions, each to its session's handle at its start modulo 2^32. Every output session whose CLOSE answered success is durable at the end. No request is executed twice; what makes that so is that a W needs an idle device |
| Runs.Step | apps/platform/atari/resident/fnresident_asm.s:70-100 | One call: its result, accumulator and states satisfy the gateway's answer, and the trace grows by exactly the events these determine: the byte PUT, always when the answer is success; the WRITEs put on the wire; the byte GET |
| Runs.AnsweredIsTold | apps/platform/atari/resident/fnresident_asm.s:70-100 | Whatever the gateway answers, the call's events keep the trace equal to the history of every session and to the WRITEs on the wire, so a call on one IOCB adds nothing to another session |
| Runs.SettledStays | apps/platform/atari/resident/fnresident_asm.s:479-499 | Output closed successfully stays durable and unowned through any later call |
| Runs.ValidKeeps | apps/platform/atari/resident/fnresident_asm.s:284-455 | The coupling between handler, device and service implies the promise to each session in terms of caller-visible events only |
| Resident.Resident.Gateway | apps/platform/atari/resident/fnresident_asm.s:43-69 | Refuses re-entry with both owners, histories and wire untouched; otherwise the whole answer of `Answered`: bad IOCB, not open and already open exactly in their cases and without effect, else exactly the slot of the IOCB is served or opened and the other half is unchanged; an I/O error always has its cause on the wire, or in an owner faulted or committed before; a PUT that answers success is recorded; a STATUS or CLOSE that succeeds ended with an INFO or a CLOSE of the handle. Restores the borrowed zero page, and ends within 62*(LEN+2)+122 SIO transactions, LEN being the owner's value at entry |
| Resident.Resident.Dispatch | apps/platform/atari/resident/fnresident_asm.s:70-100 | The answer of `Answered` for every operation and IOCB, within the transaction bound |
| Resident.Resident.PutServes | apps/platform/atari/resident/fnresident_asm.s:361-377 | Success means that the owner could write and the byte is in its account; a faulted or committed owner answers an I/O error and an input one unsupported, without effect |
| Resident.Resident.DoOpen | apps/platform/atari/resident/fnresident_asm.s:113-131 | Takes the preferred free slot; no owner exactly when both are taken; an unsupported mode, a bad name or a failed exchange changes no owner; success binds the slot to a fresh session of the named URI, method and flags; an I/O error has its cause on the wire |
| Resident.Resident.OpenSlot | apps/platform/atari/resident/fnresident_asm.s:131-215 | A successful OPEN leaves a cleared owner record whose handle is that of a new session with nothing taken, no commit and an empty history; any failure leaves the slot as it was, an I/O error with its cause on the wire |
| Resident.Resident.ReadName | apps/platform/atari/resident/fnresident_asm.s:135-166 | The name is accepted exactly when it reads N1: followed by 1 to 128 bytes up to NUL or EOL, and the URI in the packet is those bytes |
| Resident.Resident.CopyUri | apps/platform/atari/resident/fnresident_asm.s:154-166 | The copy loop stops at the terminator, writes only the URI bytes, and fails exactly on an empty name or on more than 128 bytes |
| Resident.Resident.ReadyOpen | apps/platform/atari/resident/fnresident_asm.s:132-185 | With the wire drained, the packet is that OPEN; the coupling survives the draining |
| Resident.Resident.TakeSlot | apps/platform/atari/resident/fnresident_asm.s:199-214 | The cleared record with the new handle restores the coupling: the slot's session is the one just opened |
| Resident.Resident.DoGet | apps/platform/atari/resident/fnresident_asm.s:284-360 | Delivers exactly the next byte of the reply stream or none; output mode is refused; whoever gets a byte or an end of file is a reader, for a POST one that has committed; at end of file the whole stream was delivered if and only if OFFSET stands at its end, as it does when the end flag is set, and without the flag the cache is empty and the last request was a READ at that position; an I/O error has its cause on the wire or in an earlier fault; the other half is unchanged |
| Resident.Resident.GetReady | apps/platform/atari/resident/fnresident_asm.s:284-303 | Readers pass unchanged; a POST not yet reading ends committed with offset, length, position and EOF zero, or in a fault with its cause on the wire or before; output owners are refused |
| Resident.Resident.TurnAround | apps/platform/atari/resident/fnresident_asm.s:292-303 | Only after a successful commit are offset, length, position and EOF reset and READING set; a failed commit faults the owner |
| Resident.Resident.Refill | apps/platform/atari/resident/fnresident_asm.s:308-351 | A believed READ reply makes the cache half the next stretch of the stream and advances OFFSET by its count; a failure has its cause on the wire and leaves the owner unchanged, so the same READ can be asked again |
| Resident.Resident.ReadByte | apps/platform/atari/resident/fnresident_asm.s:304-359 | The byte handed out is stream[delivered]; with the cache used up and no end flag a READ at OFFSET goes out before end of file is answered; an I/O error has its cause on the wire and changes neither owner nor history |
| Resident.Resident.Deliver | apps/platform/atari/resident/fnresident_asm.s:354-358 | The cached byte at POS is the next undelivered byte of the stream, and only POS moves |
| Resident.Resident.DoPut | apps/platform/atari/resident/fnresident_asm.s:361-377 | Input owners are refused, faulted and committed ones get an I/O error, all without effect; otherwise the byte joins the session's account whether or not the flush succeeds, and the result is success exactly when no fault was set; a byte that does not fill the cache is answered at once with nothing on the wire, and the 128th is answered with success only with the cache empty again |
| Resident.Resident.Flush | apps/platform/atari/resident/fnresident_asm.s:378-440 | Ends with an empty cache or a faulted owner; at most LEN WRITEs, or one when LEN is 0, each put on the wire and in the history alike; a fault has its cause on the wire |
| Resident.Resident.FlushPass | apps/platform/atari/resident/fnresident_asm.s:378-440 | One WRITE of the whole cache: acknowledged, partly acknowledged, or the owner is faulted with cause; the coupling holds in each case, also when the completion is lost, and the WRITE on the wire is the one recorded |
| Resident.Resident.ReadyWrite | apps/platform/atari/resident/fnresident_asm.s:379-397 | With the wire drained, the sealed packet reads back as WRITE of the owner's handle, offset and cached bytes; not draining has its cause on the wire |
| Resident.Resident.ExchangeWrite | apps/platform/atari/resident/fnresident_asm.s:398-401 | The WRITE put on the wire is the one recorded for the session, at its handle and start modulo 2^32; if it fails the faulted owner is already coupled and there was cause; if it is believed the reply answers this WRITE |
| Resident.Resident.Acknowledge | apps/platform/atari/resident/fnresident_asm.s:402-440 | A count is believed exactly when it is at most LEN and positive unless nothing was sent; then OFFSET grows by what LEN loses and the rest moves to the front of the half; else the owner is faulted and its cache unchanged |
| Resident.Resident.ShiftCache | apps/platform/atari/resident/fnresident_asm.s:420-434 | The unacknowledged bytes end up at the front of the owner's half, in order; the other half is unchanged |
| Resident.Resident.AddOffset | apps/platform/atari/resident/fnresident_asm.s:272-283 | The four-byte carry chain adds the count to OFFSET modulo 2^32 and changes no other field and no other owner |
| Resident.Resident.FinishWrite | apps/platform/atari/resident/fnresident_asm.s:441-455 | Success exactly when the owner ends without fault, and then it is committed; a new fault has its cause on the wire; nothing at all happens, on the wire either, when it was faulted or committed before |
| Resident.Resident.Commit | apps/platform/atari/resident/fnresident_asm.s:451-454 | The zero-length WRITE either commits the owner or faults it, never both |
| Resident.Resident.DoStatus | apps/platform/atari/resident/fnresident_asm.s:456-478 | An output owner commits first; an INFO was the last request put on the wire; end of file exactly when EOF is set and the cache used up, and then the whole stream was delivered; an I/O error has its cause on the wire or in an earlier fault; an answer other than an I/O error means that the device executed this INFO and the handler had reason to believe its reply |
| Resident.Resident.DoClose | apps/platform/atari/resident/fnresident_asm.s:479-499 | The slot is always released; success on an output owner means all PUT bytes are with the service, closed by exactly one commit, and a CLOSE of its handle was the last request put on the wire; an I/O error has its cause on the wire or in an earlier fault; success means that the device executed this CLOSE and the handler had reason to believe its reply; a CLOSE of its handle goes out for a faulted owner, too, unless the wire could not be drained |
| Resident.Resident.CloseRemote | apps/platform/atari/resident/fnresident_asm.s:487-497 | The coupling holds with the owner gone whatever became of the CLOSE, and the service loses nothing it has taken |
| Resident.Resident.FinishOutput | apps/platform/atari/resident/fnresident_asm.s:480-486 | Success on an output owner means durable output; a faulted owner reports an error and puts no WRITE on the wire |
| Resident.Resident.BeginPacket | apps/platform/atari/resident/fnresident_asm.s:219-242 | Draining sends no W and fails only if a completion was lost, sixty polls in a row ended no wait, or a reply is held that R cannot collect; on success nothing is outstanding and the packet is a cleared header of the command |
| Resident.Resident.Ask | apps/platform/atari/resident/fnresident_asm.s:310-318 | At most one request is put on the wire, and it is the one asked; a reply let through answers it; a failure has its cause on the wire |
| Resident.Resident.CacheIndex | apps/platform/atari/resident/fnresident_asm.s:263-271 | Three eight-bit shifts of the record offset and an addition: the index lies in the owner's own half, POS bytes in |
| Resident.Resident.CheckRw | apps/platform/atari/resident/fnresident_asm.s:503-524 | Accepts exactly the replies with 12 payload bytes, the owner's handle and a count of at most 128 |
| Resident.Resident.Exchange | apps/platform/atari/resident/fnresident_asm.s:528-592 | At most one execution of the request; a reply let through is the answer to the W just sent and to nothing earlier, with the wire idle; a request the device forgets fails its exchange, whether it was executed or not; a failure, here or in the caller's tests of the reply, has its cause on the wire |
| Resident.Resident.Send | apps/platform/atari/resident/fnresident_asm.s:528-540 | The frame handed over is sealed, the device was idle, and the transaction counts as outstanding even if its completion is lost |
| Resident.Resident.CheckReply | apps/platform/atari/resident/fnresident_asm.s:543-592 | Lets through exactly the frames with right device, command, length, checksum, status descriptor and NetworkService status, at most 160 bytes long |
| Resident.Resident.SumPacket | apps/platform/atari/resident/fnresident_asm.s:593-604 | The loop computes the sum of the frame's bytes without its checksum byte, modulo 255, and 0 only where all those bytes are 0 |
| Wire.ChecksumIsSum | apps/platform/atari/resident/fnresident_asm.s:593-604 | The checksum is congruent modulo 255 to the unbounded sum of the bytes other than the one at 4, and 0 exactly when all of those are 0 |
| Wire.CloseFrame | apps/platform/atari/resident/fnresident_asm.s:536-537 | The nine bytes of a CLOSE of handle 1 are a frame with checksum $0D and with no other |
| Resident.Resident.Receive | apps/platform/atari/resident/fnresident_asm.s:605-647 | At most 60 polls and one R; success means the reply in the packet belongs to the request in flight and the wire is idle; a failure has its cause on the wire or is an explicit idle: nothing was in flight, or the device has forgotten the request of this exchange |
| Adapter.SioAdapter.Transmit | apps/platform/atari/resident/fnresident_asm.s:538-540 | May be called only with the device idle and a whole frame; it then executes nothing, holds the request, or has executed it, completion lost or not |
| Adapter.SioAdapter.Poll | apps/platform/atari/resident/fnresident_asm.s:608-618 | Reports idle, busy or ready with the reply length, or fails; the request in flight is executed at most once, and it or its reply may be forgotten at any time; polls are counted from the latest that ended a wait |
| Adapter.SioAdapter.Fetch | apps/platform/atari/resident/fnresident_asm.s:639-646 | Hands over the reply held and retires it, or fails with the reply retired or not |
| Adapter.ImpededEarlier | apps/platform/atari/resident/fnresident_asm.s:526-527 | A cause on the wire within a call is one for the whole call |
| Wire.EmptyReplyIsBelieved | apps/platform/atari/resident/fnresident_asm.s:317-353 | A well-formed READ reply of no bytes without the end flag passes every test |
| Coupling.EndsEarly | apps/platform/atari/resident/fnresident_asm.s:351-359 | After the reply of Server.UnflaggedEnd the coupling holds with an empty cache and no end flag, the state in which GET answers end of file, and the whole stream was not delivered |
| Server.UnflaggedEnd | apps/platform/atari/resident/fnresident_asm.s:351-359 | Such a reply is open to an honest service at any offset before the end of the stream, so an end of file without the flag need not be the end |
| Server.EffectGrows | apps/platform/atari/resident/fnresident_asm.s:217-218 | Executing any request loses nothing taken, and keeps handles and streams |
| Wire.ChecksumIgnoresItself | apps/platform/atari/resident/fnresident_asm.s:593-604 | The checksum does not depend on the byte it is stored in |
| Wire.SealedIsFramed | apps/platform/atari/resident/fnresident_asm.s:528-535 | Filling in length and checksum makes any prepared header a frame the device accepts |
| Wire.SealsOpen | apps/platform/atari/resident/fnresident_asm.s:154-186 | Round trip: a prepared OPEN packet reads back as its method, flags and URI |
| Wire.SealsRead | apps/platform/atari/resident/fnresident_asm.s:308-317 | Round trip: a prepared READ packet reads back as handle, offset and limit |
| Wire.SealsWrite | apps/platform/atari/resident/fnresident_asm.s:379-398 | Round trip: a prepared WRITE packet reads back as handle, offset and data |
| Wire.SealsBare | apps/platform/atari/resident/fnresident_asm.s:243-262 | Round trip: CLOSE and INFO read back as the handle |
| Server.EffectKeepsService | apps/platform/atari/resident/fnresident_asm.s:217-218 | Whatever one request does to an honest service, sessions keep their handles and reply streams and handles of live sessions stay distinct |
| Bytes.Add32IsAddition | apps/platform/atari/resident/fnresident_asm.s:272-283 | The byte-wise carry chain is addition modulo 2^32 |
| Coupling.ExecutionKeepsSessions | apps/platform/atari/resident/fnresident_asm.s:217-242 | Executing the request in flight, whenever it happens and whatever it is, keeps every session's account |
| Coupling.EvolvingKeepsCoupled | apps/platform/atari/resident/fnresident_asm.s:217-242 | Progress of the device without a new W, be it executing the request in flight, giving up the reply or forgetting either, keeps the coupling of both owners |
| Coupling.ExchangeKeepsCoupled | apps/platform/atari/resident/fnresident_asm.s:528-589 | Any exchange other than a WRITE keeps the coupling wherever it left the device |
| Coupling.CachedByte | apps/platform/atari/resident/fnresident_asm.s:361-376 | PUT keeps: taken bytes followed by the cache equal everything PUT |
| Coupling.WriteLaunched | apps/platform/atari/resident/fnresident_asm.s:378-400 | A WRITE on the wire, its owner counted as faulted, is coupled whether or not it reached the device |
| Coupling.WriteFailed | apps/platform/atari/resident/fnresident_asm.s:436-440 | After a failed WRITE the faulted owner is coupled wherever the device was left |
| Coupling.WriteAcknowledged | apps/platform/atari/resident/fnresident_asm.s:402-435 | A believed acknowledgement of k bytes: what the service took grew by exactly the first k cached bytes, OFFSET is the acknowledged count modulo 2^32, and the rest is still cached |
| Coupling.ReadingStarts | apps/platform/atari/resident/fnresident_asm.s:292-303 | A committed POST becomes a reader of its reply stream at offset 0 |
| Coupling.Refilled | apps/platform/atari/resident/fnresident_asm.s:317-351 | OFFSET = delivered + (LEN-POS) and cache[POS..LEN) = stream[delivered..OFFSET) after a refill, also across failed and repeated READs |
| Coupling.Delivered | apps/platform/atari/resident/fnresident_asm.s:354-358 | The byte GET hands out is stream[delivered], and the reader's account moves by one |
| Coupling.AllDelivered | apps/platform/atari/resident/fnresident_asm.s:304-359 | With the cache used up GET has delivered the whole stream if and only if OFFSET stands at its end, as it does at EOF |
| Coupling.Opened | apps/platform/atari/resident/fnresident_asm.s:199-215 | A believed OPEN gives the slot a session of its own with an empty history; IOCBs and handles of active owners stay distinct |
| Coupling.CloseKeepsCoupled | apps/platform/atari/resident/fnresident_asm.s:487-497 | Releasing the owner first keeps the coupling however the CLOSE ends |
| Coupling.CommittedIsDurable | apps/platform/atari/resident/fnresident_asm.s:441-455 | A committed output owner's bytes are all with the service and closed by exactly one commit |
| Coupling.DurableStays | apps/platform/atari/resident/fnresident_asm.s:456-499 | What was durable stays durable: nothing the service takes later changes it |
| Coupling.NothingOpen | apps/platform/atari/resident/fnresident_asm.s:27-32 | The state after module entry is coupled to a service with no sessions |
| O65.TableRoundTrip | apps/platform/atari/resident/fnresident_o65_loader.s:828-938 | Round trip: the encoded table of any strictly increasing, non-overlapping sites that refer to TEXT, DATA, BSS or the zero page, with 254-byte delta chains and HIGH low bytes, parses back to those sites |
| O65.HighCarry | apps/platform/atari/resident/fnresident_o65_loader.s:906-919 | The HIGH addition with the carry from the record's low byte is the high byte of link address plus base |
| O65.WordCarry | apps/platform/atari/resident/fnresident_o65_loader.s:921-932 | The two byte additions with carry are the 16-bit sum modulo 2^16 |
| O65.PatchRelocates | apps/platform/atari/resident/fnresident_o65_loader.s:850-938 | One record relocates its site and nothing else: the value there becomes its part of link address + start for segments 2, 3 and 4, of link address + $82 for segment 5, said in numbers for WORD, HIGH and LOW |
| O65.PatchAllRelocates | apps/platform/atari/resident/fnresident_o65_loader.s:828-938 | A table of spaced sites relocates every one of them and leaves every other byte alone |
| O65.ParsedSitesAreChecked | apps/platform/atari/resident/fnresident_o65_loader.s:897-925 | Every site that comes out of any table the loader accepts, from whatever bytes, passed its bounds test |
| O65.CheckedStays | apps/platform/atari/resident/fnresident_o65_loader.s:941-972 | A site that passed stays inside its segment if and only if it is not a WORD at offset $FFFF, where the loader's +1 wraps |
| O65.PatchAllStays | apps/platform/atari/resident/fnresident_o65_loader.s:828-972 | Any accepted table changes only its segment, and at most the byte before it; that byte too is unchanged unless a WORD stands at $FFFF |
| O65.StrayTable | apps/platform/atari/resident/fnresident_o65_loader.s:829-849 | Such a table exists for every nonempty segment and passes all the loader's tests, and it changes the byte before the segment |
| O65Header.GateAndLoaderAgree | tools/check_atari_resident_ram.py:10-36 | For 26 zero-page bytes the gate passes a module with reservation ALLOC if and only if the loader accepts its header with that ALLOC within the budget and the segment sums do not wrap |
| O65Header.WrappedSumsDiffer | apps/platform/atari/resident/fnresident_o65_loader.s:691-725 | For all sizes whose sum does not fit 16 bits there is a header that the loader accepts, for the remainder as its allocation, and the gate rejects; the remainder may be within the allocation limit |
| O65Load.OptionsSkipped | apps/platform/atari/resident/fnresident_o65_loader.s:761-783 | Any list of header options of 1 to 254 bytes is skipped exactly |
| O65Load.OptionsInBytes | apps/platform/atari/resident/fnresident_o65_loader.s:761-783 | Options of three and four bytes whatever they hold are skipped by their length bytes, which count themselves; a length of 1 or past the end fails |
| O65Load.LoadedInBytes | apps/platform/atari/resident/fnresident_o65_loader.s:539-628 | Whatever loads has two zero bytes behind TEXT and DATA, for no imports, and ends with two zero bytes, for no exports, with nothing behind them |
| O65Load.EncodedLoads | apps/platform/atari/resident/fnresident_o65_loader.s:539-628 | The encoding of any image loads, with WORD, LOW and HIGH sites that refer to TEXT, DATA, BSS or the zero page |
| O65Load.LoadingPreservesMeaning | apps/platform/atari/resident/fnresident_o65_loader.s:539-628 | For the encoding of any image at any start: every WORD, LOW and HIGH site holds its part of link address + start where it refers to TEXT, DATA or BSS, of link address + $82 where it refers to the zero page, all other TEXT and DATA bytes are the image's, BSS is zero, and nothing outside is touched |
| O65Load.AnyLoadStays | apps/platform/atari/resident/fnresident_o65_loader.s:539-628 | Any module bytes that load at all: memory outside the allocation is unchanged, BSS is zero; only a WORD at $FFFF could reach the one byte before |
| O65Load.AllocIsTotal | apps/platform/atari/resident/fnresident_o65_loader.s:712-725 | An accepted header whose sums fit asks for exactly TEXT + DATA + BSS |
| Loader.Parser.ReadByte | apps/platform/atari/resident/fnresident_o65_loader.s:786-812 | Successive bytes are exactly the next bytes of the module in order; it fails exactly at the declared end, or on an early end of file or a disk error |
| Loader.Parser.Refill | apps/platform/atari/resident/fnresident_o65_loader.s:1266-1310 | The buffer holds the next min(128, remaining) bytes of the file from index 0; no transfer asks for a byte past the module |
| Loader.Parser.NeverPastTheEnd | apps/platform/atari/resident/fnresident_o65_loader.s:1266-1293 | The file position never passes the declared end of the module |
| Loader.Parser.SkipO65Options | apps/platform/atari/resident/fnresident_o65_loader.s:761-783 | Refines the option list: what is left of the stream is what is left after it; it terminates on any bytes |
| Loader.Parser.CopyInit | apps/platform/atari/resident/fnresident_o65_loader.s:555-569 | The initialised bytes go to the destination in order, and nothing else is written |
| Loader.Parser.ClearBss | apps/platform/atari/resident/fnresident_o65_loader.s:570-583 | The BSS becomes zero and nothing else is written |
| Loader.Parser.ReadSite | apps/platform/atari/resident/fnresident_o65_loader.s:850-910 | Reads exactly one record of the table, in bounds, or fails exactly where the record is bad |
| Loader.Parser.ApplySite | apps/platform/atari/resident/fnresident_o65_loader.s:888-933 | In-place, byte by byte with its carry, this is the record's effect on memory |
| Loader.Parser.RelocateSegment | apps/platform/atari/resident/fnresident_o65_loader.s:828-938 | The loop over the stream applies exactly the table's sites in order, ends with the terminator consumed, fails exactly on a bad table, and writes at most the segment and the byte before it |
| Loader.Parser.LoadTables | apps/platform/atari/resident/fnresident_o65_loader.s:584-628 | No imports, both tables, no exports, and the stream used up exactly at the declared length |
| Loader.Parser.CheckSums | apps/platform/atari/resident/fnresident_o65_loader.s:673-725 | The byte-wise sums with carries accept exactly the word equations modulo 2^16 |
| Loader.Parser.ParseO65Header | apps/platform/atari/resident/fnresident_o65_loader.s:633-754 | Accepts exactly the header profile and records its sizes |
| Loader.Parser.PlaceImage | apps/platform/atari/resident/fnresident_o65_loader.s:545-583 | The link image stands at the start with its BSS zero; everything outside is unchanged |
| Loader.Parser.LoadBody | apps/platform/atari/resident/fnresident_o65_loader.s:539-628 | Streaming refines the whole file: the result is the load function of the remaining module bytes, used up to the last one; a failure means that function fails too, or the disk did |
| Loader.Parser.LoadModule | apps/platform/atari/resident/fnresident_o65_loader.s:524-631 | Success means header accepted and memory as the load function says with exactly the declared length consumed; failure means it cannot load, or the file was incomplete, or the disk failed; at most the allocation and the byte before it are written |
| InstallSpec.RangeAboveMemlo | apps/platform/atari/resident/fnresident_o65_loader.s:330-408 | The allocation starts at or above MEMLO if and only if MEMLO is not $FFFF; it ends below loader, stack floor, display list and screen |
| InstallSpec.RangeAtTheTop | apps/platform/atari/resident/fnresident_o65_loader.s:342-348 | At MEMLO = $FFFF a range is found, from 0 |
| InstallSpec.ScanInBytes | apps/platform/atari/resident/fnresident_o65_loader.s:427-519 | The first of the eleven HATABS entries that is empty or N: decides: free; ours exactly if its table less our table offset is not negative and below MEMLO and 46 4E 41 31 stands at our marker offset from there; else foreign; without such an entry the table is full |
| InstallSpec.RangeInBytes | apps/platform/atari/resident/fnresident_o65_loader.s:330-425 | When there is a range, and which: from MEMLO rounded up to even, to an end at most $6000 and below MEMTOP less $0800, the display list and the screen |
| InstallSpec.InstalledIsFound | apps/platform/atari/resident/fnresident_o65_loader.s:445-519 | Scanning again after an install finds the entry just published as our own, with the same start |
| InstallSpec.InstalledFootprint | apps/platform/atari/resident/fnresident_o65_loader.s:120-194 | Unless the module relocates a WORD at $FFFF, a successful install changed memory nowhere but in the range, one HATABS entry and MEMLO |
| InstallSpec.InstalledImage | apps/platform/atari/resident/fnresident_o65_loader.s:539-628 | The resident payload built from an image is that image relocated to the range's start |
| InstallSpec.InstalledKeepsBounds | apps/platform/atari/resident/fnresident_o65_loader.s:199-236 | After an install the live bounds are as before, so the header can be staged again, and MEMLO is the end of the range |
| Installer.Installer.Install | apps/platform/atari/resident/fnresident_o65_loader.s:120-194 | The caller's zero page and all IOCBs are given back on every outcome; unless installed, memory is unchanged but for the proposed range and the byte below it, and entirely unchanged when no range was found; installed implies that the entry point was called and returned zero, and comes with the loaded, published image; each other outcome comes with its cause; outcome 1 exactly where the first HATABS entry that is empty or N: is N: and ours, with its range; 4 where it is N: and not ours; 5 where there is none; 3 where it is empty and the module does not fit |
| Installer.Installer.InstallAgain | apps/platform/atari/resident/fnresident_o65_loader.s:427-519 | After a successful run the next one reports the payload as its own with the same start and end and changes no byte of memory; it can only fail through the disk |
| Installer.Installer.Resolve | apps/platform/atari/resident/fnresident_o65_loader.s:153-174 | From the scan on: own, foreign, no slot and no memory exactly in their cases with memory unchanged and the entry point not called; else installed with a zero init status, or a format or init failure with its cause; which of own, foreign, full and no room is said about the entries of HATABS themselves |
| Installer.Installer.Begin | apps/platform/atari/resident/fnresident_o65_loader.s:120-136 | The bank is saved and the live bounds measured; the header is staged exactly when scratch fits, an IOCB is free and the file has a valid wrapper, short of disk errors |
| Installer.Installer.Finish | apps/platform/atari/resident/fnresident_o65_loader.s:176-194 | Bank and borrowed IOCB are what they were |
| Installer.Installer.DiskClose | apps/platform/atari/resident/fnresident_o65_loader.s:1312-1328 | All sixteen bytes of the borrowed IOCB are back and no other IOCB differs |
| Installer.Installer.InitResult | apps/platform/atari/resident/fnresident_o65_loader.s:199-242 | The recorded bounds are those of memory, the stack floor being MEMTOP - $0800 modulo 2^16 |
| Installer.Installer.FindIocb | apps/platform/atari/resident/fnresident_o65_loader.s:1201-1210 | Finds a free IOCB among $10 to $70 if and only if there is one |
| Installer.Installer.DiskOpenHeader | apps/platform/atari/resident/fnresident_o65_loader.s:1186-1264 | Success means the first 48 bytes of the file are staged and one IOCB is borrowed; failure has one of its causes; what is to be given back is kept either way |
| Installer.Installer.ValidateWrapper | apps/platform/atari/resident/fnresident_o65_loader.s:244-328 | Accepts exactly the FNR1 wrapper profile and sets the end of the module without wrap |
| Installer.Installer.ScanHatabs | apps/platform/atari/resident/fnresident_o65_loader.s:427-519 | Proceeds exactly with the first empty slot before any N: entry; own, foreign and no-slot results are exactly those of the table |
| Installer.Installer.Existing | apps/platform/atari/resident/fnresident_o65_loader.s:445-519 | An N: entry is ours exactly when its table address less our offset lies below MEMLO and carries the marker there |
| Installer.Installer.CalculateRanges | apps/platform/atari/resident/fnresident_o65_loader.s:330-408 | Finds exactly the range that fits, if any |
| Installer.Installer.LoadAndPublish | apps/platform/atari/resident/fnresident_o65_loader.s:165-174 | Either the loaded image was started with status zero and published, or nothing but the range and the byte below it was written, with the cause of the failure |
| Installer.Installer.PrepareAndInit | apps/platform/atari/resident/fnresident_o65_loader.s:977-1030 | The entry point is called exactly on an image with its marker, and success means exactly that it was called and returned zero |
| Installer.Installer.StartAndPublish | apps/platform/atari/resident/fnresident_o65_loader.s:168-174 | Published with marker, table and all six vectors inside the range after an init status of zero, or nothing outside the range written; an init failure exactly when the entry point was not called or returned another status |
| Installer.Installer.ValidateTableVectors | apps/platform/atari/resident/fnresident_o65_loader.s:1096-1133 | All six vectors plus one lie inside the resident range, in both directions |
| Installer.Installer.PublishHatabs | apps/platform/atari/resident/fnresident_o65_loader.s:1032-1081 | HATABS and MEMLO change only if the vectors are inside, and then exactly one entry and MEMLO |
| Amiga.Unit.Session | apps/platform/amiga/fmount.c:552-612 | Over every sequence of the two commands, with handlers starting and exiting in between: nesting is 0 or 1 and it is 1 exactly when the unit is parked, a handler that cannot exit and no medium; no eject, unlink or DosEnvec rewrite was ever unsafe |
| Amiga.Unit.RestoreAfter | apps/platform/amiga/fmount.c:600-612 | After any such sequence, a parked unit is restored by one FMOUNT of an image of its own kind, with handler, node and medium of one geometry and nesting 0, unless mounting itself fails, and then it stays parked |
| Amiga.Unit.Fmount | apps/platform/amiga/fmount.c:488-628 | Success means node geometry and filesystem equal the mounted medium's and no inhibit is left; a parked unit is restored by an image of its own kind unless the mount fails, and stays parked otherwise; a handler that cannot exit never gets a medium of another kind; every failure has a cause among the calls made: unsupported image, a refused call, a failed query or mount, a handler that does not exit; the last of these means twenty looks after ACTION_DIE of which none found it gone |
| Amiga.Unit.TakeAccess | apps/platform/amiga/fmount.c:559-581 | A parked handler is recognised and not inhibited again; an active compatible one is inhibited once; an incompatible one is gone or the mount is refused |
| Amiga.Unit.MountAndRelease | apps/platform/amiga/fmount.c:582-612 | The inhibit taken or inherited is released exactly when it should be; success implies the right geometry and medium |
| Amiga.Unit.NodeParked | apps/platform/amiga/fmount.c:106-110 | True exactly for an active inhibited handler without medium, if its queries succeed |
| Amiga.Unit.RetireHandler | apps/platform/amiga/fmount.c:128-144 | Gone means the handler was seen to have exited; not supported means exactly a handler without ACTION_DIE, which is left as it was; still there means that ACTION_DIE was sent, the node was looked at twenty times, and no look found it without a handler; the first look that does ends the wait |
| Amiga.Unit.UpdateInactiveEnvec | apps/platform/amiga/fmount.c:146-172 | Rewrites the geometry only of a node without handler |
| Amiga.Unit.CreateNode | apps/platform/amiga/fmount.c:174-205 | A created node has the candidate's geometry, and no node of that name was there |
| Amiga.Unit.Fumount | apps/platform/amiga/fumount.c:206-457 | The medium never goes from under a handler in normal operation, nor from one that has not flushed; success means no medium and the node gone or its handler parked; every failure has its cause: a refused call, a failed query, a handler that twenty-one looks after ACTION_DIE did not find gone, open files, a unit parked already, or no node; a second FUMOUNT of a parked unit changes nothing |
| Amiga.Unit.Retire | apps/platform/amiga/fumount.c:269-356 | The medium may go only after a running handler has flushed and is then seen inactive, or idle and inhibited once; a parked handler is left alone; every refusal leaves the nesting as it was |
| Amiga.Unit.WaitHandlerRetired | apps/platform/amiga/fumount.c:164-203 | Retired is reported only when no handler is seen, and a handler that was not asked to die stays; not retired means that it was looked for twenty-one times and no look found it gone; the first look that does ends the wait |
| Amiga.Unit.RemoveNode | apps/platform/amiga/fumount.c:412-437 | Only a node without handler is unlinked |
| ListCodec.RequestInBytes | src/common/fnsvc.c:134-143 | The request byte by byte: 1, the URI's length, the URI, the start index, 420, and 2 |
| ListCodec.EntryInBytes | src/common/fnsvc.c:168-191 | On any bytes: where bit 1 of the page's flags is clear an entry takes 18 bytes and its name, its size right behind the name and its time eight bytes further on, four bytes each, low byte first; where it is set 2 bytes and its name; and when it is accepted |
| ListCodec.FullPage | src/common/fnsvc.c:158-191 | A full page with one file of five bytes and time 7 is told with just these |
| ListCodec.CompactPage | src/common/fnsvc.c:158-191 | A compact page with one directory is told with kind and name only |
| ListCodec.RequestRoundTrip | src/common/fnsvc.c:107-148 | Round trip: the request reads back as URI, start index, payload limit and flags, for everything its 16-bit fields hold |
| ListCodec.GuardShort | src/common/fnsvc.c:130-143 | The size check lets through a request that does not fit if and only if the URI has 505 or 506 bytes, as it counts 6 fixed bytes where 8 are written |
| ListCodec.EntryRoundTrip | src/common/fnsvc.c:168-194 | Round trip: an encoded entry of either form decodes to its kind, name and the low halves of size and time, and nothing of the rest is consumed |
| ListCodec.EntriesRoundTrip | src/common/fnsvc.c:168-194 | Round trip for any list of entries, in order |
| ListCodec.PageRoundTrip | src/common/fnsvc.c:150-194 | Round trip for any page that fits the buffer |
| Listing.Client.ListDirectory | src/common/fnsvc.c:107-201 | Against any paging of one fixed list of fewer than 65536 entries, each page in either form: terminates, and calls back exactly the list, in order and once each, every entry in the form of its page; or a prefix of it and an error with its own cause, so a service that refuses no call, reports no bad status and sends no empty page before the end is listed completely; the status and length the caller may print are those of the latest answer |
| Listing.Client.Page | src/common/fnsvc.c:138-197 | One request and its response tell exactly the next entries of the list, in the form the page has; transport and status errors are exactly those of the service; status and length of the answer are recorded |
| Listing.Client.Response | src/common/fnsvc.c:150-194 | On any response bytes at all: the calls made and the error reported are those of the decoding function |
| Listing.Client.EntryAt | src/common/fnsvc.c:174-191 | On any bytes at all: an entry is taken exactly if it fits the response and the name buffer, and no byte beyond the response is read |
| Listing.Client.BuildRequest | src/common/fnsvc.c:134-143 | The buffer holds exactly the encoded request |
| AppStore.Fapp.PutThenGet | apps/fapp.c:151-211 | PUT then GET of a new key prints the value and a newline if and only if the value is shorter than 65536 bytes; of an existing key, for such values, if and only if the store starts values afresh or the value is not shorter than what it replaces; both succeed under any schedule of short writes and reads unless a call fails or a write stalls |
| AppStore.Fapp.DoPut | apps/fapp.c:179-211 | The key holds the value's first length-modulo-65536 bytes over what the store keeps, or a prefix of them when a call failed or a write stalled, and only then |
| AppStore.Fapp.DoGet | apps/fapp.c:151-177 | Prints exactly the stored value and a newline, or reports a missing key or a failure; ends on every schedule |
| AppStore.OverlayContinues | apps/fapp.c:196-207 | A short write continues the overlay of the parts before it |
| AppStore.OverlayIsValue | apps/fapp.c:179-211 | What is stored is the value alone if and only if it is at least as long as what it replaced |

## Left out

- Installer.Installer.Install: the result block's detail codes, recorded vectors and HATABS offset, and the stack pointer, which `finish` reloads, are not modelled; a failure returns through the methods instead.
- Installer.Installer.CallEntry: what the resident entry point does beyond keeping marker and table is arbitrary.
- Installer.Installer.DiskClose: the CLOSE command itself has no effect but on the borrowed IOCB.
- Resident.Resident.DoStatus: the values INFO returns are not used by the handler and not modelled.
- Resident.Resident.Gateway: the processor stack and flags are not modelled; `busy` returns to its old value.
- Adapter.SioAdapter.Transmit: the device control block and SIO status codes are left out; a transfer succeeds or fails.
- The owner records are an array of two values, one for each X of 0 and 16, not 32 bytes; fields of a record cannot be confused with each other in the model.
- The SDX child and in-memory loader variants: their pointer patching repeats the same logic.
- Amiga.Unit.Fmount: argument parsing, OpenDevice and the inspection of the candidate are one input, and the classification of media profiles is not modelled.
- Amiga.Unit.Session: one unit at a time; units share nothing in these tools. A handler that starts between FUMOUNT's look at the node and its eject is excluded.
- Workbench 1.3 endpoints and marker files: a finite domain of eight endpoints.
- Listing.Client.ListDirectory: the list is fixed while it is paged; the raw DOS error of a refused call is not modelled; resolve_path is left out, as it uses the same codec without a loop.
- AppStore.Fapp.DoGet: the 32-bit wrap of the read offset, which needs a value of 4 GiB, is not modelled; neither are STAT, DEL and LIST.
- Command-line parsing, date and size formatting, screen diagnostics, hardware registers and build plumbing: they would only add easy members.
- Cycle timing and branch ranges of the 6502 code: only the carries of the multi-byte arithmetic matter here.
