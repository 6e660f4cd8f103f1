# Verification of the pyfreeswitch event-socket client

A Dafny model of pyfreeswitch's inbound Event Socket client, its reconnecting
listener and the parsers around them, with proofs of what they promise over every
peer, every run and every input.

Check everything with `dafny verify dfyconfig.toml`.

## How the model is built

**The peer is a script.** `Transport.Net` fixes in advance how every socket call turns
out: a connection attempt is refused or accepted, a send works or breaks, and the stream
brings 1 to 4096 bytes, its end or an error, each some time after the step before it;
nothing comes behind the end or an error, and the bytes before it are the stream. A
receive whose window closes before the next step comes times out at the end of the
window, and the rest of the wait is still to come; a send or a connection attempt that
outlasts the socket timeout fails. A script that has run out refuses connections, breaks
sends and ends the stream. Theorems hold for every script, and so for every peer,
however it adapts. `received` and `sent` record the traffic of the current connection and
`calls` counts receives; `log` records each frame taken off the wire and its use.

**A reference decoder.** `Framing.DecodeOne` and `DecodeAll` say what a byte string
means as frames with no socket, chunk or clock in sight. UTF-8 with replacement,
`unquote`, `strip`, `split` and `splitlines` are written out as Python has them.

**Specification and object.** `Transport` gives each operation as a function on the
client's state; its frame read waits until the buffer holds a verdict and then takes
the frame. `EslClient.ESLClient` is the imperative client with the source's fields and
loops: it takes the header out of the buffer first and the body afterwards, and its
methods are proved to end in the specified result and state. `Reconnect` and
`EslListener.ESLEventListener` do the same for the listener. Exceptions are the
`Error` datatype, with timeouts, connection, protocol, authentication, command and
operating-system errors kept apart.

**Laws.** `TransportLaws` and `OperationLaws` hold what one frame read and one public
call keep; `Runs`, `Fragments`, `Pairing` and `ReconnectLaws` hold the theorems over
whole runs; `Printing` and `EndToEnd` print frames and events and close the circle, and `Handling`
carries it on to the handler of the reconnecting listener.
`Scripts` reads the peer's script ahead of the client, one frame at a time.
`ReplyTiming` reads off the script exactly when a command is answered or times out,
`Escapes` exactly which errors leave the reconnect loop, `Dialogue` what printed frames
and answers do by their types and texts, and `Deviations` holds inputs on which the code
departs from its documentation. `Commands`, `CommandLaws`, `Profiles`, `Statuses`,
`CallCenter` and `Channels` cover the command gate, the command lines and the typed parsers.
Header names, frame types, reply marks, verbs and limits are written out in the laws that
depend on them, not only in the definitions.

| file | content |
|---|---|
| `Text`, `TextLaws`, `Utf8`, `Percent`, `Decimal`, `HeaderBlock` | text, codecs, header blocks |
| `Framing`, `Printing` | the reference decoder and the printers it undoes |
| `Transport`, `TransportLaws`, `OperationLaws` | the client's operations and their laws |
| `Scripts`, `Fragments`, `Runs`, `Pairing`, `EndToEnd` | whole runs of one client |
| `Handling` | from the peer's printer to the handler, over whole runs of the listener |
| `ReplyTiming`, `Escapes`, `Dialogue`, `Deviations` | exact conditions for timeouts and escaping errors, dialogues with a printing peer, failing inputs |
| `EslClient` | the client object |
| `Reconnect`, `ReconnectLaws`, `EslListener` | the listener: specification, laws, object |
| `Commands`, `CommandLaws`, `Profiles`, `Statuses`, `CallCenter`, `Channels` | gate, command lines, profile names, statuses, listings, snapshots |

## Where the code differs from its documentation

- The payload of an inner event is documented as preserved. Its length is checked in
  bytes and the slice taken in characters, so text behind a multi-byte payload leaks
  into it: `Printing.PayloadIsExactIff` gives the exact condition and
  `Printing.PayloadCanOverrun` an event on which it fails.
- `run_forever` is documented to return only after `close`. A timeout of the greeting or
  of a command, a rejected login and a refused subscription leave it as exceptions:
  `Escapes.EscapesExactly` and `Escapes.ReturnsIff` say exactly when, on the peer's
  script, and `Deviations` has a script for each of the four.
- `api` is documented to run only allow-listed forms. The gate judges the stripped words
  and the raw text is sent, so one accepted command can be two messages:
  `Pairing.GateAllowsTwoMessages`; `Pairing.OneMessageExactly` says when it is one.
- A `_body:` header line sets `_body` when no positive length is declared:
  `Deviations.BodyIsPayloadIff` gives the exact condition for a frame's `_body` to be its
  payload, and in `Deviations.ApiReturnsAHeaderLine` such a line is what `api` returns.

## Model

| member | source | states |
|---|---|---|
| `Framing.VerdictBounds` | src/pyfreeswitch/clients/esl.py:695-712 | an accepted frame, header and declared body together, takes at most `max_frame_bytes`; while a frame is undecided fewer than `max_header_bytes + max_body_bytes` bytes are waiting |
| `Framing.VerdictStays` | src/pyfreeswitch/clients/esl.py:677-713 | once the bytes in hand decide the first frame, no later byte changes the verdict |
| `Framing.VerdictNeedsOnlyItsFrame` | src/pyfreeswitch/clients/esl.py:817-819 | a frame is decided by its own bytes alone, so nothing behind it is looked at or consumed |
| `Framing.SplitsDecode` | src/pyfreeswitch/clients/esl.py:677-713 | if the bytes so far are whole frames and a rest, decoding the stream at once gives those frames and then the rest's |
| `Framing.HeaderCapIsExact` | src/pyfreeswitch/clients/esl.py:811-823 | whatever bytes have come, the check "blank line ending beyond the cap" and the check "no blank line and the cap reached" together reject exactly the headers whose blank line does not end within `max_header_bytes`; with neither, the wait goes on |
| `Framing.EventRefusedIff` | src/pyfreeswitch/clients/esl.py:728-760 | an inner event with a blank line behind its header is refused exactly if the header exceeds a cap, or a length is declared that is none, exceeds a cap, or exceeds the bytes that follow |
| `Framing.BareEventIff` | src/pyfreeswitch/clients/esl.py:728-760 | an inner event without a blank line is all header: refused exactly if that exceeds a cap or declares any length but zero, else the fields of the header |
| `Fragments.ReadingIsDecoding` | src/pyfreeswitch/clients/esl.py:677-726 | fragmentation independence, exactly: for every split of a byte stream into receives of 1 to 4096 bytes, with any pauses and any end of the connection after any wait, reading frame by frame gives the frames of the one-shot decoder on the whole stream, and its violation or else the error of that end, if and only if no frame is cut, that is, at no point of the stream is part of a frame in hand when the deadline of its read passes before the next step; if one is, it gives the frames complete at the first such point and a dropped connection |
| `Fragments.WholeFramesArrive` | src/pyfreeswitch/clients/esl.py:684-726 | a stream whose every receive ends between two frames is read to its end as the one-shot decoder says, whatever the pauses |
| `Fragments.StraddlingFrameIsCut` | src/pyfreeswitch/clients/esl.py:684-722 | the deadline of a read runs from its start: a frame whose first part comes three quarters of a timeout into a read and whose second half a timeout later is cut, though no pause is as long as the timeout |
| `Fragments.PromptFrameArrives` | src/pyfreeswitch/clients/esl.py:684-713 | the same chunks with the same pause between them arrive whole when the first comes at once |
| `Fragments.ChunkingIsInvisible` | src/pyfreeswitch/clients/esl.py:801-832 | two ways of cutting one stream into chunks and pauses give the same frames as far as both read, and the same frames if neither cuts a frame, with the same final error if both connections end alike |
| `TransportLaws.PumpMeetsDecoder` | src/pyfreeswitch/clients/esl.py:684-726 | under any script of data, timeouts, errors and end of stream, one frame read ends as the one-shot decoder says of the buffer followed by the bytes received, and consumes exactly the decided frame |
| `TransportLaws.PumpKeepsDeadline` | src/pyfreeswitch/clients/esl.py:838-844 | every receive gets the smaller of the time left and the timeout, so trickled bytes cannot push a frame read past its deadline |
| `TransportLaws.PumpBoundsReceives` | src/pyfreeswitch/clients/esl.py:810-832 | a frame read makes at most `max_header_bytes + max_body_bytes` minus the buffered bytes receives, failing ones included, whatever the clock and the peer do |
| `TransportLaws.PumpLeavesLittle` | src/pyfreeswitch/clients/esl.py:817-819 | what is left in the buffer after a frame is at most 4095 bytes, a proper part of one chunk |
| `TransportLaws.ReadFrameLaw` | src/pyfreeswitch/clients/esl.py:684-726 | on a live connection a frame read yields the next frame on a frame boundary, or an idle timeout with buffer and wire position unchanged and nothing buffered, or a closed client whose stream the decoder ends in the same way; a timeout with a partial frame closes; the socket timeout is restored |
| `OperationLaws.StashKeepsQueue` | src/pyfreeswitch/clients/esl.py:646-661 | an event kept during a command joins the end of the queue within both limits (64 events, `max_frame_bytes` stored bytes), and the byte counter stays the sum of the stored sizes |
| `OperationLaws.PopLaw` | src/pyfreeswitch/clients/esl.py:611-613 | `read_event` takes the oldest waiting event and the counter drops by its size |
| `OperationLaws.AwaitLaw` | src/pyfreeswitch/clients/esl.py:639-664 | a reply wait ends with the next reply frame, of type `api/response` or `command/reply`, and every event before it queued in wire order, or with the client closed and empty |
| `OperationLaws.CommandLaw` | src/pyfreeswitch/clients/esl.py:628-675 | a command that returns has sent one text and consumed one reply, of type `api/response` or `command/reply`, leaving none outstanding; every exceptional exit leaves the client closed, so a late reply can answer nothing |
| `OperationLaws.ReadEventLaw` | src/pyfreeswitch/clients/esl.py:599-622 | `read_event` returns what the next stream frame in wire order unwraps to, which is the frame itself unless its type is `text/event-plain`; an `ESLTimeout` leaves buffer, queue and wire position unchanged; any other error leaves the client closed and empty, with the stream read to the end the decoder gives it or the next stream frame an envelope with no event in it |
| `OperationLaws.UnwrapByType` | src/pyfreeswitch/clients/esl.py:614-622 | only a frame of type `text/event-plain` is unwrapped, from its `_body`; every other frame surfaces as it is |
| `OperationLaws.ConnectLaw` | src/pyfreeswitch/clients/esl.py:201-235 | from the closed state a successful connect has taken one frame, an `auth/request`, with nothing queued or answered and not authenticated; any failure leaves the closed state |
| `OperationLaws.AuthenticateLaw` | src/pyfreeswitch/clients/esl.py:237-251 | login sends the one `auth` line and succeeds exactly on an answer whose `Reply-Text` starts with `+OK`; otherwise the client ends closed and logged out |
| `OperationLaws.SubscribeLaw` | src/pyfreeswitch/clients/esl.py:253-269 | a subscription sends its one line and succeeds exactly on an answer whose `Reply-Text` starts with `+OK`; a refusal consumes its answer and keeps the connection open; every other failure closes it |
| `OperationLaws.ApiLaw` | src/pyfreeswitch/clients/esl.py:271-285 | `api` refuses, before sending anything, exactly the commands that neither pass the gate nor carry the opt-in; otherwise it sends the raw text once behind `api ` and returns the `_body` of its own answer, empty if there is none |
| `OperationLaws.CommandKeepsDeadline` | src/pyfreeswitch/clients/esl.py:636-642 | a command, its send included, ends by start + timeout however many events arrive |
| `OperationLaws.ReadEventKeepsDeadline` | src/pyfreeswitch/clients/esl.py:684-692 | `read_event` ends by start + timeout |
| `OperationLaws.ConnectKeepsDeadline` | src/pyfreeswitch/clients/esl.py:209-228 | connecting ends by start + twice the timeout: one for the connection, one for the greeting |
| `OperationLaws.AwaitBoundsWork` | src/pyfreeswitch/clients/esl.py:639-661 | a command takes at most 65 minus the initially queued events frames, and so a number of receives bounded by the caps, with no help from the clock or the peer |
| `Runs.RunKeepsInvariant` | src/pyfreeswitch/clients/esl.py:180-187 | over all runs of public calls in which connect is called only when closed: connected iff a socket is held, authenticated implies connected, a closed client holds nothing, the queue holds at most 64 `text/event-plain` frames whose sizes sum to the counter and stay within `max_frame_bytes`, and the bytes received are whole taken frames and then the buffer |
| `Runs.RunConserves` | src/pyfreeswitch/clients/esl.py:599-661 | every run that leaves the connection open hands out a contiguous stretch of the stream frames, one event each in order, as they are unless their type is `text/event-plain`, and adds exactly its answers |
| `Runs.EventsAreConserved` | src/pyfreeswitch/clients/esl.py:599-661 | event conservation: over every interleaving of calls on one connection, the stream frames taken from the wire are those already delivered, each as it is unless its type is `text/event-plain`, and then the queue, in wire order; the answers are one per text sent; the one-shot decoding of all bytes received is the frames taken and then those in the buffer |
| `Pairing.OneMessageEach` | src/pyfreeswitch/clients/esl.py:638 | lines that hold no blank line and do not end in a line feed put exactly one message each on the wire |
| `Pairing.OneMessageExactly` | src/pyfreeswitch/clients/esl.py:638 | a sent line is one message with nothing left over exactly when it holds no blank line and does not end in a line feed |
| `Pairing.GateAllowsTwoMessages` | src/pyfreeswitch/clients/esl.py:128-151 | the gate does not make a raw command one message: a command with leading blank lines is accepted, and the text sent is two messages |
| `Pairing.KthCommandGetsKthReply` | src/pyfreeswitch/clients/esl.py:628-675 | reply pairing: with lines that hold no blank line and do not end in a line feed, and a peer that never sends more replies than it has seen messages, the k-th command answered on a connection got the k-th reply on its wire, for every interleaving with events and `read_event` |
| `EslClient.ESLClient.constructor` | src/pyfreeswitch/clients/esl.py:180-187 | a new client is in the closed state with an empty buffer and queue |
| `EslClient.ESLClient.Close` | src/pyfreeswitch/clients/esl.py:287-297 | close clears flags, buffer, queue and counter, gives up the socket and changes nothing else |
| `EslClient.ESLClient.RaiseProtocolError` | src/pyfreeswitch/clients/esl.py:863-867 | a protocol error leaves the client closed |
| `EslClient.ESLClient.Recv` | src/pyfreeswitch/clients/esl.py:834-861 | one receive bounded by the time left; an error or the end of stream closes, a timeout does not and loses nothing still to come |
| `EslClient.ESLClient.Send` | src/pyfreeswitch/clients/esl.py:666-675 | the text goes out whole within the socket timeout, or the client is closed and a connection error returned |
| `EslClient.ESLClient.ReadUntil` | src/pyfreeswitch/clients/esl.py:801-825 | the loop that takes the header block out of the buffer continues the same frame read: putting the block back gives the state the reference read is in; the buffer never exceeds max(header cap, body cap) + 4095 bytes |
| `EslClient.ESLClient.ReadExact` | src/pyfreeswitch/clients/esl.py:827-832 | the loop that collects exactly n body bytes behind a consumed header is the reference read with the header still in hand, under the same buffer bound |
| `EslClient.ESLClient.ReadBody` | src/pyfreeswitch/clients/esl.py:709-712 | the declared body, decoded, completes the frame the decoder sees |
| `EslClient.ESLClient.ReadHeaderAndBody` | src/pyfreeswitch/clients/esl.py:688-713 | the two-phase read equals the one-phase reference read in result and state, and reports whether part of a frame is in hand |
| `EslClient.ESLClient.ReadFrame` | src/pyfreeswitch/clients/esl.py:677-726 | the frame read with its timeout conversion and restored socket timeout, equal to the specification whose laws are proved |
| `EslClient.ESLClient.ParseHeaders` | src/pyfreeswitch/clients/esl.py:789-799 | the loop over lines builds exactly the specified header map |
| `EslClient.ESLClient.ParseContentLength` | src/pyfreeswitch/clients/esl.py:762-786 | an invalid or excessive length closes the client with a protocol error, a valid one is returned and changes nothing |
| `EslClient.ESLClient.FrameSize` | src/pyfreeswitch/clients/esl.py:650-652 | the size summed over the items in any order is the specified one |
| `EslClient.ESLClient.AwaitOne` | src/pyfreeswitch/clients/esl.py:639-664 | one pass of the reply loop either finishes as the specification or queues one event and continues it |
| `EslClient.ESLClient.Command` | src/pyfreeswitch/clients/esl.py:628-664 | the command loop, equal to the specification whose laws are proved |
| `EslClient.ESLClient.Connect` | src/pyfreeswitch/clients/esl.py:201-235 | connect, equal to the specification whose laws are proved |
| `EslClient.ESLClient.Authenticate` | src/pyfreeswitch/clients/esl.py:237-251 | login, equal to the specification whose laws are proved |
| `EslClient.ESLClient.Subscribe` | src/pyfreeswitch/clients/esl.py:253-269 | subscription, equal to the specification whose laws are proved |
| `EslClient.ESLClient.Api` | src/pyfreeswitch/clients/esl.py:271-285 | `api`, equal to the specification whose laws are proved |
| `EslClient.ESLClient.ParseEventBody` | src/pyfreeswitch/clients/esl.py:728-760 | an inner event is returned and changes nothing, or a protocol error closes the client |
| `EslClient.ESLClient.ReadEvent` | src/pyfreeswitch/clients/esl.py:599-622 | `read_event`, equal to the specification whose laws are proved |
| `Utf8.RoundTrip` | src/pyfreeswitch/clients/esl.py:671 | decoding recovers every encoded text |
| `Utf8.NothingHidden` | src/pyfreeswitch/clients/esl.py:691 | bytes that decode without a replacement character are the encoding of what they decode to |
| `Utf8.IllFormedIsReplaced` | src/pyfreeswitch/clients/esl.py:691 | where no character is encoded, the longest beginning of one, or else a single byte, gives one replacement character, and decoding goes on behind it |
| `Percent.RoundTrip` | src/pyfreeswitch/clients/esl.py:798 | unquoting recovers every text from every percent-encoder that leaves any set of visible characters other than `%` bare |
| `Percent.UnquotedRun` | src/pyfreeswitch/clients/esl.py:798 | what unquoting gives for any text: each escape, with small or capital digits, is its byte, the bytes of one ASCII run are decoded together, and stray percent signs and all other characters stay |
| `Percent.PlainTextUnchanged` | src/pyfreeswitch/clients/esl.py:798 | a text without a whole escape is left as it is, stray percent signs included |
| `HeaderBlock.LastLineWins` | src/pyfreeswitch/clients/esl.py:791-799 | a header is present iff some line names it, and has the value of the last such line |
| `HeaderBlock.RoundTrip` | src/pyfreeswitch/clients/esl.py:789-799 | parsing a printed block returns its fields |
| `HeaderBlock.EncodedRoundTrip` | src/pyfreeswitch/clients/esl.py:789-799 | percent-encoded values of arbitrary text, line breaks and colons included, survive printing, line splitting, stripping and decoding |
| `HeaderBlock.LooseLine` | src/pyfreeswitch/clients/esl.py:791-799 | blanks around a key, a colon or a value do not matter, and the value goes on behind further colons |
| `HeaderBlock.NoColonNoField` | src/pyfreeswitch/clients/esl.py:793-795 | a line without a colon carries no header |
| `HeaderBlock.SizeOfFields` | src/pyfreeswitch/clients/esl.py:650-652 | the stored size is the bytes of all names and values and four more for each field |
| `HeaderBlock.SizeByAnyKey` | src/pyfreeswitch/clients/esl.py:650-652 | the stored size does not depend on the order of the headers |
| `Decimal.ContentLengthExact` | src/pyfreeswitch/clients/esl.py:762-786 | a length is accepted exactly when it is a non-empty ASCII digit string whose value is at most `max_body_bytes`, and then that value is returned; the digit-count shortcut rejects nothing allowed |
| `Decimal.PaddedLength` | src/pyfreeswitch/clients/esl.py:769 | a leading zero never changes the outcome |
| `Decimal.PrintedLength` | src/pyfreeswitch/clients/esl.py:769-786 | every printed length within the cap reads back as itself |
| `Printing.FrameRoundTrip` | src/pyfreeswitch/clients/esl.py:688-713 | a printed outer frame decodes to its headers and payload, whatever bytes follow it |
| `Printing.EventRoundTrip` | src/pyfreeswitch/clients/esl.py:728-760 | a printed inner event decodes to its fields, of arbitrary text, and to its payload when nothing follows it |
| `Printing.PayloadIsExactIff` | src/pyfreeswitch/clients/esl.py:755-759 | with text behind the payload, the payload returned is exact if and only if it is single-byte text or nothing follows: the length is checked in bytes and the slice taken in characters |
| `Printing.PayloadCanOverrun` | src/pyfreeswitch/clients/esl.py:755-759 | the failing case is real: an event that declares two bytes for the payload `é`, with `x` behind it, is parsed with the payload `éx`, and without the `x` with the payload `é` |
| `Printing.StreamRoundTrip` | src/pyfreeswitch/clients/esl.py:677-760 | a printed stream of events decodes to exactly those events in order, with nothing left over |
| `EndToEnd.PrintedEventsArrive` | src/pyfreeswitch/clients/esl.py:599-861 | events a peer prints arrive as they were and in order, whatever their texts hold, however their bytes are cut into receives and pauses, and however and after whatever wait the connection ends: all of them, and then that end, if and only if no frame is cut; else those complete at the first cut |
| `EndToEnd.EventsNowAndThenArrive` | src/pyfreeswitch/clients/esl.py:599-861 | events sent one by one, each in a receive of its own, all arrive, however long the pauses between them and before the end |
| `Handling.PrintedEventsHandled` | src/pyfreeswitch/clients/esl_listener.py:140-160 | from the printer to the handler, on one connection: however the bytes of printed events are cut and paused, the handler sees, as they were and in order, a first stretch of those that carry an `Event-Name`, up to the first at which it closes the listener; if it closes at none and no frame is cut, all of them, and then the end of the connection |
| `Handling.EveryNamedEventIsHandled` | src/pyfreeswitch/clients/esl_listener.py:162-191 | over a whole run of `run_forever` against switches that greet, accept login and subscription with any texts starting with `+OK`, and send their events, cut into receives and pauses in any way that cuts no frame in two: while nobody closes the listener, the handler sees every event that carries an `Event-Name`, in order across all connections, and nothing else |
| `Handling.OneByOneIsUncut` | src/pyfreeswitch/clients/esl.py:684-713 | a stream that brings each event in a receive of its own, whatever the pauses, cuts none |
| `EslListener.ESLEventListener.Start` | src/pyfreeswitch/clients/esl_listener.py:110-114 | connect, login and subscription in order, stopping at the first failure |
| `EslListener.ESLEventListener.Close` | src/pyfreeswitch/clients/esl_listener.py:116-120 | sets the closed flag and closes the client |
| `EslListener.ESLEventListener.OnEvent` | src/pyfreeswitch/clients/esl_listener.py:180-183 | the handler sees one frame and may close the listener |
| `EslListener.ESLEventListener.ListenUntilDrop` | src/pyfreeswitch/clients/esl_listener.py:132-160 | the streaming loop over one connection hands on what the specification lists and ends closed or with the error that dropped it |
| `EslListener.ESLEventListener.Attempt` | src/pyfreeswitch/clients/esl_listener.py:177-183 | the guarded part of one pass of the reconnect loop |
| `EslListener.ESLEventListener.Sleep` | src/pyfreeswitch/clients/esl_listener.py:188 | the backoff sleep moves the clock and may find the listener closed afterwards |
| `EslListener.ESLEventListener.OnePass` | src/pyfreeswitch/clients/esl_listener.py:176-191 | one pass closes the client on every way out and sets the next backoff |
| `EslListener.ESLEventListener.RunForever` | src/pyfreeswitch/clients/esl_listener.py:162-191 | the loop returns normally only once closed, and its passes, handled frames, final state and escaping error are those of the specification |
| `ReconnectLaws.ListenLaw` | src/pyfreeswitch/clients/esl_listener.py:140-160 | on an open client the handler sees exactly the named events of the next stream frames, in order, idle ticks and other frames invisible, up to the first event at which it closes the listener; if it closes at none, the events of all frames up to the end the decoder gives the stream, or up to the first envelope with no event in it |
| `ReconnectLaws.StartLaw` | src/pyfreeswitch/clients/esl_listener.py:110-114 | a start from the closed state ends open with nothing handed out, reading only its own connection's bytes, or closed after any failure that is retried |
| `ReconnectLaws.ListenerIsSafe` | src/pyfreeswitch/clients/esl_listener.py:162-191 | whole-run safety from a closed client: every pass finds the canonical closed state and takes the next connection attempt, reads only that connection's bytes, hands over exactly the named events of the first stream frames they decode to, and stops only after an event at which the handler closed, at the end of the decoded stream, or at an envelope with no event in it; a connection drops only where the script cuts a frame, or at the peer's end of the stream, and then every byte of the stream was received and every named event in it handled; the client ends closed; connection and OS errors never escape, and the loop ends normally exactly if it is closed, which it is at the first event, failure or sleep that finds it closed and at no other |
| `ReplyTiming.AwaitIsTimed` | src/pyfreeswitch/clients/esl.py:639-664 | the wait for a reply, read off the peer's script: it times out if and only if, behind queued `text/event-plain` frames only, time is up as a receive completes one frame more, or runs out between two frames; it returns a frame if and only if that frame is the first of type `api/response` or `command/reply`, behind queued events only, and in time; any other frame met there that cannot be queued is a protocol error |
| `ReplyTiming.CommandIsTimed` | src/pyfreeswitch/clients/esl.py:628-664 | a command times out, or returns a given reply, exactly when it goes out and the script is late for it, or answers it with that reply; any other frame that cannot be queued is a protocol error |
| `Escapes.ConnectIsTimed` | src/pyfreeswitch/clients/esl.py:219-235 | connecting times out exactly when the connection is accepted and set up and nothing comes for a whole timeout; it succeeds exactly when the first frame of the stream is complete in time and is an `auth/request` |
| `Escapes.ConnectFailures` | src/pyfreeswitch/clients/esl.py:209-235 | which error stands for which failure: no connection in time, socket setup, a first frame that breaks the protocol or is no greeting, a send that fails, no socket |
| `Escapes.StartEscapesIff` | src/pyfreeswitch/clients/esl_listener.py:110-114 | a start fails with an error the loop does not catch exactly when nothing comes for a whole timeout after connecting, or the greeting comes in time and the switch is late for the login or turns it down, or, logged in, it is late for the subscription or turns that down, and which error that is; it succeeds exactly when it is greeted and both commands are answered in time with a text that starts with `+OK` |
| `Dialogue.FrameByType` | src/pyfreeswitch/clients/esl.py:639-648 | while a command waits, a printed frame of type `api/response` or `command/reply` answers it; a frame of any other type but `text/event-plain` is a protocol error and closes the client |
| `Dialogue.StartByTexts` | src/pyfreeswitch/clients/esl.py:237-269 | against a switch that greets and answers twice, with any two texts, a start succeeds exactly if both start with `+OK`; else the first that does not decides between `ESLAuthError` and `ESLError` |
| `Escapes.EscapesExactly` | src/pyfreeswitch/clients/esl_listener.py:175-191 | an error escapes `run_forever` if and only if the start of its last pass meets that error uncaught on the peer's script, and no earlier start met any such error |
| `Escapes.ReturnsIff` | src/pyfreeswitch/clients/esl_listener.py:162-191 | `run_forever` returns normally if and only if no start of any pass met an uncaught error |
| `Deviations.GreetingTimeoutEscapes` | src/pyfreeswitch/clients/esl_listener.py:184 | a greeting that never comes is not retried: `ESLTimeout` leaves the loop |
| `Deviations.LoginTimeoutEscapes` | src/pyfreeswitch/clients/esl_listener.py:184 | a peer that greets and then says nothing for twice the timeout: `ESLTimeout` leaves the loop |
| `Deviations.RejectedLoginEscapes` | src/pyfreeswitch/clients/esl_listener.py:184 | a login answered with any text that does not start with `+OK`: `ESLAuthError` leaves the loop |
| `Deviations.RefusedSubscriptionEscapes` | src/pyfreeswitch/clients/esl_listener.py:184 | a subscription answered with any text that does not start with `+OK`: the plain `ESLError` leaves the loop |
| `Deviations.BodyIsPayloadIff` | src/pyfreeswitch/clients/esl.py:702-713 | a frame's `_body`, absent counting as empty, is its decoded payload if and only if a positive length is declared or no header line gives a non-empty `_body` |
| `Deviations.ApiReturnsAHeaderLine` | src/pyfreeswitch/clients/esl.py:284-285 | a reply with no declared length and a `_body:` header line: `api` returns that line's value |
| `ReconnectLaws.BackoffLaw` | src/pyfreeswitch/clients/esl_listener.py:175-189 | for 0 < base <= max the sleep after every caught failure is min(base * 2^k, max), k being the failures since the last successful start or since the loop began, for every pattern of failures and reconnects |
| `Reconnect.ReadEventUsesFuel` | src/pyfreeswitch/clients/esl_listener.py:140-145 | every delivered frame and every idle tick uses up something of the connection, bytes or waiting time, so the streaming loop ends with it |
| `Commands.ReadersPassTheGate` | src/pyfreeswitch/clients/esl.py:311-425 | the line of every typed reader splits into its intended tokens, is accepted by the gate and holds no line feed |
| `Commands.WritersNeedTheOptIn` | src/pyfreeswitch/clients/esl.py:453-593 | the line of every typed writer holds no line feed and is refused by the gate, so it passes only with the explicit opt-in |
| `Commands.GateSeesWordsOnly` | src/pyfreeswitch/clients/esl.py:128-151 | the gate judges any spacing of a command like its single-blank form |
| `Commands.AcceptedWordsAreSafe` | src/pyfreeswitch/clients/esl.py:128-151 | every word of an accepted command is made of identifier characters only, and there are one to five of them |
| `CommandLaws.GateIsExact` | src/pyfreeswitch/clients/esl.py:128-151 | the gate accepts a command exactly if its words are those of a sanctioned query: `status`, `version`, `uptime`, `help`, the six `show` tables and the channels as JSON, the `sofia` statuses, the three callcenter lists, one agent's list, and one agent's status, state or uuid |
| `CommandLaws.AcceptedVerbs` | src/pyfreeswitch/clients/esl.py:128-151 | no accepted command opens with a verb other than status, version, uptime, help, show, sofia and callcenter_config |
| `CommandLaws.ReaderLines` | src/pyfreeswitch/clients/esl.py:311-425 | the line of every typed reader, word for word |
| `CommandLaws.ReaderTakes` | src/pyfreeswitch/clients/esl.py:311-425 | which arguments each typed reader takes and which it refuses |
| `CommandLaws.WriterLines` | src/pyfreeswitch/clients/esl.py:453-593 | the line of every typed writer, word for word |
| `CommandLaws.WriterTakes` | src/pyfreeswitch/clients/esl.py:453-593 | which arguments each typed writer takes and which it refuses, unknown statuses and states included |
| `CommandLaws.ArgumentClasses` | src/pyfreeswitch/clients/esl.py:85-96 | agent, profile, dialplan, cause, dial-string and destination names as alphabets and lengths |
| `CommandLaws.QualifiedNames` | src/pyfreeswitch/clients/esl.py:107-121 | a qualified name is an agent name with exactly one `@` and text on both sides of it |
| `CommandLaws.UuidShape` | src/pyfreeswitch/clients/esl.py:124-125 | a uuid is five runs of 8, 4, 4, 4 and 12 hexadecimal digits joined by hyphens |
| `CommandLaws.RecordingPaths` | src/pyfreeswitch/clients/esl.py:581-593 | a recording path is absolute, 2 to 513 plain characters long, and holds no `..` |
| `Commands.SubscribeLineWords` | src/pyfreeswitch/clients/esl.py:260-265 | the subscription line is the plain events, then one `CUSTOM` and all subclasses, in order and on one line |
| `CommandLaws.SortedEventsLine` | src/pyfreeswitch/clients/esl.py:260-265 | for plain events and then subclasses, those names with a double colon, the words of the line are `event plain`, the plain events, one `CUSTOM` and the subclasses |
| `CommandLaws.EventOrderIsSorted` | src/pyfreeswitch/clients/esl.py:260-265 | where a subclass stands among the plain events makes no difference to the line |
| `Profiles.NormalizeSipProfiles` | src/pyfreeswitch/config.py:30-45 | the loop with its early break returns the first four of all distinct valid names |
| `Profiles.DistinctMembers` | src/pyfreeswitch/config.py:38-42 | the names collected are exactly the valid names that occur |
| `Profiles.DistinctOrder` | src/pyfreeswitch/config.py:38-42 | each is collected once, in order of first occurrence |
| `Profiles.NormalizedTwice` | src/pyfreeswitch/config.py:30-45 | normalising the result again changes nothing, for every setting |
| `Profiles.FirstFour` | src/pyfreeswitch/config.py:30-45 | nothing given means `wg` and `vpc`; no list means no name; of a list, the first distinct valid names, four at most and fewer only if there are no more |
| `CallCenter.ParseCallcenterTable` | src/pyfreeswitch/models/callcenter.py:129-164 | the parsing loop builds exactly the specified table |
| `CallCenter.RefusedIff` | src/pyfreeswitch/models/callcenter.py:136-141 | a listing is refused exactly if its stripped text starts with `-err` or `-usage`, in any case |
| `CallCenter.RefusalMessage` | src/pyfreeswitch/models/callcenter.py:140-141 | the message is the first line of the refusal, cut to 200 characters |
| `CallCenter.LinesByBreaks` | src/pyfreeswitch/models/callcenter.py:145 | every line break ends a line, a carriage return with its line feed only one |
| `CallCenter.LineKeptIff` | src/pyfreeswitch/models/callcenter.py:143-147 | a line is dropped exactly if it is blank or starts with `+ok` in any case, and kept stripped otherwise |
| `CallCenter.TableRoundTrip` | src/pyfreeswitch/models/callcenter.py:129-164 | a printed table, with blanks around any cells, parses to the row maps, under the stripped column names, of its rows that are at least as long as the header, in order |
| `CallCenter.ShortRowIsIgnored` | src/pyfreeswitch/models/callcenter.py:154-156 | a listing with a row shorter than its header, wherever it stands, parses as without that row |
| `CallCenter.RowValue` | src/pyfreeswitch/models/callcenter.py:157-163 | a named column's stripped value is found under its name, that of the last such column if names repeat |
| `CallCenter.RowKey` | src/pyfreeswitch/models/callcenter.py:157-163 | a row has no other names than those of its columns, and none for an unnamed column |
| `CallCenter.ColumnOrderIsInvisible` | src/pyfreeswitch/models/callcenter.py:157-163 | any simultaneous rearrangement of header and named cells gives the same row map, cells beyond the header staying where they are |
| `CallCenter.TypedListsIgnoreColumnOrder` | src/pyfreeswitch/models/callcenter.py:174-213 | the typed agents and tiers of a listing do not depend on its column order, with rows of any length |
| `CallCenter.AgentByColumn` | src/pyfreeswitch/models/callcenter.py:181-191 | each field of a typed agent is read from the column of its name, wherever it stands |
| `CallCenter.TierByColumn` | src/pyfreeswitch/models/callcenter.py:203-212 | each field of a typed tier is read from the column of its name, wherever it stands |
| `CallCenter.MissingColumns` | src/pyfreeswitch/models/callcenter.py:181-212 | columns a listing lacks leave a field empty, unknown, or at one |
| `CallCenter.RowsTypedOneByOne` | src/pyfreeswitch/models/callcenter.py:176-213 | rows are typed one by one in order; those without a name, or without a queue or an agent, drop out |
| `Statuses.StatusBySpelling` | src/pyfreeswitch/models/callcenter.py:39-45 | a text means a status exactly when it spells it, in any case and with any blanks around it |
| `Statuses.StateBySpelling` | src/pyfreeswitch/models/callcenter.py:57-63 | a text means an agent state exactly when it spells it |
| `Statuses.TierBySpelling` | src/pyfreeswitch/models/callcenter.py:76-82 | a text means a tier state exactly when it spells it |
| `TextLaws.LoweredByName` | src/pyfreeswitch/models/callcenter.py:44 | capitals lower to small letters and the Kelvin sign to `k`; nothing else changes |
| `TextLaws.BlanksByCode` | src/pyfreeswitch/models/callcenter.py:136-146 | the blanks that stripping removes and the breaks that end lines, by code point |
| `CallCenter.IntRoundTrip` | src/pyfreeswitch/models/callcenter.py:167-171 | every printed integer reads back |
| `CallCenter.NumbersRead` | src/pyfreeswitch/models/callcenter.py:167-171 | an optional sign and groups of digits joined by single underscores, with any blanks around them, read as that number |
| `CallCenter.OthersDefault` | src/pyfreeswitch/models/callcenter.py:167-171 | any other text gives the default |
| `CallCenter.ParseAgentList` | src/pyfreeswitch/models/callcenter.py:174-192 | the loop builds the specified agents; a refused listing is never an empty list |
| `CallCenter.ParseTierList` | src/pyfreeswitch/models/callcenter.py:195-213 | the loop builds the specified tiers; a refused listing is never an empty list |
| `Channels.BuildObject` | src/pyfreeswitch/models/channels.py:60-66 | the loop fills the map or fails on the first repeated key |
| `Channels.LoadsIffClean` | src/pyfreeswitch/models/channels.py:127-129 | a JSON tree loads exactly when no object at any depth repeats a key and no number is non-finite |
| `Channels.RowMeaning` | src/pyfreeswitch/models/channels.py:80-105 | a row is accepted exactly when its members are well-formed on the tree, and its identifier is the lowered uuid |
| `Channels.ChannelFields` | src/pyfreeswitch/models/channels.py:93-105 | each field of an exposed channel is the row member it is named for |
| `Channels.SetSizeIffDistinct` | src/pyfreeswitch/models/channels.py:139-140 | a set has as many elements as a sequence exactly when none repeats |
| `Channels.SnapshotIsAllOrNothing` | src/pyfreeswitch/models/channels.py:108-147 | for a text of at most 16777216 bytes that starts with no refusal mark: the result is authoritative exactly when the tree is clean at every depth and consistent with its row count of at most 10000, rows well-formed and identifiers distinct; then every row is exposed in order, otherwise none |
| `Channels.SnapshotOfOtherTexts` | src/pyfreeswitch/models/channels.py:108-131 | a longer text and one that is no JSON are malformed; one that starts with a refusal mark is an error |
| `Channels.NoPartialRows` | src/pyfreeswitch/models/channels.py:108-147 | whatever the text, a result that is not authoritative exposes no row |

## Left out

- PrintedEventsArrive: every event is assumed to fit the caps, as one that does not is a protocol violation.
- EveryNamedEventIsHandled: each peer greets and answers at once; delays and failures there are the subject of `Escapes` and `ListenerIsSafe`.
- KthCommandGetsKthReply: a peer that sends unasked replies, or a raw command that is not one message, breaks the pairing; both are assumptions of the lemma.
- RunKeepsInvariant: connect on an open client is outside the runs, because the source then keeps the old queue and leaks the old socket.
- BackoffLaw: delays are real numbers; rounding of floats is not modelled.
- ParseContentLength: the message texts that tell outer from inner lengths are not modelled, only the error class.
- IntRoundTrip: `int()` on digits outside ASCII and its limit on very long texts are not modelled.
- ParseChannelSnapshot: `json.loads` is a parameter, the tree its grammar reads; its recursion limit counts as no tree.
- ESLEventListener: the generators `iter_raw` and `listen` are fused into one loop with the handler; `parse_event`, the arrival clock and handlers that raise are not modelled.
- Closing from another thread shows only where the loop looks at its flag after a failure or a sleep; concurrent use of one client and asynchronous interruption are left out.
- Time passes only in socket calls and backoff sleeps; the work between them takes none.
- Real sockets, keepalive, name resolution, logging, the context-manager wrappers and the typed convenience methods beyond the lines they send.
- Lower-casing is exact only where the result is compared with ASCII text; surrogates do not exist in the model's characters.
- Settings: the caps are integers already in their clamped ranges; float coercion and environment loading are left out.
- Event, CDR, registration and command-reply parsing: field lookups and prefix checks that would only add easy members.
