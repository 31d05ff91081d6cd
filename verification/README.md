# A verified model of the Vortice BEEP stack

This project models the sans-IO core of Vortice, an implementation of BEEP (RFC 3080 and RFC 3081),
together with its WebSocket tunnel (RFC 6455), its management text formats and the driver that runs
a session. It is written in Dafny and proves, for every input, every run or every reachable state:

- **Flow control and transport** (`Window`, `Flow`, `Transport`, `TwoWay`, `Ledgers`). One direction of a
  channel is a step system: a sender, a receiver, a FIFO of data frames and a FIFO of SEQ frames.
  The 32-bit counters are tied to unbounded octet counts, past any number of wraps. Proved: exactly
  for which windows no step ever reports an error, exactly when a channel cannot come to a stop,
  that deliveries terminate within an explicit number of steps, and that the receiver ends up with
  exactly the messages sent, in order. `TwoWay` lifts this to both directions, each wire a single
  FIFO in which data and SEQ frames are mixed.
- **Sessions** (`SessionSteps`, `Sessions`, `Connections`). What every call does to a whole session is a
  function on a value; the class `Session` computes exactly these functions, and any list of calls,
  octets from the peer included, keeps its invariant. A channel between two sessions is one line
  of `TwoWay` whatever else the sessions do, so what one application sends the other receives.
- **What sessions say to each other** (`Dialogues`, `Exchanges`, `Verdicts`). A request or an answer on
  channel 0, however it is cut, raises exactly the event it is meant to at the other end and moves
  exactly the channel it is about; replies leave a session in the order of the messages it has
  reported; and every verdict on a single frame is said over again in plain numbers.
- **The reply reorder buffer** (`Replies`). Handlers answer in any order; what leaves is what an
  end that kept handlers waiting would have written, with answers numbered 0, 1, 2, ...
- **The frame codec** (`Codec`, `CodecLaws`, `Grammar`). Fragmentation is invisible, frame streams
  round-trip, `frame_boundary` agrees with the decoder, and the decoder yields a frame if and only
  if the octets are laid out as the grammar of RFC 3080 and RFC 3081 says.
- **The WebSocket tunnel** (`WsFrames`, `WsGrammar`, `WsTunnel`, `EndToEnd`). Exactly the frames laid out
  as section 5.2 of RFC 6455 says are taken, each for what it means. One BEEP frame per WebSocket frame
  whatever the cut into writes; what is read is what was written; and, with the codec, frames of one
  end arrive as frames at the other.
- **Channel management** (`Tables`), **text formats** (`Xml`, `XmlLaws`, `XmlFaults`, `Management`,
  `ManagementLaws`, `Sections`, `RoundTrips`, `Greetings`, `TextForms`), **Base64** and **the driver** (`Drivers`).

The stateful code is modelled as it runs, by classes and loops proved against those functions:
`Channels`, `Sessions`, `Decoders`, `WsStreams`, `Parsers`, `Renderers`, and the loops of `Base64` and
`Drivers`. `hide` statements in proofs only keep definitions from the solver that a step does not need.

`dafny verify dfyconfig.toml` checks everything.

## Where code and documentation differ

The model follows the code. `Session::send` is documented to fail for an `ANS` without an answer number
(vortice-proto/src/session.rs:685-686) but gives it the next one (vortice-proto/src/session.rs:700-701).
The driver is documented to write while it awaits an upgrade (vortice/src/connection.rs:470) but does
neither (vortice/src/connection.rs:521-542). The tunnel is documented to put each write into a binary
frame (vortice-ws/src/stream.rs:44-45) but puts each BEEP frame into one (vortice-ws/src/stream.rs:265-289).
A greeting larger than the first window is said to be paced rather than truncated
(vortice-proto/src/session.rs:284-286), and is, but the other end takes no greeting in more than one frame
(vortice-proto/src/greeting.rs:180-207): `Dialogues.GreetingExactly`.

## Model

| member | source | states |
|---|---|---|
| `Window.WrapIsRemainder` | vortice-proto/src/window.rs:75-87 | the 32-bit counter of an unbounded octet count is its remainder modulo 2^32 |
| `Window.AdvanceRefines` | vortice-proto/src/window.rs:75-77 | wrapping addition on counters is addition on unbounded counts |
| `Window.DistanceRefines` | vortice-proto/src/window.rs:85-87 | wrapping subtraction is the true difference whenever that fits 32 bits |
| `Window.AcceptsRefines` | vortice-proto/src/window.rs:164-167 | `accepts` decides, wherever the wrap falls, whether the frame ends within the window |
| `Window.RemainingRefines` | vortice-proto/src/window.rs:174-177 | `remaining` is the distance to the right edge on unbounded counts |
| `Flow.FlushJoins` | vortice-proto/src/session.rs:879-913 | flushing after each message or once at the end gives the same frames, counters and queue |
| `Flow.FlushLeavesIdle` | vortice-proto/src/session.rs:891-911 | after `flush` a non-empty queue means the window is used up |
| `Flow.CutIsStalled` | vortice-proto/src/channel.rs:256-272 | a message is cut short only when no window is left |
| `Flow.FlushCut` | vortice-proto/src/channel.rs:246-272 | no frame written is larger than the size configured, and one that another of its message follows is no smaller |
| `Flow.TryFlushExactly` | vortice-proto/src/session.rs:879-913 | on any queue `flush` fails exactly when it gets to a message no frame can carry with room to try it, and is the specified flush when there is none |
| `Flow.Jams` | vortice-proto/src/session.rs:891-903 | such a message jams its channel for good: wherever the window stands and whatever is queued behind it, nothing is written |
| `Transport.ChunksReassemble` | vortice-proto/src/channel.rs:261-272 | however a message is cut into frames, the receiver's reassembly gives back the whole of it |
| `Transport.FlushFlow` | vortice-proto/src/session.rs:879-913 | `flush` never writes past the peer's window and stops short only at its edge |
| `Transport.FlushContent` | vortice-proto/src/session.rs:879-913 | `flush` moves octets from queue to wire without loss, repetition or reordering |
| `Transport.AcceptRefines` | vortice-proto/src/channel.rs:355-412 | the next frame in flight is always accepted; the octet count advances by its length |
| `Transport.AcknowledgeRefines` | vortice-proto/src/session.rs:921-950 | a SEQ acknowledges exactly the octets accepted so far, otherwise the count stays below the threshold |
| `Transport.StepRefines` | vortice-proto/src/session.rs:440-482 | every step succeeds, keeps the counters in step with the unbounded ones, and every delivery lowers the measure |
| `Transport.FlowControlSafety` | vortice-proto/src/channel.rs:355-371 | with a roomy window no enabled step fails in any reachable state: never OutsideWindow, UnexpectedSeqNo or InterleavedFragment, even past 2^32 octets |
| `Transport.TightWindowFails` | vortice-proto/src/channel.rs:116-130 | a window with less room can be overrun by two messages, because the sender starts at 4096 octets regardless |
| `Transport.SafetyExactly` | vortice-proto/src/channel.rs:116-130 | no reachable step fails if and only if the window is at least 4096 octets or has room for one more frame below its threshold |
| `Transport.ResizedExactly` | vortice-proto/src/session.rs:801-807 | after a window is resized in mid-flight, even made smaller, the next frame is accepted if and only if it fits behind the octets not yet acknowledged |
| `Transport.NoDeadlock` | vortice-proto/src/session.rs:937-948 | with nothing in flight a prompt channel has writable octets, more than 2048 if opened with 4096, and an empty queue |
| `Transport.DeliveriesBounded` | vortice-proto/src/session.rs:440-482 | any interleaving of deliveries takes at most 2 * (queued octets + messages + data frames) + SEQs steps |
| `Transport.Delivery` | vortice-proto/src/session.rs:879-950 | deliveries terminate, never get stuck, and end with an empty queue and exactly the messages sent, in order, reassembled |
| `Transport.NotPromptDeadlocks` | vortice-proto/src/session.rs:937-948 | a small window widened past what was offered stops: the next long message is cut, all of it in flight arrives, and no SEQ ever comes |
| `Transport.LivenessExactly` | vortice-proto/src/session.rs:937-948 | a channel at rest never comes to rest with anything queued if and only if the last offer reaches the receiver's threshold |
| `TwoWay.MoveSound` | vortice-proto/src/session.rs:433-482 | over one FIFO per way, data and SEQ frames mixed, every move of either end succeeds and is a step of one direction |
| `TwoWay.BothWaysDelivered` | vortice-proto/src/session.rs:879-950 | on a whole connection, each end with its own window and frame limit, which every frame in flight keeps to, arrivals in any interleaving terminate and succeed, and at rest each end has exactly the messages the other sent, in order, with nothing queued |
| `Ledgers.EntryBalances` | vortice-proto/src/session.rs:455-482 | accepting and acknowledging any frame of any peer, or resizing the window, keeps the receive ledger balanced |
| `Ledgers.LedgerBalances` | vortice-proto/src/session.rs:921-950 | in every error-free run expected sequence number = window base + unacknowledged octets, and each SEQ acknowledges what had been accepted |
| `Verdicts.AcceptExactly` | vortice-proto/src/channel.rs:355-412 | for any frame of any peer: taken if and only if it carries the next octet, ends within the offer and continues the message begun; the first that fails is the error |
| `Verdicts.AcknowledgeExactly` | vortice-proto/src/session.rs:921-950 | a SEQ is sent as soon as half the window or 2048 octets are due, not before, and moves the window past exactly these; errors included |
| `Verdicts.EmitFails` | vortice-proto/src/channel.rs:235-258 | the first reason that applies for a message that cannot be written |
| `Replies.ReleaseInOrder` | vortice-proto/src/session.rs:754-791 | the release loop writes exactly the answers that are ready, in arrival order, and keeps the others |
| `Replies.ReplyOrdered` | vortice-proto/src/session.rs:709-732 | one more reply enqueues exactly what the in-order specification gains by it |
| `Replies.StepHistory` | vortice-proto/src/session.rs:466-475 | the history of exchanges only grows, by arrivals at the end and replies to their own exchange |
| `Replies.StepNumbers` | vortice-proto/src/channel.rs:301-311 | answer counters stand where each unfinished answer has got to |
| `Replies.RepliesLeaveInOrder` | vortice-proto/src/session.rs:687-791 | for every interleaving of handlers the replies written are complete groups in arrival order and a prefix of the next, ANS numbered without gaps and closed by NUL; once all are answered nothing is held |
| `Verdicts.UnrecordedPass` | vortice-proto/src/session.rs:739-745 | with no message to answer on record every reply goes out at once |
| `Verdicts.TurnsDecide` | vortice-proto/src/session.rs:709-733 | otherwise a reply goes out now exactly when it answers the message whose turn it is |
| `Exchanges.FrameOrders` | vortice-proto/src/session.rs:455-482 | a frame adds to the order of replies exactly the message to answer that it completes |
| `Exchanges.SessionRepliesInOrder` | vortice-proto/src/session.rs:455-791 | in every run of a session, on any channel, the replies let out are complete answers in the order the messages were reported, and a beginning of the next |
| `Channels.BusyIsExhausted` | vortice-proto/src/channel.rs:181-195 | once around without a free number means that all 2^31 are in use |
| `Channels.FirstFreeUnique` | vortice-proto/src/channel.rs:181-195 | there is at most one first free number in cyclic order, and none if all are in use |
| `Channels.FirstFreeExists` | vortice-proto/src/channel.rs:181-195 | there is a first free number if and only if not all are in use |
| `Channels.Channel.AllocateMsgno` | vortice-proto/src/channel.rs:181-195 | returns the first free number in cyclic order, never one in flight; fails exactly when all are in flight, changing nothing |
| `Channels.Channel.ReserveMsgno` | vortice-proto/src/channel.rs:203-215 | reserves exactly a number in range and free, and reports which of the two it was not |
| `Channels.Channel.Build` | vortice-proto/src/channel.rs:276-295 | builds the frame and advances the counter by its payload, or fails without moving it |
| `Channels.Channel.EmitPieces` | vortice-proto/src/channel.rs:265-272 | the loop's frames are the specified pieces, only the message's last one complete |
| `Channels.Channel.Emit` | vortice-proto/src/channel.rs:235-273 | computes the specified emission, its four errors included |
| `Channels.Channel.Number` | vortice-proto/src/session.rs:700-708 | numbers answers 0, 1, 2, ... per message and forgets the counter at NUL |
| `Channels.Channel.ApplySeq` | vortice-proto/src/channel.rs:314-318 | the peer's window moves as the SEQ says and nothing else changes |
| `Channels.Channel.Accept` | vortice-proto/src/channel.rs:355-412 | computes the specified acceptance, its three errors and the state they leave included, and records the messages awaiting a reply |
| `Channels.Channel.Consume` | vortice-proto/src/channel.rs:426-429 | slides the window by the octets consumed and announces its new place |
| `Sessions.Session.PollTransmit` | vortice-proto/src/session.rs:355-360 | what is handed over is always a continuation of the encodings of the frames written |
| `Sessions.Session.FlushFront` | vortice-proto/src/session.rs:891-911 | one message through the window: frames encoded, message removed or shortened |
| `Sessions.Session.Flush` | vortice-proto/src/session.rs:879-913 | computes the specified flush on one channel and touches no other |
| `Sessions.Session.ReleaseNext` | vortice-proto/src/session.rs:764-790 | one held group is enqueued and flushed, its exchange retired if it is complete |
| `Sessions.Session.ReplyFinished` | vortice-proto/src/session.rs:747-791 | the loop releases and writes exactly what the reorder buffer specifies |
| `Sessions.Session.Send` | vortice-proto/src/session.rs:687-732 | buffer, queue, counters and frames afterwards are those of the reorder buffer followed by the flush; other channels are untouched |
| `Sessions.Session.HandleSeq` | vortice-proto/src/session.rs:440-453 | on one channel: the window moves and whatever now fits is written; unknown channels are an error that changes nothing |
| `Sessions.Session.Acknowledge` | vortice-proto/src/session.rs:921-950 | computes the specified acknowledgement and writes its SEQ |
| `Sessions.Session.Charge` | vortice-proto/src/session.rs:464-465 | accept and acknowledge compute the specified outcome, state and SEQ, failures included, and record the messages awaiting a reply |
| `Sessions.Session.constructor` | vortice-proto/src/session.rs:260-281 | a new session is valid and is the specified beginning |
| `Sessions.Session.Announce` | vortice-proto/src/session.rs:284-327 | the greeting goes out first, then a SEQ if and only if a wider window can be offered; the session stays valid |
| `Sessions.Session.Post` | vortice-proto/src/session.rs:687-732 | does to the whole session what the reorder buffer followed by the flush does, and keeps it valid; an unknown channel is an error that changes nothing |
| `Sessions.Session.SendMsg` | vortice-proto/src/session.rs:814-822 | sends under the first free number; fails exactly when none is free or the channel is not open, and then changes nothing |
| `Sessions.Session.SetWindowSize` | vortice-proto/src/session.rs:801-807 | resizes the receiving window of that channel alone |
| `Sessions.Session.TakeSeq` | vortice-proto/src/session.rs:440-453 | a SEQ does to the whole session what is specified, and keeps it valid |
| `Sessions.Session.HandleData` | vortice-proto/src/session.rs:455-482 | a data frame does to the whole session what is specified: accept, acknowledge, record the order of replies, report |
| `Sessions.Session.Request` | vortice-proto/src/session.rs:836-840 | a fresh message number is noted as pending and the request goes out under it; without one nothing changes |
| `Sessions.Session.StartChannel` | vortice-proto/src/session.rs:597-605 | is the specified start on the whole session; refused when not ready; without a message number the channel number stays spent and half open |
| `Sessions.Session.CloseChannel` | vortice-proto/src/session.rs:650-659 | is the specified close request, for that channel, on the whole session, or fails with the right error and changes nothing |
| `Sessions.Session.AcceptStart` | vortice-proto/src/session.rs:613-634 | opens a fresh channel under a number the peer may use and replies, every other channel as it was; refuses without any change otherwise |
| `Sessions.Session.Refuse` | vortice-proto/src/session.rs:641-643 | the refusal goes out and nothing else changes |
| `Sessions.Session.AcceptClose` | vortice-proto/src/session.rs:666-670 | the reply is written before the channel, or the whole session, is forgotten; the other channels stay as they were |
| `Sessions.Session.FinishClose` | vortice-proto/src/session.rs:952-969 | forgets one channel, or all of them with the session, and reports it |
| `Sessions.Session.Dispatch` | vortice-proto/src/session.rs:504-584 | requests become events; each reply moves table, channels and events as specified; anything else is the specified error |
| `Sessions.Session.HandleZero` | vortice-proto/src/session.rs:484-502 | the first frame must be a greeting and makes the session ready; later ones are reassembled, read and dispatched as specified |
| `Sessions.Session.HandleFrame` | vortice-proto/src/session.rs:433-438 | one frame does to the whole session what is specified for its kind and channel |
| `Sessions.Session.HandleInput` | vortice-proto/src/session.rs:416-425 | does to the whole session what the frames decoded from all octets received so far do one after the other, with the same first error, and keeps exactly the octets not decoded yet |
| `Sessions.Session.Perform` | vortice-proto/src/session.rs:416-822 | any list of calls takes a valid session through the states of a specified run, valid after each, until one of the calls that may end it does |
| `Sessions.Lifetime` | vortice-proto/src/session.rs:260-822 | a new session, its greeting and any list of calls are a run as `SessionSteps.SessionSafety` assumes it |
| `SessionSteps.SubmitWellFormed` | vortice-proto/src/session.rs:709-732 | what the reorder buffer lets through and what it keeps can all be framed if the request can |
| `SessionSteps.OnFrameRests` | vortice-proto/src/session.rs:433-438 | every frame that does not fail keeps every channel in order, its ledger balanced and the table sound |
| `SessionSteps.InputInTwo` | vortice-proto/src/session.rs:416-425 | octets handed over in two parts do to a session what they do in one |
| `SessionSteps.InputOfFrames` | vortice-proto/src/session.rs:416-425 | the encodings of a list of frames do to a session what the frames do |
| `SessionSteps.StepsRests` | vortice-proto/src/session.rs:416-822 | every call that does not end the session keeps what holds between calls |
| `SessionSteps.SessionSafety` | vortice-proto/src/session.rs:921-950 | after any list of calls, against any peer: expected = acknowledged + unacknowledged on every channel, nothing writable is queued, numbers say who opened a channel, message numbers in use are the pending requests, starts issued = granted + refused + pending |
| `Connections.OtherFrame` | vortice-proto/src/session.rs:433-502 | a frame of another channel, channel 0 included, does nothing to a channel unless it closes it |
| `Connections.OtherCall` | vortice-proto/src/session.rs:597-807 | neither does a call about anything else |
| `Connections.PostFollows` | vortice-proto/src/session.rs:687-732 | what `send` lets through is sent on the channel's line in that order |
| `Connections.FrameAccepted` | vortice-proto/src/session.rs:440-482 | a frame of the channel arriving at the other session is the arrival on the line, and is never refused |
| `Connections.MoveFollows` | vortice-proto/src/session.rs:416-822 | whatever one of two connected sessions does, their channel stays a sound line, and what is sent on it is what was let out |
| `Connections.SessionsDeliver` | vortice-proto/src/session.rs:416-950 | between two sessions, for all calls and interleavings that leave a channel open: none of its frames is refused or larger than configured, each end reports a beginning of what the other let out, in order, and all of it once none of its frames is in flight |
| `Dialogues.NewSession` | vortice-proto/src/session.rs:260-327 | a new session writes its greeting as one complete RPY frame, if it fits, and then the announcement of a wider window |
| `Dialogues.GreetingExactly` | vortice-proto/src/greeting.rs:180-207 | a greeting is understood if and only if it fits one frame: the first window and the size configured |
| `Dialogues.GreetingHeard` | vortice-proto/src/session.rs:484-494 | it makes the other session ready, which reports it, and the two are in touch |
| `Dialogues.SeqHeard` | vortice-proto/src/session.rs:440-453 | a SEQ for channel 0 on its way back is taken and keeps the two in touch |
| `Dialogues.WholeRead` | vortice-proto/src/session.rs:496-502 | the frames of one message on channel 0, however cut, are read as that message and acted upon once |
| `Dialogues.AskedToClose` | vortice-proto/src/session.rs:650-659 | `close_channel` makes the other session report the close of that very channel, under a message number of its own, and nothing else anywhere |
| `Dialogues.AskedToStart` | vortice-proto/src/session.rs:597-605 | `start_channel` makes it report the start of this end's next channel number, which is not open |
| `Dialogues.StartAccepted` | vortice-proto/src/session.rs:613-634 | `accept_start` makes the channel new at both ends, which the end that asked reports, and moves no other |
| `Dialogues.Refused` | vortice-proto/src/session.rs:641-679 | a refusal makes the end that asked report which request was refused, and moves no channel |
| `Dialogues.CloseAccepted` | vortice-proto/src/session.rs:666-670 | `accept_close` makes the channel, or the session, go at both ends, which both report, and moves no other |
| `Dialogues.DispatchExactly` | vortice-proto/src/session.rs:504-584 | which management messages are acted upon, and the error of any other |
| `Dialogues.UnknownChannel` | vortice-proto/src/session.rs:440-463 | a frame for a channel that is not open is an error |
| `Tables.StepSound` | vortice-proto/src/session.rs:535-634 | every step that does not fail keeps the table sound |
| `Tables.OpeningIsNew` | vortice-proto/src/session.rs:541-544 | opening a channel from either side never replaces one that is open |
| `Tables.AcceptStartIs` | vortice-proto/src/session.rs:619-628 | `accept_start` takes a number exactly when it is not zero, not this role's own and not open, and says which it was |
| `Tables.RolesSplit` | vortice-proto/src/session.rs:56-72 | initiators own the odd numbers from one, listeners the even ones from two |
| `Tables.TableSafety` | vortice-proto/src/session.rs:65-70 | in every error-free run numbers say who opened a channel, zero is never open, outstanding message numbers are the pending requests, and starts issued = granted + refused + pending |
| `CodecLaws.DecodeStays` | vortice-proto/src/codec.rs:121-157 | octets behind a decided frame or error never change it, and a wait is taken up where it was left |
| `CodecLaws.FragmentationInvisible` | vortice-proto/src/codec.rs:121-177 | octets cut into any chunks give the same frames, first error, pending header and leftover as in one piece |
| `CodecLaws.ParseMeaning` | vortice-proto/src/codec.rs:283-296 | `parse_u32` succeeds exactly on digits denoting a number in range, and returns it |
| `CodecLaws.NumberRoundTrip` | vortice-proto/src/frame.rs:455-468 | printed numbers parse back, over all 32-bit values |
| `CodecLaws.LineFits` | vortice-proto/src/frame.rs:284-304 | every header line is within the 98-octet limit and holds no line feed |
| `CodecLaws.FrameRoundTrip` | vortice-proto/src/frame.rs:284-304 | a printed frame decodes to itself, whatever follows it |
| `CodecLaws.StreamRoundTrip` | vortice-proto/src/codec.rs:121-157 | any list of valid frames, printed, decodes to itself with nothing left over |
| `CodecLaws.WireTransparent` | vortice-proto/src/session.rs:416-425 | the same however the octets are cut on their way |
| `CodecLaws.DecodedValid` | vortice-proto/src/codec.rs:144-156 | every frame the decoder yields is one the constructors accept |
| `CodecLaws.BoundaryOfDecoded` | vortice-proto/src/codec.rs:329-345 | if a fresh decoder yields a frame, `frame_boundary` is what it consumed |
| `CodecLaws.DecodedAtBoundary` | vortice-proto/src/codec.rs:329-345 | at a boundary the decoder consumes exactly that much or misses the trailer |
| `CodecLaws.BoundaryStays` | vortice-proto/src/codec.rs:329-345 | appending octets never changes the answer |
| `CodecLaws.BoundaryIsFirst` | vortice-proto/src/codec.rs:329-345 | no shorter prefix has an answer |
| `CodecLaws.BoundaryOfEncoded` | vortice-proto/src/codec.rs:329-345 | the boundary of a printed frame is its length |
| `Grammar.EncodeSpells` | vortice-proto/src/frame.rs:284-304 | a frame is printed as keyword, decimal fields in order, end of line, payload and trailer, in the words of the standard |
| `Grammar.DecodesDataExactly` | vortice-proto/src/codec.rs:121-243 | the decoder yields a data frame if and only if the octets are laid out as one, its fields numerals in range, its header within 98 octets, its size allowed |
| `Grammar.DecodesSeqExactly` | vortice-proto/src/codec.rs:121-243 | the same for SEQ frames |
| `Grammar.WaitsExactly` | vortice-proto/src/codec.rs:159-177 | it waits for a header exactly while fewer than 98 octets hold no line feed |
| `Grammar.WrongStart` | vortice-proto/src/codec.rs:186-205 | which fault is named of a line that begins wrong |
| `Grammar.FirstFaultNamed` | vortice-proto/src/codec.rs:186-296 | the first field that is wrong names the fault: missing, out of range as far as its digits go, no digit, or no continuation sign |
| `Grammar.CountFaultNamed` | vortice-proto/src/codec.rs:255-281 | with every field right, one too few is missing and one too many is trailing |
| `Grammar.BodyFaultNamed` | vortice-proto/src/codec.rs:121-157 | behind a right header: a size not allowed, a wait for the rest, or a missing trailer |
| `Decoders.DigitCount` | vortice-proto/src/frame.rs:443-451 | the loop counts the digits a number prints as |
| `Decoders.PutU32` | vortice-proto/src/frame.rs:455-468 | the buffer loop appends the decimal digits of the number |
| `Decoders.PutData` | vortice-proto/src/frame.rs:284-304 | appends the encoding of a data frame |
| `Decoders.PutSeq` | vortice-proto/src/frame.rs:356-365 | appends the encoding of a SEQ frame |
| `Decoders.EncodedLen` | vortice-proto/src/frame.rs:270-281 | is the exact length of the encoding |
| `Decoders.ReadU32` | vortice-proto/src/codec.rs:283-296 | the loop computes the specified number or error |
| `Decoders.Fields.Next` | vortice-proto/src/codec.rs:255-271 | cuts the next field and moves the cursor, rejecting empty fields |
| `Decoders.ReadHeader` | vortice-proto/src/codec.rs:186-243 | reading the fields one after the other is parsing the whole line |
| `Decoders.Decoder.Take` | vortice-proto/src/codec.rs:121-157 | one call yields, waits or fails as specified, remembering the header in between |
| `WsFrames.MaskedTwice` | vortice-ws/src/frame.rs:241-245 | masking is its own inverse |
| `WsFrames.MaskedInTwo` | vortice-ws/src/frame.rs:237-245 | masking in two passes with the offset carried is masking in one |
| `WsFrames.HeaderRoundTrip` | vortice-ws/src/frame.rs:134-235 | a header written is read back, in every length form |
| `WsFrames.PollStays` | vortice-ws/src/codec.rs:47-82 | octets behind a complete frame never change what it is |
| `WsFrames.PollRoundTrip` | vortice-ws/src/codec.rs:47-82 | a queued frame polls back as one event, masked or not, and nothing behind it is touched |
| `WsFrames.HeaderWritten` | vortice-ws/src/frame.rs:134-209 | only headers a peer may write are accepted, in their shortest form |
| `WsGrammar.HeaderSpells` | vortice-ws/src/frame.rs:211-235 | a header is its final bit and opcode number, mask bit, shortest length and key |
| `WsGrammar.MaskedDigits` | vortice-ws/src/frame.rs:241-245 | masking flips in each octet exactly the bits set in the key's octet for its place |
| `WsGrammar.PollsExactly` | vortice-ws/src/codec.rs:47-82 | a frame is taken if and only if the octets are laid out as one, and reported as what its opcode means |
| `WsGrammar.RefusedExactly` | vortice-ws/src/frame.rs:134-209 | a buffer is refused exactly for the first rule of section 5 of RFC 6455 that its header breaks |
| `WsGrammar.PollMeans` | vortice-ws/src/codec.rs:63-81 | a queued ping polls as a ping, a pong as a pong, a close with its code and reason, anything else as data |
| `WsGrammar.PingsReceived` | vortice-ws/src/stream.rs:191-199 | a reader is to answer exactly the pings among the frames sent, in order |
| `WsTunnel.WriteKeeps` | vortice-ws/src/stream.rs:265-292 | for arbitrary octets, payloads queued and octets held back are exactly those taken, and a non-empty write takes at least one |
| `WsTunnel.WriteBudget` | vortice-ws/src/stream.rs:275-289 | a write leaves octets only once it has queued 64 KiB, holding none back, and queues no more than it takes |
| `WsTunnel.WritesConserve` | vortice-ws/src/stream.rs:122-145 | the same over whole runs of writes, flushes and control frames |
| `WsTunnel.WritesAligned` | vortice-ws/src/stream.rs:265-289 | whatever the cut into writes and wherever the budget stops one, each data frame carries exactly one BEEP frame, in order |
| `WsTunnel.ChunksInvisible` | vortice-ws/src/stream.rs:170-233 | however the socket cuts the octets, the reader gets the same |
| `WsTunnel.TunnelTransparent` | vortice-ws/src/stream.rs:163-234 | what is read before a close is exactly what was written, for any masks, pongs and chunking |
| `WsTunnel.ReadsArePrefix` | vortice-ws/src/stream.rs:163-234 | what has been read so far is a beginning of what was written |
| `EndToEnd.FramesThroughTunnel` | vortice-ws/src/stream.rs:102-292 | frames written at one end come out of the decoder at the other, whatever all the cuts in between |
| `WsStreams.ApplyMask` | vortice-ws/src/frame.rs:241-245 | masks the array in place |
| `WsStreams.TakeEvent` | vortice-ws/src/codec.rs:47-82 | takes a frame off the buffer only when it is all there |
| `WsStreams.WsStream.Queue` | vortice-ws/src/stream.rs:102-117 | appends one encoded frame, masked exactly at the client end |
| `WsStreams.WsStream.QueueWholeFrames` | vortice-ws/src/stream.rs:122-130 | every whole BEEP frame held back becomes a frame of its own |
| `WsStreams.WsStream.FlushHeld` | vortice-ws/src/stream.rs:138-145 | is the flush step of the tunnel |
| `WsStreams.WsStream.PollWrite` | vortice-ws/src/stream.rs:238-293 | is one writing step of the tunnel, or waits while 512 KiB are unsent |
| `WsStreams.WsStream.PollShutdown` | vortice-ws/src/stream.rs:302-311 | what was held back is queued, and behind it exactly one close if none was queued before, otherwise none |
| `WsStreams.WsStream.PollRead` | vortice-ws/src/stream.rs:163-234 | what it hands up and what is still ahead make up what was ahead, every ping is answered by its pong in order, the peer's close by one close with code 1000 unless this end closed before, and an empty read means the end |
| `Base64.QuadCanonical` | vortice-proto/src/base64.rs:83-119 | a group decodes only if it is the encoding of what it decodes to |
| `Base64.DecodesExactly` | vortice-proto/src/base64.rs:72-122 | decoding gives `data` if and only if the text, white space aside, is the encoding of `data` |
| `Base64.RoundTrip` | vortice-proto/src/base64.rs:31-54 | decoding an encoding gives the octets back |
| `TextForms.AlphabetSpells` | vortice-proto/src/base64.rs:21-22 | the alphabet and the padding are those of the standard |
| `TextForms.GroupSpells` | vortice-proto/src/base64.rs:31-54 | three octets are four characters of six bits, the first bits first; one or two are padded |
| `TextForms.SqueezedDrops` | vortice-proto/src/base64.rs:72-82 | white space in encoded text goes, and nothing else does |
| `Base64.EncodeText` | vortice-proto/src/base64.rs:31-54 | the chunk loop computes the encoding |
| `Base64.DecodeText` | vortice-proto/src/base64.rs:72-122 | the nested loops compute the decoding |
| `XmlLaws.EscapeRoundTrip` | vortice-proto/src/xml.rs:72-83 | any string, escaped and expanded, is itself |
| `ManagementLaws.NumericReferenceDecodes` | vortice-proto/src/xml.rs:332-343 | a numeric reference to any character expands to that character |
| `XmlLaws.DocRoundTrip` | vortice-proto/src/xml.rs:178-296 | every document tree within the nesting limit, printed, reads back as what it means |
| `XmlLaws.ParseRoundTrip` | vortice-proto/src/xml.rs:86-98 | the same for whole documents |
| `XmlFaults.NamedEntities` | vortice-proto/src/xml.rs:72-83 | the five entities stand for the five characters, both ways |
| `XmlFaults.OtherEntities` | vortice-proto/src/xml.rs:300-331 | any other name is refused, and so is one that does not end in time |
| `XmlFaults.HexReferenceDecodes` | vortice-proto/src/xml.rs:332-343 | a hexadecimal reference, its mark in either case, expands to its character; one to no character is refused |
| `XmlFaults.MismatchRefused` | vortice-proto/src/xml.rs:249-262 | an element ended under another name is refused |
| `XmlFaults.TagsBrokenOff` | vortice-proto/src/xml.rs:178-247 | what is named when a start tag breaks off, after its attributes or within one |
| `XmlFaults.ContentBrokenOff` | vortice-proto/src/xml.rs:249-296 | what is named when content breaks off in a section, a comment or a tag |
| `XmlFaults.NestingExactly` | vortice-proto/src/xml.rs:178-186 | elements nest thirty-two deep in the root and no deeper |
| `XmlFaults.TrailingRefused` | vortice-proto/src/xml.rs:86-98 | nothing may follow the root but white space and declarations |
| `XmlFaults.DeclarationSkipped` | vortice-proto/src/xml.rs:125-138 | a declaration in front is passed over |
| `XmlFaults.CommentSkipped` | vortice-proto/src/xml.rs:125-138 | so is a comment |
| `XmlFaults.CommentInContent` | vortice-proto/src/xml.rs:264-268 | a comment in content is nothing |
| `XmlFaults.AttrSpellings` | vortice-proto/src/xml.rs:200-247 | an attribute may have white space around its equals sign and either quote around its value |
| `XmlFaults.EndSpellings` | vortice-proto/src/xml.rs:249-262 | an end tag may have white space behind its name |
| `Parsers.EscapeOnto` | vortice-proto/src/xml.rs:72-83 | the character loop appends the escaped text |
| `Parsers.ExpandEntities` | vortice-proto/src/xml.rs:300-343 | the loop from ampersand to ampersand expands entities as specified |
| `Parsers.Parser.SkipDeclarations` | vortice-proto/src/xml.rs:125-138 | skips exactly the prolog |
| `Parsers.Parser.TakeAttrValue` | vortice-proto/src/xml.rs:225-247 | reads a quoted value to the quote that opened it |
| `Parsers.Parser.TakeTag` | vortice-proto/src/xml.rs:193-219 | reads the attributes of a start tag in order |
| `Parsers.Parser.TakeContent` | vortice-proto/src/xml.rs:249-296 | the content loop computes the specified element |
| `Parsers.ReadDocument` | vortice-proto/src/xml.rs:86-98 | the cursor parser computes the specified document or fault |
| `ManagementLaws.RenderReads` | vortice-proto/src/management.rs:317-417 | a rendered message reads back as itself, up to trimmed text and empty content |
| `TextForms.RenderSpells` | vortice-proto/src/management.rs:356-417 | what is rendered is a document whose root is the element of the message, with the names of the standard |
| `TextForms.ReadsExactly` | vortice-proto/src/management.rs:317-345 | a document is read as a message if and only if its root says that message |
| `TextForms.FaultsExactly` | vortice-proto/src/management.rs:317-440 | why a document is no message: syntax, an unknown root, or the first attribute or profile that is wrong |
| `TextForms.AttrNumberExactly` | vortice-proto/src/management.rs:428-440 | an attribute is a number exactly when it is a numeral of 32 bits, and else names its fault |
| `TextForms.TrimStrips` | vortice-proto/src/management.rs:419-426 | trimming takes the white space off both ends, all of it and nothing else |
| `Sections.ContentShrinks` | vortice-proto/src/xml.rs:249-296 | reading content never finds more text than there was, and as much only when there was no markup |
| `RoundTrips.TrimmedMeans` | vortice-proto/src/management.rs:419-426 | text is its own trimming exactly when it neither begins nor ends with white space |
| `RoundTrips.NotAllFound` | vortice-proto/src/management.rs:146-163 | as soon as one profile's content closes its own section, reading never finds all the profiles that were written |
| `RoundTrips.MessageRoundTrip` | vortice-proto/src/management.rs:317-417 | any message comes back if and only if its text is absent or trimmed and not empty, and all its content absent or not empty and silent after "]]>" |
| `RoundTrips.ContentCanPose` | vortice-proto/src/management.rs:156-163 | content that closes its own section reads as another profile: the round trip fails there |
| `Greetings.PayloadRoundTrip` | vortice-proto/src/mime.rs:45-78 | a BEEP XML payload gives back its XML |
| `TextForms.SplitExactly` | vortice-proto/src/mime.rs:45-53 | headers end at once, at the first empty line, or nowhere |
| `TextForms.HeaderExactly` | vortice-proto/src/mime.rs:67-112 | a header has the value the first line carrying it gives it, and none when no line does |
| `TextForms.BeepXmlExactly` | vortice-proto/src/management.rs:303-316 | a payload is XML when its content type says so, in whatever case |
| `TextForms.NotXml` | vortice-proto/src/greeting.rs:150-170 | a payload that is not XML is neither a message nor a greeting, and one with another root is no greeting |
| `Greetings.MessagePayloadRoundTrip` | vortice-proto/src/management.rs:303-355 | any message comes back from its payload if and only if the same holds |
| `Greetings.GreetingRoundTrip` | vortice-proto/src/greeting.rs:98-170 | greetings come back whole for all strings |
| `TextForms.GreetingReads` | vortice-proto/src/greeting.rs:150-170 | a payload is a greeting if and only if its XML is a greeting element, and says what that says |
| `Renderers.PushU32` | vortice-proto/src/management.rs:441-453 | the buffer loop appends the decimal digits |
| `Renderers.PushProfiles` | vortice-proto/src/management.rs:369-373 | the loop appends every profile in order |
| `Renderers.GreetingPayload` | vortice-proto/src/greeting.rs:98-122 | computes the specified greeting payload |
| `Renderers.TrimBoth` | vortice-proto/src/mime.rs:96-112 | the two loops trim both ends |
| `Renderers.FindHeader` | vortice-proto/src/mime.rs:67-78 | finds the first header of that name, whatever its case |
| `Drivers.StepConserves` | vortice/src/connection.rs:493-589 | no step of the driver loses or reorders octets, or touches a transport already replaced |
| `Drivers.EventsActedUpon` | vortice/src/connection.rs:500-513 | in every run the events acted upon are those of the greeting and of every command, read and upgrade, in order, and what followed from them; none waits once the session is drained |
| `Drivers.StepBrings` | vortice/src/connection.rs:521-665 | each step leaves the events, octets and channel table of the call into the session it makes |
| `Drivers.ActSays` | vortice/src/connection.rs:758-856 | a start nobody serves or wants is refused, one that is wanted under a free number is accepted, any other gets no answer; a close is accepted |
| `Drivers.TransportsKeptApart` | vortice/src/connection.rs:617-665 | a replaced transport has received all its session produced, in order, and nothing of a later session |
| `Drivers.QuietUntilUpgrade` | vortice/src/connection.rs:521-542 | from the start that the router gives to a transport-replacing profile, that accepts it and that the session can take, until the upgrade nothing is read or written |
| `Drivers.AwaitsExactly` | vortice/src/connection.rs:758-787 | acting upon an event starts that wait exactly when it is such a start |
| `Drivers.NeverHeldBack` | vortice/src/connection.rs:521-542 | with no profile that replaces the transport no run ever stops reading and writing |
| `Drivers.ChooseFirst` | vortice/src/router.rs:249-255 | the router picks the first profile offered that is served, and none exactly when none is |
| `Drivers.Pump.ChooseProfile` | vortice/src/router.rs:249-255 | the loop computes that choice |
| `Drivers.Pump.StartWanted` | vortice/src/connection.rs:758-787 | refuses, accepts or stays silent as router, handler and channel table decide, and awaits the upgrade as specified |
| `Drivers.UpgradeDelivers` | vortice/src/connection.rs:630-637 | the upgrade first puts everything waiting, the acceptance included, on the old transport |
| `Drivers.Pump.DrainSession` | vortice/src/connection.rs:500-513 | the drain loop terminates and moves everything the session produces |
| `Drivers.Pump.Turn` | vortice/src/connection.rs:521-587 | one turn takes exactly the waits the state allows |

## Left out

- Sockets, wakers, I/O errors, the server and the HTTP upgrade: what a socket takes or delivers is an arbitrary choice in the model.
- TLS, SASL and SHA-1: they would be uninterpreted.
- Random masking keys are arbitrary four-octet keys; exclusive or is modelled bit by bit.
- UTF-8: text is a sequence of Unicode characters, so the limit of 12 on an entity reference counts characters; a session takes its payload printer and reader as parameters.
- `poll_event`: a session's events are the list of all it has reported.
- Connections.SessionsDeliver: covers runs in which the channel stays open, because frames still in flight for a closed one are an error (vortice-proto/src/session.rs:444-449) and `finish_close` drops its queue (vortice-proto/src/session.rs:952-969); it starts when both ends have opened the channel and nothing of it is in flight.
- Windows made smaller while the channel is open are no step of `Transport`, because a sender may already have used the room that is taken away; `Transport.ResizedExactly` says when the next frame is still accepted.
- Sessions.Session.Send: a request with an answer number on another kind, or numbers out of range, is excluded by a precondition; `Flow.TryFlushExactly` and `Flow.Jams` say what such a message does once it is queued (vortice-proto/src/session.rs:726-727).
- Sessions.Session.Post: as for `Send`.
- Sessions.Session.SendMsg: as for `Send`, of a channel number above 2^31 - 1.
- Sessions.Session.AcceptStart: message numbers above 2^31 - 1, which no event carries, are excluded by a precondition.
- Sessions.Session.AcceptClose: the same.
- Sessions.Session.Refuse: the same.
- Sessions.Session.StartChannel: assumes fewer than 2^31 - 1 starts per end, after which channel numbers wrap around.
- Tables.TableSafety: assumes the same.
- Encode-after-decode for frames: leading zeros are accepted (vortice-proto/src/codec.rs:283-296), so only printing and then parsing is the identity.
- `pump` returns once its session is closed (vortice/src/connection.rs:514-516); the model lets it go on.
- Drivers.TransportsKeptApart: covers upgrades whose handshake succeeds; after a failed one the driver ends.
- Virtual host names, authenticated identities, `Routes` and what handlers do: they only pass values along.
