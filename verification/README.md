# A verified model of the Roomzin Go client

The client multiplexes many calls over one TCP connection. This project models the three parts of it where a mistake
would be silent, and proves what they promise.

* **The request demultiplexer** (`internal/client/handler.go`). `Demux` is a state machine with one step per critical
  section or channel operation, for any number of calls and any number of readers: an old reader may still be alive
  after a reconnect, and a frame may be drained by any of them. Write errors, read errors, cancels, timeouts and dial
  results are nondeterministic steps. `DemuxInvariant` proves an inductive invariant step by step; `DemuxHistory` ties
  every record in a state to the events of the run; `DemuxSafety` draws from both what holds of every run. `Handler` is
  the handler as an object with mutable fields and channel objects; each of its critical sections is a method proved to
  do to the fields what the machine's function of the same step says, and `ReadyForEveryStep` proves that the invariant
  gives every method what it needs.
* **The wire codec** (`Frame`, `Requests`): the frame builders on byte buffers, the frame reader on a connection, the
  field array decoder, and the three payload builders with optional fields. Specification functions on byte sequences
  say what each method computes; bijection, round-trip, framing and injectivity theorems are about those.
* **The response decoders** (`SearchAvailResp`, `ListResponses`, `Dates`, `PropertyId`, `RateFeatures`) and the error
  classification (`ErrorKinds`): each decoder is proved to accept exactly the encodings of a small independent encoder
  and to give back what was encoded.

`Responses` holds what every response decoder starts with. `GoBytes` holds bytes, words with Go's wrap-around,
little-endian encoding, and the string functions the client uses.

## Reading the demultiplexer results

A call is named by its ticket, its place in the order of `Execute` calls; its id is the ticket plus one, modulo 2^32.
`Reachable` states are those of runs before `Close` in which no call stays under way while 2^32 later ids are issued
(`Bounded`). `RegisterSafeIff` and `WrapStrandsWaiter` show that this bound is exact: with one id more, registration
overwrites a waiter's entry and strands it. `HonestlyReachable` adds that the server answers only requests whose bytes
have left, under their own id and once each, and that fewer than 2^32 ids are issued between a request and the lookup
of the reply to it, which bounds both the server and the reader that holds the reply. The history
fields of replies and the fates of calls only record; no step depends on them except to update them.

Where the code differs from what is written about it, the model follows the code:

* The self-heal branch of `Execute` is never entered, because `h.conn` is never set back to nil
  (`SelfHealUnreachable`); a lost connection is replaced only after a failed write or a timeout.
* `ValidateDate` reports "beyond 365 days" but compares with one calendar year, so the last accepted date is 366 days
  away whenever a 29 February lies between (`LimitInDays`).
* `Close` leaves closed channels registered and breaks the connection, so a reader that was blocked on it goes on to
  `failAll` and panics on them. `CloseSafeIff` gives the exact condition: nothing may be registered.
* A call that a broken connection fails gets the empty result and no error (`NoMisdelivery`).
* SEARCHPROP and SETROOMPKG send a list that is set but empty, so a list of no strings and a list of one empty string
  are written alike (`SearchPropInjective`, `SetRoomPkgInjective`); SEARCHAVAIL does not send empty lists.
* An error built with an explicit kind loses it when flattened and wrapped again, unless the kind was the internal one
  (`ExplicitKindLost`).

## Model

| member | source | states |
|---|---|---|
| DemuxInvariant.StepKeepsInv | internal/client/handler.go:156-281 | every step of every caller and reader, `Close` excepted, keeps the invariant that ties each call's place, its channel's history and buffer, the map, and what each reader holds, as long as no id has come round or nothing is registered |
| DemuxInvariant.RunKeepsInv | internal/client/handler.go:156-281 | the invariant holds at the end of every run up to `Close` in which ids do not come round within a call's lifetime |
| DemuxInvariant.IdsDiffer | internal/client/handler.go:175-177 | within the bound, two calls under way never have the same wrapped id |
| DemuxInvariant.IdFree | internal/client/handler.go:183-202 | a call about to register finds no entry under its id |
| DemuxInvariant.OwnEntry | internal/client/handler.go:233-237 | what a cleaning call finds under its id is its own still pending entry, or nothing |
| DemuxInvariant.EntriesFresh | internal/client/handler.go:168-170 | every registered channel is open, empty and unused, so closing all of them or sending on all of them neither panics nor blocks |
| DemuxInvariant.FailAllKeepsInv | internal/client/handler.go:270-281 | failing every entry under the lock keeps the invariant, whatever other readers hold |
| DemuxInvariant.TakeKeepsInv | internal/client/handler.go:258-261 | taking an entry hands its channel to one reader and keeps the invariant |
| DemuxHistory.DrainedIsRead | internal/client/handler.go:247-264 | in every run the replies on record are the frames drained, one for one, in order, with id, result, request and reader |
| DemuxHistory.CallLife | internal/client/handler.go:182-231 | in every run a call's place and outcome are told by its own steps: a result exactly when it received, and the error of a write, a cancel or a timeout exactly when that happened, after a cleanup, and after a reconnect unless it was cancelled |
| DemuxHistory.ReadersLife | internal/client/handler.go:114-131 | in every run without a panic there is one reader to a successful dial, and a reader stops exactly when it quit or has failed everyone after its read failed |
| DemuxSafety.ChannelLinearity | internal/client/handler.go:200-281 | in every state before `Close`: nothing has panicked, each channel has had at most one send and one close and holds at most one value, and a reader about to send holds an open, empty, unused channel |
| DemuxSafety.NoSendAfterClose | internal/client/handler.go:263-280 | no step before `Close` panics: none sends on or closes a channel that is closed already, and what was done to a closed channel never changes |
| DemuxSafety.WaitersConserved | internal/client/handler.go:200-281 | a waiting call's channel is in exactly one place: the map, the hand of exactly one reader, or holding its value |
| DemuxSafety.EntriesOwned | internal/client/handler.go:200-237 | every entry belongs to one live call, under that call's id, and no call has two entries |
| DemuxSafety.NoEntryLeaks | internal/client/handler.go:182-237 | once every call has returned, by any route, the map is empty |
| DemuxSafety.NobodyBlocks | internal/client/handler.go:213-281 | in every reachable state every call and every reader can take its next step, and a waiter whose value is there can receive it |
| DemuxSafety.EveryWayOpen | internal/client/handler.go:213-256 | nor is any other outcome excluded: a write may fail, a waiter may be cancelled or receive, a dial may succeed, and any frame may be drained |
| DemuxSafety.NoMisdelivery | internal/client/handler.go:175-268 | in every run a result is the empty one with which a reader failed everyone, or the whole result of a frame that a reader of that run drained with the call's own id |
| DemuxSafety.LateReplyDropped | internal/client/handler.go:258-266 | a reply whose call was served, failed or has left changes nothing but its reader |
| DemuxSafety.CleanupRemovesOwnEntry | internal/client/handler.go:233-237 | after a cleanup the call has no entry, and every other call's entry is still there |
| DemuxSafety.LookupFindsOrigin | internal/client/handler.go:258-261 | a reader looking up an honest server's reply finds the very request it answers, exactly when that request is still pending |
| DemuxSafety.NoReplyLost | internal/client/handler.go:200-266 | a drained reply, however early, is still with its reader, or has reached its request, or that request was failed over or gave up |
| DemuxSafety.EveryCallGetsItsAnswer | internal/client/handler.go:182-268 | with an honest server a returned call has the whole result of the frame that answers it, and no other frame answers it; or the empty result, when a reader failed everyone; or the error of its own failed write, cancel or timeout, after its own cleanup |
| DemuxSafety.CloseUnblocks | internal/client/handler.go:156-173 | after `Close` the channel of every registered call, still writing or in the select, can be received from at once or is about to be sent to; registered channels are closed exactly once and stay registered |
| DemuxSafety.SelfHealUnreachable | internal/client/handler.go:114-198 | in every run whatever, the handler keeps a connection and no call enters the self-heal branch |
| DemuxSafety.NoRegistrationAfterClose | internal/client/handler.go:156-202 | however a run goes on after `Close`, no channel is made and no entry appears |
| DemuxSafety.ClosedRefuses | internal/client/handler.go:160-189 | on a closed handler a starting call is refused and nothing else changes, and a second `Close` changes nothing |
| DemuxSafety.FailAllAfterClose | internal/client/handler.go:168-170 | after `Close`, a reader whose connection fails panics in `failAll` if and only if something was registered |
| DemuxSafety.QuietAfterClose | internal/client/handler.go:156-281 | when nothing was registered at `Close`, nothing ever panics in whatever follows, on any schedule |
| DemuxSafety.CloseSafeIff | internal/client/handler.go:156-281 | with a reader on the connection, `Close` is safe in every continuation if and only if nothing is registered |
| DemuxSafety.RegisterSafeIff | internal/client/handler.go:200-202 | registering keeps the invariant if and only if the id is free |
| DemuxSafety.WrapStrandsWaiter | internal/client/handler.go:175-202 | a legal run of 2^32 further ids after which a waiter is in no place at all |
| Handler.Handler.constructor | internal/client/handler.go:52-72 | a new handler is the machine's initial state, on the dialed connection with one read loop, and keeps it alive in cluster mode only |
| Handler.Handler.NextID | internal/client/handler.go:175-177 | the id is the counter plus one modulo 2^32, and only the counter changes |
| Handler.Handler.Register | internal/client/handler.go:185-202 | refuses and changes nothing when closed; otherwise registers a new, unused channel under the id |
| Handler.Handler.Cleanup | internal/client/handler.go:233-237 | removes the id's entry and touches no channel |
| Handler.Handler.Take | internal/client/handler.go:258-261 | returns the id's channel exactly when there is one, and removes the entry either way |
| Handler.Handler.Deliver | internal/client/handler.go:263-266 | sends on and closes that one channel and no other |
| Handler.Handler.Await | internal/client/handler.go:221 | receives the buffered value, or the empty result of a closed channel |
| Handler.Handler.FailAll | internal/client/handler.go:270-281 | both loops together: every registered channel is sent the empty result and closed, every other is untouched, and the map is empty |
| Handler.Handler.Close | internal/client/handler.go:156-173 | once only: the context, the keepalive loop and the connection are ended; every registered channel is closed and stays registered, every other is untouched |
| Handler.Handler.End | internal/client/handler.go:163-166 | closed, cancelled, keepalive stopped, connection closed, and no channel touched |
| Handler.Handler.Reconnect | internal/client/handler.go:114-131 | the old connection is closed; a successful dial puts the new one in place and starts one read loop, a failed one leaves the old in place, so a connection is never cleared |
| Handler.Handler.ReadyForEveryStep | internal/client/handler.go:156-281 | when the fields stand where the machine's invariant holds, the state preconditions of the methods of its steps are met: a connection, an unused ticket, a channel to receive from, open and empty channels in the map and in readers' hands |
| Handler.GoChan.Send | internal/client/handler.go:264 | a send on an open, empty channel buffers the value |
| Handler.GoChan.Receive | internal/client/handler.go:221 | a receive takes the buffered value, or the zero value of a closed channel |
| Frame.PrependHeader | internal/protocol/frame.go:27-35 | for payloads of every length: the documented frame cut to a length computed modulo 2^32, or the panic of a buffer too short for its header |
| Frame.HeaderFrameFaithful | internal/protocol/frame.go:27-35 | the frame carries the whole payload if and only if it is shorter than 2^32 - 9 bytes |
| Frame.PrependRouterHeader | internal/protocol/frame.go:41-94 | the same for router frames, by the single-allocation fill |
| Frame.RouterRefinesConcatenation | internal/protocol/frame.go:37-94 | within the size bound the fill is the router header in front of what `PrependHeader` builds, and its length word counts exactly the bytes after it |
| Frame.RouterRoundTrip | internal/protocol/frame.go:37-94 | a reader of the router layout recovers segment, flag, shard frame and remainder if and only if the segment has at most 255 bytes |
| Frame.BuildKeepaliveFrame | internal/protocol/frame.go:185-219 | the router frame of the keepalive segment, a read, and an empty payload; the router reads it back as such |
| Frame.DrainFrame | internal/protocol/frame.go:116-146 | the result, every error included, and the bytes left on the connection, for every input |
| Frame.DrainExact | internal/protocol/frame.go:116-146 | draining succeeds on exactly the frames of well-headed payloads and leaves exactly what follows |
| Frame.ParseFields | internal/protocol/frame.go:150-183 | the loop decodes field by field, with every error, and indexes nothing out of range |
| Frame.FieldsExact | internal/protocol/frame.go:150-183 | decoding yields a list if and only if the list has the announced length and the bytes are its encoding |
| Frame.FieldsPrefixFree | internal/protocol/frame.go:177-180 | for one count, no accepted input properly extends another |
| Frame.SameCountSameBytes | internal/protocol/frame.go:150-183 | encodings of equally many fields of which one begins with the other are the same, and so are the fields |
| Frame.MessageRoundTrip | internal/protocol/frame.go:27-183 | building, framing, draining and parsing give back id, name, count and fields, and leave the remainder |
| Frame.ReadLoop | internal/client/handler.go:239-256 | one reader on one connection delivers the frames of the stream until the first error or until it finds its context cancelled |
| Frame.StreamFraming | internal/client/handler.go:239-256 | any list of frames with a status and a count, whether or not their fields decode, is drained whole and in order, and what follows is read as if it came first |
| Frame.StreamExact | internal/client/handler.go:239-256 | conversely, what is drained from any bytes is what they begin with, up to the first bytes that are no frame |
| Frame.MessagesDelivered | internal/client/handler.go:239-264 | a server's messages are delivered with their ids, statuses and exactly their fields, in order, whatever follows |
| Frame.TruncatedStream | internal/client/handler.go:247-254 | a stream of such frames cut anywhere inside its last one yields all complete frames and then the end-of-input error |
| Requests.BuildSearchAvailPayload | internal/command/search_avail.go:23-95 | the payload whose fields are those of the fifteen slots that are present, each under its slot's id and type |
| Requests.BuildSearchPropPayload | internal/command/search_prop.go:22-76 | the same for its nine slots |
| Requests.BuildSetRoomPkgPayload | internal/command/set_room_pkg.go:22-71 | an error if and only if a required field is empty; otherwise the same for its six slots |
| Requests.WritePayload | internal/command/search_avail.go:85-94 | the field loop writes the name, the count and the encoding of the fields |
| Requests.AvailReads | internal/command/search_avail.go:36-83 | the fields sent, read by id, type and exact width (one, four or eight little-endian bytes, comma-separated lists), are the request |
| Requests.PropReads | internal/command/search_prop.go:35-64 | the same, with the one collision of empty lists |
| Requests.PkgReads | internal/command/set_room_pkg.go:40-57 | the same |
| Requests.LayoutIncreasing | internal/command/search_avail.go:36-85 | ids strictly increase and the count is the number of options present |
| Requests.LayoutHas | internal/command/search_avail.go:36-83 | a field is sent if and only if it is what its slot holds |
| Requests.RequestRoundTrip | internal/protocol/frame.go:27-183 | any request within the size bounds, built, framed, drained and parsed over the slice the read loop uses, gives back its name and exactly the fields that were set |
| Requests.SearchAvailRoundTrip | internal/command/search_avail.go:23-95 | that for every SEARCHAVAIL request, and what is parsed reads as the request |
| Requests.SearchPropRoundTrip | internal/command/search_prop.go:22-76 | that for every SEARCHPROP request, and what is parsed reads as the request |
| Requests.SetRoomPkgRoundTrip | internal/command/set_room_pkg.go:22-71 | that for every SETROOMPKG request, and what is parsed reads as the request |
| Requests.PayloadDeterminesSlots | internal/command/search_avail.go:36-94 | two requests of one command have the same payload if and only if the same options hold the same bytes |
| Requests.SearchAvailInjective | internal/command/search_avail.go:36-94 | SEARCHAVAIL requests whose list elements have no comma have the same payload if and only if they are equal |
| Requests.SearchPropInjective | internal/command/search_prop.go:35-74 | the same up to the collision of no strings with one empty string |
| Requests.SetRoomPkgInjective | internal/command/set_room_pkg.go:40-70 | the same up to the same collision |
| SearchAvailResp.ParseSearchAvailResp | internal/command/search_avail.go:97-198 | the result for every response that has the fields it indexes; its truncation check and its left-over check are never what stops it |
| SearchAvailResp.ParseDays | internal/command/search_avail.go:129-184 | the inner loop reads day `d` at `2 + 11 * d`, decodes the announced number of days, and never finds one truncated |
| SearchAvailResp.EncodedIsAccepted | internal/command/search_avail.go:97-198 | every encoded list of properties is accepted and returned in order if its dates are of the calendar, and otherwise refused for its date |
| SearchAvailResp.AcceptedIsEncoded | internal/command/search_avail.go:97-198 | whatever is accepted is such an encoding, has one and twice as many fields as properties, and every property has the announced number of days |
| SearchAvailResp.DaysDecode | internal/command/search_avail.go:153-184 | a days vector decodes if and only if all its dates are real |
| SearchAvailResp.ResponseEndToEnd | internal/client/handler.go:247-264 | a server's message on the wire is delivered and decoded to the properties it encodes |
| Dates.NormalizeKeepsDay | internal/protocol/helpers.go:44 | carrying overflowing days and months keeps the number of the day that is meant and ends at a calendar date |
| Dates.NumberOrders | internal/protocol/helpers.go:44 | days are numbered in calendar order, one date to a number |
| Dates.MonthLengths | internal/protocol/helpers.go:44-46 | the months' lengths and beginnings follow the rule of 153 days to five months |
| Dates.CalendarFormula | internal/protocol/helpers.go:44-46 | which dates are real, and their day numbers, by closed formula |
| Dates.PackedDateExact | internal/protocol/helpers.go:37-49 | a code is accepted if and only if its month and day form a Gregorian date (RFC 3339, section 5.7 and appendix C), by table and by closed formula, and yields that date's text |
| Dates.PackedDatesOrdered | internal/protocol/helpers.go:37-49 | with four-digit years, accepted codes are ordered by their low twelve bits exactly as their strings are, and agree exactly when their strings do |
| Dates.PackRoundTrip | internal/protocol/helpers.go:37-49 | every date of the eight years packs into twelve bits and is unpacked to its own text |
| Dates.TextOrders | internal/protocol/helpers.go:48 | on four-digit years string order is calendar order |
| Dates.YearTextReads | internal/protocol/helpers.go:48 | the text of a year of any length has at least four digits and reads as that year |
| Dates.TextOfSpelled | pkg/types/request.go:23-27 | reading a string of the date format and writing it again gives the string |
| Dates.ValidateDate | pkg/types/request.go:19-48 | no fault if and only if the string spells a real date between today and one calendar year on; otherwise which fault, for a malformed, an unreal, a past and a too distant date, the last two by day number |
| Dates.ValidateDates | pkg/types/request.go:50-62 | reports exactly the unacceptable dates, in order |
| Dates.NoneRejected | pkg/types/request.go:50-62 | nothing is reported if and only if every date is acceptable |
| Dates.AcceptedDatesPack | pkg/types/request.go:19-48 | every accepted date has year offset 0 or 1, packs, and is unpacked to the same string |
| Dates.OneYearOn | pkg/types/request.go:37 | the limit is the same day next year, and 1 March for 29 February |
| Dates.LimitInDays | pkg/types/request.go:36-40 | the limit is 366 days away if and only if a 29 February lies on the way, and otherwise 365 |
| Dates.LeapDayLimit | pkg/types/request.go:36-40 | on 29 February the last accepted string is 1 March of the next year |
| PropertyId.BytesToPropertyID | internal/protocol/helpers.go:68-118 | the two counting loops and the UUID branch compute the id, for buffers of every length |
| PropertyId.EmptyIdIff | internal/protocol/helpers.go:68-118 | exactly which buffers decode to no id |
| PropertyId.UnpackOfPack | internal/protocol/helpers.go:74-98 | in every buffer of at least seven bytes, unpacking the short form of a zero-free id that fits gives the id back |
| PropertyId.CanonicalForm | internal/protocol/helpers.go:74-114 | a UUID decodes to 36 bytes; a short form decodes to at most 15, and packing those gives the sixteen bytes back |
| PropertyId.PropertyIDInjective | internal/protocol/helpers.go:68-118 | on canonical sixteen-byte encodings, of either form, decoding is injective |
| PropertyId.UuidTextInjective | internal/protocol/helpers.go:111-113 | the text form of section 4 of RFC 9562 determines the sixteen bytes |
| PropertyId.UuidDigits | internal/protocol/helpers.go:100-113 | the text of a UUID has dashes in its four places and lower-case digits elsewhere, which read as the bytes received, in order, and as zero where fewer than sixteen came |
| RateFeatures.BitmaskToRateFeatureStrings | internal/protocol/helpers.go:22-34 | the names at the set bits below 24 and below the number of codecs, in order |
| RateFeatures.SetBitsExact | internal/protocol/helpers.go:28-31 | a position is selected if and only if it is in range and its bit is set |
| RateFeatures.NameIffBit | internal/protocol/helpers.go:28-31 | with distinct codecs a name is decoded if and only if it is among the first 24 and its bit is set |
| RateFeatures.MaskedIsRemainder | internal/protocol/helpers.go:28-29 | the set bits below a position add up to the mask modulo that power of two |
| RateFeatures.RoundTrip | internal/protocol/helpers.go:22-34 | with distinct codecs, encoding the decoded names gives the used bits of the mask back |
| RateFeatures.ValidateRateFeatures | pkg/types/codecs.go:23-34 | no error if and only if every input is a codec; otherwise the error names exactly the others, in order |
| RateFeatures.DecodedIsValid | pkg/types/codecs.go:23-34 | what the client decodes with its codecs passes its validation, and has one name per set bit |
| ListResponses.ParseGetSegmentsResp | internal/command/get_segments.go:33-75 | accepted if and only if the fields are pairs of the right types and length; the list is what those pairs encode, and the missing-count check is never what stops it |
| ListResponses.SegmentsArePairs | internal/command/get_segments.go:41-64 | every encoded list is made of such pairs |
| ListResponses.SegmentsDetermined | internal/command/get_segments.go:41-74 | no two lists have the same fields |
| ListResponses.ParsePropRoomDateListResp | internal/command/prop_room_date_list.go:50-65 | on success, in ascending order, every text among the fields' data as often as it was sent, the empty one left out |
| ListResponses.StringsCount | internal/command/prop_room_date_list.go:57-62 | the filter keeps every text as often as it was sent, and drops the empty one |
| ListResponses.SortedUnique | internal/command/prop_room_date_list.go:63 | there is one such order only |
| ListResponses.SortedDatesAreChronological | internal/command/prop_room_date_list.go:57-64 | for well-formed dates that order is the calendar's |
| ListResponses.ParseGetCodecsResp | internal/command/get_codecs.go:35-59 | accepted if and only if there is one field of the codec type; the names are its text split at the commas and join to it again; the errors of a failed request |
| ListResponses.CodecsRoundTrip | internal/command/get_codecs.go:53 | a text is split into given names if and only if they are at least one, have no comma, and join to it |
| ListResponses.ParseSearchPropResp | internal/command/search_prop.go:77-96 | accepted if and only if every field is numbered by its place, modulo 2^16, and is a string; the ids are those fields' ids in order |
| ListResponses.AnswersExact | internal/command/search_prop.go:84-94 | the accepted field lists are exactly those a numbering server sends |
| ListResponses.AnswerRoundTrip | internal/command/search_prop.go:84-95 | an answer with packed short ids is accepted and decoded to those ids in order |
| Responses.RefusalEndToEnd | internal/command/search_avail.go:98-103 | a server's refusal on the wire reaches the caller as that text, and wrapped with its code and message |
| Responses.OwnFailure | internal/command/search_avail.go:98-103 | a decoder's own error is reported exactly when the first field is missing or no string |
| ErrorKinds.ClassificationStable | pkg/types/err.go:59-140 | classifying, flattening and classifying again changes nothing; the flattened text is the original if and only if it has a colon |
| ErrorKinds.RewrapStable | pkg/types/err.go:59-93 | without an explicit kind, any wrapped error or string, flattened and wrapped again, is the same error |
| ErrorKinds.RewrapIdentity | pkg/types/err.go:64-68 | under any number of layers of text a classified error is found again, whatever kind is asked for, and where there is none, none is found |
| ErrorKinds.TextIsKept | pkg/types/err.go:59-114 | whatever comes in unclassified keeps its text: as the message under the code of the asked kind, as the message of an internal error when it is neither error nor string, and otherwise cut at its first colon; nil stays nil |
| ErrorKinds.ExplicitKindLost | pkg/types/err.go:70-77 | an explicit kind is given, with the whole text as message, and survives flattening and rewrapping if and only if it is the internal kind |
| ErrorKinds.ServerText | pkg/types/err.go:79-140 | a server's text is cut into code and message at its first colon, and which public predicate holds is decided by the code |
| ErrorKinds.OwnCodes | pkg/types/err.go:103-114 | the client's own four codes have no colon and are none of the server's |

## Left out

- Sockets, dialing, tickers, clocks and deadlines: their outcomes are nondeterministic steps; today's date and the base
  year are parameters, the base year being the same for every date of one response.
- The keepalive loop, except for the bytes of its frame.
- What readers that were already under way do after a `Close` with calls registered: they can panic (`CloseSafeIff`), so
  the claims about channels cover the runs before `Close` and those after a `Close` with nothing registered.
- Handler.Handler.FailAll: the machine takes the whole critical section as one step, which the lock makes it; the loops
  are in the method.
- Handler.Handler.Close: likewise one step of the machine; that a cancelled context ends a reader, and that a closed
  connection fails one, are the steps `Quit` and `ReadFails`, possible at any time.
- Frame.ReadLoop: when the context is cancelled is a parameter; the lookup and sends are the machine's, and the
  reconnect callback of the caller is left out.
- Frame.ByteReader: a connection is the bytes it will still deliver, after which it reports the end of input; other read
  errors, and running out of memory on a large announced length, are left out.
- Requests.Append: one method stands for each `if v != nil` of the three builders, so that fifteen slots stay readable.
- SearchAvailResp.ParseSearchAvailResp: a SUCCESS response without fields is a run-time panic in the source, so it is
  excluded by precondition; the error texts are constructors holding what the texts mention.
- Dates.ValidateDate: today is the date of a clock in UTC; other local zones, and the error texts, are left out.
- Library code is given by small functions: `io.ReadFull`, `time.Date`, the date regular expression, `strings.Join`,
  `Split` and `Cut`, `slices.Sort` (by insertion), and the UUID text form.
- Floats are their 64-bit patterns, and `int` is taken to be 64 bits wide, so offsets do not wrap.
- Commands with a fixed field layout, and the builders without fields: instances of the generic field encoding.
- The public client wrappers, the codec cache, the configuration builder, the example program, and the presence and
  range checks of the `Verify` methods.
