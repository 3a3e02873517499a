# Sippet, verified in Dafny

A model of the four hardest parts of Sippet, a SIP stack in Elixir with a C++
parser, and proofs about it. One file per component; `dafny verify
dfyconfig.toml` checks the project.

- **Broken-down time** (`Machine`, `Calendar`, `TimeFields`, `PrTime`,
  `DateText`, `DateHeader`, `DateForms`): the in-place normalisation of
  `c_src/prtime.cc` with C division and field widths, measured against a calendar
  that counts days one by one, the Date header printed and parsed back, and the
  other forms of dates that are read. Fields are typed with their widths, and
  `PrTime.Fits` is a condition under which no step leaves them.
  The closed form of lines 88-90 is a day ahead for some years before year 1; the
  code is modelled as it is and the years are characterised exactly.
- **TCP framing and pool** (`Search`, `Framer`, `Framing`, `Boundaries`,
  `Connection`, `Pool`). Content-Length extraction is a parameter: any function of
  the header bytes that ignores leading newlines and finds nothing in newlines
  alone. Frames and the state in which the connection waits do not depend on the
  reads for streams whose header blocks hold no LF LF before their CR LF CR LF, and
  for no others: until CR LF CR LF has arrived the code takes LF LF for the end of
  the header. The messages may agree for other streams, but not for all that
  begin like them.
- **Transactions** (`Messages`, `Transactions`, `ClientInvite`, `ServerInvite`,
  `ClientNonInvite`, `ServerNonInvite`, `Agreement`, `InviteAgreement`,
  `NonInviteAgreement`, `InviteDelivery`, `NonInviteDelivery`, `NoUnhandled`,
  `ClientRuns`, `ServerRuns`, `InviteBackoff`, `InviteRepeats`, `NonInviteBackoff`):
  the four state machines of section 17 of RFC 3261 as transition functions, each
  over all its runs, and composed over a network in which whatever was sent stays
  deliverable for ever, in any order and number, and messages with other keys
  arrive at any time, such as the ACK of a 2xx, which has another branch. Times
  follow the code, not the RFC.
- **Text** (`Tokenizer`, `Quoting`, `Params`, `ParamPrinting`, `ParamLists`,
  `ParamMaps`, `Numbers`, `RawHeaders`, `Concatenation`): the quote-aware tokenizer
  and the parameter iterators of the C++ side as objects with loops, against the
  printers of the Elixir side.

Bytes are `char`s. A failed pattern match or `hd([])` that would crash a process
appears as the effect `Crash`, and a key that cannot be built as `None`.

Where code and documentation differ, the code is followed: the INVITE client gives
up at A(2^n - 1), because elapsed time is checked only when a doubled wait ends,
and 100 Trying is sent after 200 ms even when the core has already sent another
provisional response, replacing it as the answer to duplicates. The generic
printer escapes quotes but not backslashes, so not every parameter comes back; the
server transaction of an INVITE ends with its 2xx, so that a late copy of the INVITE
is a new one to the core.

## Model

| member | source | states |
|---|---|---|
| `Calendar.EpochDayCounts` | c_src/prtime.cc:73-90 | the day number from 1970 goes up by one from each calendar date to the next, across month, year and leap boundaries: the day-by-day count the closed forms are measured against |
| `Calendar.EpochDayIsMonotone` | c_src/prtime.cc:88-90 | day numbers follow calendar order |
| `Calendar.EpochDayIsInjective` | c_src/prtime.cc:88-90 | two valid dates with one day number are the same date |
| `Calendar.DaysBeforeYearClosed` | c_src/prtime.cc:88-89 | the leap-year formula with flooring divisions equals the year-by-year count, for every year |
| `TimeFields.CountDaysExactly` | c_src/prtime.cc:88-90 | with the C division of the macros the count is right if and only if the year is at least 1 or the year before it is a leap year |
| `TimeFields.CountDaysSkew` | c_src/prtime.cc:88-90 | otherwise it is one day ahead, never more |
| `TimeFields.NormalFormIsCanonical` | c_src/prtime.cc:260-364 | two records with all fields in range are equal exactly when they denote the same microsecond |
| `PrTime.Carry` | c_src/prtime.cc:274-309 | the truncating carry with its repair is flooring division, for any sign |
| `PrTime.ExplodedTime.CarryClock` | c_src/prtime.cc:272-309 | the four clock carries, in place: fields and day are exactly the mixed-radix carries |
| `PrTime.ExplodedTime.CarryMonth` | c_src/prtime.cc:311-319 | month in 0..11, same day number, clock untouched |
| `PrTime.ExplodedTime.CarryDay` | c_src/prtime.cc:321-346 | both day-of-month loops terminate in a valid date with the same day number |
| `PrTime.ExplodedTime.RecomputeDays` | c_src/prtime.cc:348-356 | yday is the day of the year, wday what the closed form yields |
| `PrTime.ExplodedTime.NormalizeToGmt` | c_src/prtime.cc:263-356 | from any fields and zone: all fields in range, GMT, and the same microsecond |
| `PrTime.ExplodedTime.NormalizeTime` | c_src/prtime.cc:260-364 | with any parameter function of a total offset under a day: in range, in the new zone, and the same UTC microsecond as the input |
| `PrTime.ExplodedTime.AdjustDay` | c_src/prtime.cc:219-257 | one day back or on, with month, year, yday and wday stepped along |
| `PrTime.ExplodedTime.StepDayBack` | c_src/prtime.cc:222-238 | the date becomes its predecessor, yday again the day of the year |
| `PrTime.ExplodedTime.StepDayOn` | c_src/prtime.cc:242-256 | the date becomes its successor, yday again the day of the year |
| `PrTime.ExplodedTime.ApplySecOffset` | c_src/prtime.cc:195-258 | shifts the local clock by exactly the offset and leaves every field in range; yday and wday agree with the new date |
| `PrTime.ShiftedWeekday` | c_src/prtime.cc:195-258 | a correct weekday stays correct when only stepped, equal to recomputation from the date |
| `PrTime.NormalizeIsCanonical` | c_src/prtime.cc:260-364 | two times normalise to identical fields exactly when they denote the same instant |
| `PrTime.NormalizeIsIdempotent` | c_src/prtime.cc:260-364 | normalising twice is normalising once |
| `PrTime.WeekdayIsExact` | c_src/prtime.cc:352-356 | the weekday is the calendar's exactly for the years in which the closed form is exact |
| `PrTime.ExplodedTime.ImplodeTime` | c_src/prtime.cc:132-170 | the result is the instant of the normal form plus the closed form's error in days; no 32- or 64-bit step overflows |
| `PrTime.ImplodeIsExact` | c_src/prtime.cc:132-170 | imploding gives the instant itself if and only if the closed form is exact for the normalised year |
| `PrTime.ImplodeOrders` | c_src/prtime.cc:132-170 | for normal forms x before y the imploded times are in order unless, and only unless, x lies on the last day of a leap year not after year 0 and y on the next day with no later clock |
| `PrTime.ImplodeIsMonotone` | c_src/prtime.cc:132-170 | so from year 1 on imploding is strictly increasing |
| `PrTime.ImplodeCollides` | c_src/prtime.cc:88-90 | a New Year's Day with a clock no later than that of the New Year's Eve before it implodes no later exactly after a leap year not after year 0 |
| `Search.Match` | lib/sippet/transports/tcp/connection.ex:203-208 | the first occurrence of a pattern, or none |
| `Framer.ParseConserves` | lib/sippet/transports/tcp/connection.ex:151-209 | one call of `parse`: bytes in equal, in order, stripped newlines, deliveries, the held header and the buffer; it stops only when idle and empty, without a header terminator, or short of Content-Length bytes, and the pending timer is the one for that state |
| `Framer.FeedConserves` | lib/sippet/transports/tcp/connection.ex:109-113 | the same over any list of reads |
| `Framer.PingsAreStripped` | lib/sippet/transports/tcp/connection.ex:151-168 | keep-alive newlines while no message is read are stripped one by one, as they were sent, and leave the connection idle |
| `Framing.HeaderEndStripped` | lib/sippet/transports/tcp/connection.ex:203-208 | the header end found behind leading newlines lies among them or is the one found without them |
| `Framing.ParseRefines` | lib/sippet/transports/tcp/connection.ex:151-201 | from every state `parse` delivers and leaves exactly what a machine on the newline-stripped stream does |
| `Framing.ResumeSplits` | lib/sippet/transports/tcp/connection.ex:151-201 | framing a clean stream in two goes is framing it in one |
| `Framing.FeedRefines` | lib/sippet/transports/tcp/connection.ex:109-201 | any list of reads of a clean stream does what one go does |
| `Framing.ReadBoundariesDoNotMatter` | lib/sippet/transports/tcp/connection.ex:109-201 | after each read of a clean stream, however it is cut, frames delivered and pending state equal those of one single read |
| `Framing.MessagesDoNotDependOnReads` | lib/sippet/router.ex:28-40 | the very messages the router parses (stripped, empties dropped) do not depend on the cuts |
| `Boundaries.UncleanSplits` | lib/sippet/transports/tcp/connection.ex:203-208 | a stream with LF LF before the CR LF CR LF of some header block has a cut that changes its framing |
| `Boundaries.ExactlyTheCleanStreams` | lib/sippet/transports/tcp/connection.ex:109-209 | no cut changes the frames or the state in which the connection waits if and only if no header block holds LF LF before its CR LF CR LF |
| `Boundaries.ExactlyTheCleanMessages` | lib/sippet/router.ex:28-40 | no cut of the stream, or of it with part of a line behind it, changes the messages the router parses if and only if the stream is clean, for a Content-Length found alike in complete lines whatever follows them |
| `Boundaries.UncleanMessages` | lib/sippet/transports/tcp/connection.ex:203-208 | the continuation and the cut that change them when it is not |
| `Boundaries.InnerBlankLine` | lib/sippet/transports/tcp/connection.ex:203-208 | a concrete stream that is not clean |
| `Boundaries.FramedStream` | lib/sippet/transports/tcp/connection.ex:151-209 | streams of padding and well-framed messages are clean and their frames are exactly those messages |
| `Boundaries.FramesArrive` | lib/sippet/transports/tcp/connection.ex:109-209 | however such a stream is cut into reads, exactly its frames arrive |
| `Connection.Process.HandleTcp` | lib/sippet/transports/tcp/connection.ex:109-113 | the callback on the process state: appends, parses, and keeps conservation and whole-stream framing over the connection's life |
| `Messages.KeysSurviveReceipt` | lib/sippet/router.ex:150-180 | rewriting the topmost Via changes neither transaction key |
| `Messages.ResponseFindsBothTransactions` | lib/sippet/message.ex:390-418 | a response built from a received request has the server key of that request and the client key of the one sent; To gets a tag unless it has one or the code is 100, and nothing else differs |
| `Messages.AckFindsAlias` | lib/sippet/transactions/client/invite.ex:23-60 | the ACK carries the key of the server's alias, the CSeq number of the request and the tag of the response |
| `Messages.TargetIsSettled` | lib/sippet/transactions/server.ex:35-74 | resolving the target of a response again changes nothing, and no key depends on it |
| `Messages.ResponseGoesBack` | lib/sippet/transactions/server.ex:48-72 | the response goes to the address and port the request came from exactly when hints the sender put in its Via do not say otherwise; over WebSocket, where nothing is noted, exactly when the Via or its hints are right |
| `Messages.AckMatchesRefusal` | lib/sippet/transactions/client/invite.ex:23-60 | the ACK built from the client's request and the refusal built from what the server received name one dialog: equal From, To with its tag, Call-ID and CSeq number |
| `ClientRuns.InviteClientRun` | lib/sippet/transactions/client/invite.ex:62-161 | every run: requests until something is heard, one for each timeout, then one ACK per refusal heard, all built for the first; the core hears every response through the first final one, or an error instead of it, never both; copies of the refusal do not prolong timer D, which runs on an unreliable transport only and alone ends the wait |
| `ClientRuns.CiCompleted` | lib/sippet/transactions/client/invite.ex:133-161 | from completion on, every run sends one ACK per refusal, tells the core nothing and leaves the machine as it is until it stops |
| `ServerRuns.InviteServerRun` | lib/sippet/transactions/server/invite.ex:32-144 | every run, whatever the events: the core hears the INVITE once and of one error at most; what is sent are the answers through the first final one, in order, each once or more, and nothing else; a copy of the INVITE gets the last message sent and disturbs nothing; an error of the transport is reported until the ACK has come; once confirmed the server is silent |
| `ServerRuns.TriesOnce` | lib/sippet/transactions/server/invite.ex:36-46 | the server answers 100 of its own accord at most once, and until then or its decision nothing touches the wait for it, which runs from the start |
| `ClientRuns.NonInviteClientRun` | lib/sippet/transactions/client/non_invite.ex:79-163 | every run, stale alarms included: the request once and once more per retry before the final response; the core hears every response through that one, or an error instead, never both; nothing prolongs timer K, which runs on an unreliable transport only and alone ends the wait |
| `ServerRuns.NonInviteServerRun` | lib/sippet/transactions/server/non_invite.ex:14-89 | every run, whatever the events: the request is told once, an error never after a final response; what is sent are the answers through the first final one, in order, each once or more; every copy of the request gets the last message sent; nothing prolongs timer J |
| `InviteAgreement.InviteAgreement` | lib/sippet/router.ex:372-411 | in every run over a network that loses, duplicates and reorders: the server core hears the INVITE once and once more for each copy that arrives after its transaction has ended, there are no more decisions than it hears of the INVITE, and the client core is told at most one final, one that was sent; without such copies all finals sent are one, no ACK arrives at a server that has not decided, and a confirmed server has a client that built the ACK for its decision |
| `InviteAgreement.LateCopiesCanDisagree` | lib/sippet/router.ex:372-411 | with any configuration one late copy can make two different finals: a run that answers 200 and then 486 |
| `InviteAgreement.ActKeepsInv` | lib/sippet/router.ex:372-411 | every action of either side, of the network, of timers and of the core keeps the joint invariant |
| `InviteAgreement.AckMeansRefusal` | lib/sippet/transactions/server/invite.ex:19-24 | an ACK under the alias key can only be on the wire after the server has refused |
| `InviteAgreement.NoEarlyAckHolds` | lib/sippet/transactions/server/invite.ex:48-58 | no ACK of the transaction can reach the server in `proceeding`, which would take it for a duplicate INVITE |
| `InviteAgreement.ConfirmationHolds` | lib/sippet/transactions/server/invite.ex:101-132 | confirmation implies the ACK for the very response the server remembers |
| `NonInviteAgreement.NonInviteAgreement` | lib/sippet/router.ex:372-411 | in every run: the server core hears the request once and once more for each late copy, there are no more decisions than that, and the client core is told at most one final, one that was sent; without late copies all finals are one and every duplicate after the first response is answered by the last one sent |
| `NonInviteAgreement.LateCopiesCanDisagree` | lib/sippet/router.ex:372-411 | with any configuration one late copy, after timer J, can make two different finals |
| `NonInviteAgreement.DuplicatesHold` | lib/sippet/transactions/server/non_invite.ex:40-47 | a duplicate in `proceeding` or `completed` adds the last response to the wire and changes nothing else |
| `InviteDelivery.InviteDelivery` | lib/sippet/router.ex:372-411 | in every world of every run: an ACK on the wire that arrives at a server that has refused confirms it; a copy of the INVITE before that is answered by what was sent last and changes nothing else; a response to the INVITE is told to a core that still waits, and a refusal is acknowledged, the first and every copy; the core's answers are put on the wire until it has decided; timeouts that fire, failures and orders to stop have their effect |
| `InviteDelivery.NoDeadEnd` | lib/sippet/transactions/server/invite.ex:101-127 | from every state of a run in which the client still waits, with no server running or an undecided one, there is a continuation in which the core refuses with any code, the client is told and the server is confirmed |
| `InviteDelivery.RefusalCanBeConfirmed` | lib/sippet/transactions/server/invite.ex:19-24 | from one in which the server has refused, two deliveries confirm it |
| `NonInviteDelivery.NonInviteDelivery` | lib/sippet/router.ex:372-411 | in every world of every run: a copy of the request is answered by what was sent last and changes nothing else; a response to the request is told to a core that still waits; the core's answers are put on the wire until it has decided; timeouts, failures and orders to stop have their effect |
| `NonInviteDelivery.NoDeadEnd` | lib/sippet/transactions/server/non_invite.ex:14-89 | from every state of a run in which the client still waits, with no server running or an undecided one, the request can be answered with any final response, and the answer heard |
| `NoUnhandled.InviteClientHandlesAll` | lib/sippet/transactions/client/invite.ex:88-161 | no run of timers, responses and transport errors reaches `unhandled_event` or a failed match |
| `NoUnhandled.NonInviteClientHandlesAll` | lib/sippet/transactions/client/non_invite.ex:79-163 | nor here, also with stale process timers at any time |
| `NoUnhandled.InviteServerHandlesAll` | lib/sippet/transactions/server/invite.ex:42-144 | a run reaches them if and only if the core sends a response after its own final one while the transaction lives |
| `NoUnhandled.NonInviteServerHandlesAll` | lib/sippet/transactions/server/non_invite.ex:14-89 | the same for the non-INVITE server |
| `InviteBackoff.UnansweredInvite` | lib/sippet/transactions/client/invite.ex:17-86 | unreliable, no answer, any positive A and B: requests at A(2^k - 1) for k < n, timeout at A(2^n - 1), n least with A(2^n - 1) >= B, so between B and 2B + A |
| `InviteBackoff.DefaultTimeout` | lib/sippet/transactions/client/invite.ex:10-13 | with B = 64 A that is seven requests and a timeout at 127 A, not 64 A |
| `InviteBackoff.UnansweredReliableInvite` | lib/sippet/transactions/client/invite.ex:68-86 | reliable: one request, timeout at B |
| `InviteRepeats.RepeatTimes` | lib/sippet/transactions/server/invite.ex:26-112 | every run from a refusal on: it is sent at 0 and, on an unreliable transport, again after waits of G and then min(2 previous, T2), each time before H, until an ACK; the first such time that is not before H, or H when reliable, is when failure is reported, no later than max(G, H - 1 + T2); copies of the INVITE are answered in between and move none of this |
| `InviteRepeats.DefaultTimes` | lib/sippet/transactions/server/invite.ex:11-14 | with the default timers that is 0, 1, 3, 7 and 15 T1, then every 8, and failure at 71 |
| `NonInviteBackoff.NonInviteTiming` | lib/sippet/transactions/client/non_invite.ex:22-160 | requests after waits of E, then min(2 previous, T2) in `trying` and T2 in `proceeding`; at most one retry timer and one deadline pending; the deadline fires at F and nowhere else; one request when reliable |
| `NonInviteBackoff.NothingAfterCompletion` | lib/sippet/transactions/client/non_invite.ex:134-160 | once completed or stopped nothing is sent and no failure reported, whatever stale timers fire |
| `Tokenizer.StringTokenizer.QuickGetNext` | c_src/string_tokenizer.h:169-183 | finds the next token of the specification without quotes |
| `Tokenizer.StringTokenizer.FullGetNext` | c_src/string_tokenizer.h:186-205 | finds the next token of the specification for any quotes, or one delimiter when those are asked for |
| `Tokenizer.StringTokenizer.GetNext` | c_src/string_tokenizer.h:126-131 | either way the same token: the fast form refines the full one |
| `Tokenizer.NextTokenIsWhole` | c_src/string_tokenizer.h:186-238 | no token holds a delimiter outside quotes, one follows it unless the text ends, and only delimiters are passed over |
| `Tokenizer.TokensInOrder` | c_src/string_tokenizer.h:126-205 | tokens are in order, disjoint and whole |
| `Tokenizer.GapsAreDelimiters` | c_src/string_tokenizer.h:126-205 | every byte outside all tokens is a delimiter |
| `Tokenizer.TokensWithoutQuotes` | c_src/string_tokenizer.h:169-205 | without quotes the tokens are the longest delimiter-free runs |
| `Quoting.TrimLWS` | c_src/utils.cc:364-373 | the range shrinks to the trimmed text; NUL counts as white space |
| `Quoting.UnquoteImpl` | c_src/utils.cc:234-281 | succeeds exactly for matching outer quotes (strictly: double, none unescaped inside, no open escape) and yields the unescaped inside |
| `Quoting.UnquoteChanges` | c_src/utils.cc:381-388 | unquoting changes a text exactly when it is wrapped in matching quotes |
| `Params.ValuesIterator.GetNext` | c_src/utils.cc:527-538 | the next trimmed, non-empty token |
| `Params.NameValuePairsIterator.GetNext` | c_src/utils.cc:639-702 | the pair, or an end of the iteration, that the text between two delimiters stands for |
| `Params.GenericParametersIterator.GetNext` | c_src/utils.cc:555-593 | the parameter, with or without value, that the text stands for |
| `Params.ParseAuthParams` | c_src/parser.cc:294-302 | the map of all pairs up to the first malformed one, unquoted twice |
| `Params.ParseParameters` | c_src/parser.cc:269-284 | the map of all parameters behind the first semicolon, names in lower case |
| `ParamPrinting.UnescapeEscaped` | lib/sippet/message.ex:1704-1705 | unescaping undoes the escaping of quoted strings, for every text |
| `ParamPrinting.AuthQuotesNames` | lib/sippet/message.ex:1680-1699 | for a value that is a token, what is printed behind the name begins with a double quote in a challenge exactly for realm, domain, nonce, opaque and qop, and in credentials exactly for username, realm, nonce, uri, response, cnonce and opaque, in any case of letters |
| `ParamPrinting.AuthQuotesValues` | lib/sippet/message.ex:1690-1699 | for any other value it does under every name |
| `ParamPrinting.GenericQuotesNames` | lib/sippet/message.ex:1662-1671 | a generic value is printed in quotes exactly under the names of feature tags or when a byte of it stands neither in a token nor in a host |
| `ParamPrinting.WordsAreTokens` | lib/sippet/message.ex:1702-1703 | what the printer leaves bare are exactly the parser's token characters but for five that section 25.1 of RFC 3261 does not have |
| `ParamPrinting.HalfEscaped` | lib/sippet/message.ex:1662-1671 | unescaping alone undoes the generic printer's escaping exactly when each backslash stands before a quote; the tokenizer is not asked |
| `ParamLists.GenericParameterRoundTrip` | lib/sippet/message.ex:1649-1671 | one generic parameter comes back through the parser if and only if it has no value, or is quoted, has each backslash before a quote and is not cut by the tokenizer, or is bare and does not begin with a single quote |
| `ParamLists.CutValue` | c_src/parser.cc:269-284 | a value that unescaping would restore but the tokenizer cuts |
| `ParamLists.AuthParameterRoundTrip` | lib/sippet/message.ex:1683-1705 | one authentication parameter comes back if and only if its value, printed in quotes, is not itself wrapped in quotes or, printed bare, does not begin with a single quote |
| `ParamLists.AuthListRoundTrip` | c_src/parser.cc:294-302 | a list of them comes back if and only if each does alone and no bare value but the last has an odd number of single quotes |
| `ParamMaps.AuthRoundTrip` | c_src/parser.cc:294-302 | a map of authentication parameters, each printed once in any order, is parsed as the same map if and only if its list comes back |
| `ParamLists.GenericListRoundTrip` | c_src/parser.cc:269-284 | a list of generic parameters comes back, last one first, if and only if each does alone and none but the last printed leaves a quote open |
| `ParamMaps.GenericRoundTrip` | lib/sippet/message.ex:1649-1671 | a map of generic parameters, each printed once in any order, is parsed as the same map if and only if its list comes back |
| `Numbers.Accumulate` | c_src/utils.cc:124-192 | for one sign: success exactly for digits only within 32 bits, saturation otherwise, and no intermediate overflow |
| `Numbers.RoomIsExact` | c_src/utils.cc:162-191 | the bound check fails exactly when one more digit would leave 32 bits |
| `Numbers.StringToInt` | c_src/utils.cc:89-116 | true exactly for an optional sign and digits whose value fits 32 bits, with that value; out of range it saturates |
| `Numbers.PrintedIntegerIsRead` | c_src/utils.cc:347-349 | every 32-bit value in decimal is read back |
| `RawHeaders.AssembleRawHeaders` | c_src/parser.cc:881-919 | fails exactly when some CR is not followed by LF; otherwise each byte is kept or dropped as specified |
| `RawHeaders.JoinedKeeps` | c_src/parser.cc:881-919 | the result has no CR and all bytes but CR and LF in their order |
| `RawHeaders.JoinedBreak` | c_src/parser.cc:900-915 | a line break is kept as one LF exactly when the byte after it exists and is not LWS |
| `RawHeaders.UnfoldedExactly` | c_src/parser.cc:911-915 | the result has no folded line left if and only if no kept line break stands before an empty line that leads into LWS or the end |
| `DateText.ScanIsSane` | c_src/prtime.cc:451-1034 | whatever the text, what the scanner finds lies in ranges that fit the machine's integers |
| `DateHeader.OverflowsExactly` | c_src/prtime.cc:260-364 | normalising the text's record, and then its zone, overflows no field if and only if neither the record nor the instant it denotes lies behind the last day of year 32767 |
| `DateHeader.EarlyYearsFit` | c_src/prtime.cc:451-1099 | so a text in which no year after 32766 is found overflows none |
| `DateHeader.ParseDate` | c_src/parser.cc:698-727 | the result is in range and is the instant the scanned text denotes in its zone |
| `DateHeader.ScanPrinted` | c_src/prtime.cc:475-1034 | what the token loop finds in a printed date |
| `DateHeader.DateRoundTrip` | lib/sippet/message.ex:1565-1611 | for every valid date-time of the years 1000 to 9999, printing and parsing gives back the same fields, less microseconds |
| `DateHeader.PrintedWeekday` | lib/sippet/message.ex:1565-1575 | the printed weekday: Thursday on the first day of 1970, and from each date to the next one the next day of the week |
| `DateHeader.PrintedExample` | lib/sippet/message.ex:1565-1611 | the example of section 20.17 of RFC 3261 is printed letter by letter |
| `DateForms.IsoForm` | c_src/prtime.cc:436-453 | every text YYYY-MM-DDTHH:MM:SS.ffffffZ denotes its date and time with microseconds, in GMT |
| `DateForms.IsoNoDate` | c_src/prtime.cc:896-900 | with a month after the twelfth or a day after the 31st such a text has no date |
| `DateForms.AmericanForm` | c_src/prtime.cc:436-453 | every text MM/DD/YYYY hh:MM:SS AM or PM denotes its date and time |
| `DateForms.EuropeanForm` | c_src/prtime.cc:436-453 | every text DD/MM/YY HH:MM with a day after the twelfth denotes its date and time, the year in the hundred from 1970 on |
| `DateForms.DashedForm` | c_src/prtime.cc:436-453 | every text DD-Mmm-YYYY HH:MM:SS denotes its date and time |
| `DateForms.ShortForm` | c_src/prtime.cc:436-453 | every text D Mmm YY H:MM denotes its date and time, the day being the first number |
| `DateForms.NamedZoneForm` | c_src/prtime.cc:1028-1050 | every text DD Mmm YYYY HH:MM:SS and one of the fifteen zones by name denotes its date and time by a clock of that zone |
| `DateForms.OffsetForm` | c_src/prtime.cc:660-702 | the same for a signed offset in hours, or in hours and minutes; an offset of minus one minute passes for none |
| `DateForms.BothForm` | c_src/prtime.cc:672-677 | with a zone by name and an offset behind it the offset counts behind GMT only |
| `DateForms.FarForm` | c_src/prtime.cc:1053-1058 | every text DD Mmm YYYYY HH:MM:SS is read if and only if its year is at most 32767, and then denotes its date and time |
| `DateForms.FarSlashedForm` | c_src/prtime.cc:1053-1058 | so is every text MM/DD/YYYYY, which denotes the first moment of its date |
| `DateForms.UtForm` | c_src/prtime.cc:646-653 | the same for UT, which is GMT |
| `Pool.PoolInvariant` | lib/sippet/transports/tcp.ex:326-369 | over every run of accepts, downs, sweeps and sends from an empty pool: never more pooled connections than a non-zero limit, no empty list, each process pooled once with a monitor of its own |
| `Pool.OneMonitorEach` | lib/sippet/transports/tcp.ex:608-638 | that means exactly one monitor per pooled process, naming its one peer |
| `Pool.SendKeeps` | lib/sippet/transports/tcp.ex:497-542 | sending keeps the invariant, whether or not the connect and the send succeed; a failed send leaves the pool as it was |
| `Pool.SweepKeeps` | lib/sippet/transports/tcp.ex:688-706 | a sweep keeps it and leaves live processes and their monitors only |
| `Pool.DownKeeps` | lib/sippet/transports/tcp.ex:352-363 | a process going down keeps it |
| `Pool.LiveWithinLimit` | lib/sippet/transports/tcp/connection.ex:86-95 | from an empty pool, whatever happens to it and to its processes: every live process is pooled, so a limit also bounds the live ones; a failed send drops its state, but stops its process |
| `Pool.DownIsExact` | lib/sippet/transports/tcp.ex:352-363 | exactly the process that went down leaves, with its monitor |
| `Pool.SweepSettles` | lib/sippet/transports/tcp.ex:688-706 | in any such history a sweep leaves exactly the live processes in the pool |
| `Pool.AcceptTakes` | lib/sippet/transports/tcp.ex:682-686 | a pool without limit, or with fewer connections than it, takes every accepted one, at the end of its peer's list and with its monitor, and is one larger; one that has reached its limit takes none |
| `Pool.PickedIsLive` | lib/sippet/transports/tcp.ex:522-542 | the picked connection is alive: the head of a full peer, which is rotated; otherwise, counting the peer's live connections, a new one while there is room and failing that the first one; no other peer is touched |
| `Pool.RoundRobinRestores` | lib/sippet/transports/tcp.ex:527-531 | as many picks as a full peer has live connections use each once, in order, and restore the pool |
| `Pool.ResponseReturns` | lib/sippet/transports/tcp.ex:411-422 | a response goes over the first live pooled connection from the peer its request came from, whenever there is one; when that fails its process is gone and the response is sent like any other message |
| `Pool.TotalPut` | lib/sippet/transports/tcp.ex:670-675 | the total changes by the change of one peer's list |

## Left out

- Sockets, DNS, IPSec policy, logging, telemetry, the registry's own behaviour: the registry is the pair of keys of the modelled transaction, sends append to the wire, timers are pending events.
- In the agreement models responses with the client's key come from the modelled server only, so forking is not modelled.
- Telling the core of messages outside transactions, the sharded handler, the 400 response to malformed requests.
- The regular expression for Content-Length, keep-alive pongs (their number depends on the reads), and the idle timer that sending a message sets again.
- The `rport` of a Via stays text: `String.to_integer` is not modelled, and `Messages.ResponseGoesBack` compares the text with the decimal form of the port.
- ParamPrinting.HalfEscaped: is about the text alone, not the tokenizer that comes before the unescaping; `ParamLists.GenericParameterRoundTrip` is about the parser.
- ParamMaps.AuthRoundTrip: for names that are tokens, as is every theorem on printed parameters; generic names must also be in lower case, since the parser lowers them.
- Params.NameValuePairsIterator.GetNext: only with required values and lenient quotes, the one way in which the parser uses it.
- DateHeader.ParseDate: requires that the text denotes nothing behind the last day of year 32767, exactly where a 16-bit year would wrap (`OverflowsExactly`). The local-time branch of the parser is not reached, since GMT is the default there.
- PrTime.ExplodedTime.NormalizeTime: requires that no field overflows (`Fits`) and that the parameter function's offsets are under a day.
- Building terms and atoms in the parser's interface to the virtual machine, the URI library, digests, `StringToDouble`, header accessors, status phrases.
- In the transaction machines a response is assumed to have a status code of 100 to 699, as the status line constructor enforces.
- Concurrency inside one node: a callback is one step, and messages between processes of one node arrive at once.
