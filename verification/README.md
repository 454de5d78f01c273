# Lagoon, verified

Lagoon is a mail client: a web front end inside a desktop shell, which starts a
local server and proxies calls to it. The server keeps an SQLite store, talks
IMAP and SMTP, and asks a language model for summaries and drafts. This project
models the parts of it whose correctness does not show in one function body, and
proves them. `dafny verify dfyconfig.toml` checks everything.

## What is modelled

| file | part of the program |
|---|---|
| `Calendar.dfy` | civil dates and day numbers, shared by both crates (their formulas are the same), with Rust's truncating division |
| `Timestamps.dfy` | the stored and the wire form of an instant, and the readers of both |
| `MailDates.dfy` | the `Date` header and IMAP's internal date |
| `Text.dfy`, `Utf8.dfy` | splitting, trimming, words, decimal numbers, text order, UTF-8 |
| `SqlSplitter.dfy` | the migration generator's statement splitter |
| `HttpReader.dfy`, `HttpMessages.dfy` | the HTTP/1.1 response reader over a byte stream, and what it makes of a response's bytes |
| `Query.dfy` | query strings, from the shell's proxy to the server's parser |
| `Uuid.dfy` | identifiers: text, bytes, and the client's request ids |
| `MailActions.dfy`, `MailBackend.dfy` | message actions, their audit log and their undo: as functions on the state, and as the handlers that update it in place |
| `MailEffects.dfy` | what one request leaves in the store and answers |
| `MailSafety.dfy`, `UndoStack.dfy`, `UndoRace.dfy` | what runs of those actions keep: agreement with the remote mailbox, undo as a stack, undo under interleaving |
| `SendClient.dfy`, `SendProtocol.dfy`, `Delivery.dfy`, `SendChain.dfy` | sending a mail: the composer, the claim rows, the channel between them; the proxy and the SMTP client, and how each is a step of that protocol |
| `Gateway.dfy` | the model gateway: cost, monthly budget and circuit breaker |
| `Supervisor.dfy` | starting, watching and restarting the backend process |

Handlers and loops that change state are methods, each proved equal to a
function; the properties are lemmas about those functions. Protocols with
several parties are state machines: a step is one atomic action of one party, a
run is any sequence of enabled steps, and what the environment does (errors,
losses, delays, crashes, clock readings, random bytes) is an argument of the
step.

## Where the code does less than it says

These are proved, each with the exact condition under which the promise holds.

- **A stored timestamp** reads back exactly when its year is not negative
  (`Timestamps.StoredRoundTrip`). The header of `crates/lagoon-api/src/timefmt.rs`
  says the text sorts as time, without a bound. Over a span of years it does
  exactly when the span is one year, or lies within -1 to 9999, or has
  non-negative years of one number of digits, or is such a pair as -1000 and -999
  (`Timestamps.StoredOrderExactly`); the nearest failures are the new years of
  10000 and of -1 (`Timestamps.OrderFails`).
- **At most one delivery** (`web/src/core/send.ts:4-13`) holds over all runs
  exactly when four things cannot happen (`SendProtocol.AtMostOnceIff`): a
  handler takes over a claim past the five-minute lease whose owner was not
  killed before its mail went out (it is still sending, or has sent, or has
  answered without its row recording it); the mail server's acknowledgement is
  lost after it took the mail, which is recorded and answered as a refusal; the
  awaited request is refused before its claim, so that nothing records the
  refusal, while another request with its id has sent the mail or still may; the
  user edits the draft back to content submitted before the last one, a mail of
  which has gone out or still may. Each has a run that delivers twice. What the
  lease exists for, a retry after a killed handler, is none of them
  (`SendProtocol.RetryRecovers`, `SendProtocol.KilledHandlerRecovers`).
- **A claim is retracted when its undo fails** unless retracting fails itself:
  that error is dropped. The log gains an undo row for exactly the actions
  answered `Undone` in all and only the runs in which no retraction fails
  (`UndoRace.RowPersistsIffUndone`).
- **Undo restores the flag** exactly when the action had changed it
  (`UndoStack.UndoRestoresIffFlipped`): archiving an archived message and
  undoing that leaves it not archived.
- **The circuit breaker** is documented to let one call through after its
  cooldown (`crates/lagoon-api/src/ai/gateway.rs:23-24`). The code lets every
  call through from then on, whatever fails, until a success or a reload
  (`Gateway.CallsExactlyAfterCooldown`, and a run with any number of calls in
  `Gateway.CooldownLetsAllThrough`).
- **One backend process** holds exactly when no look at the child fails and
  nobody restarts or shuts down (`Supervisor.AlwaysOneProcessIff`), each with its
  own run: a failed `try_wait` counts as an exit but kills nothing; a restart
  between the start of the process and the storing of its handle finds nothing to
  stop; a shutdown that takes the child of a last handshake lets the run publish
  `failed` before the child is gone.
- **An unframed HTTP body** comes through unchanged exactly when it is complete
  lines of valid UTF-8, none ending in a carriage return, within the line limit
  and at most one byte over the body limit (`HttpReader.UnframedIsKeptIff`);
  otherwise lines are decoded lossily and an unterminated last line is dropped
  (`HttpReader.UnframedExactly`). The one byte over is reached
  (`HttpReader.LimitIsPassed`).

## Model

| member | source | states |
|---|---|---|
| `Calendar.GuardMakesFloor` | crates/lagoon-api/src/timefmt.rs:225-236 | for every dividend and positive divisor, the guarded truncating division is floor division |
| `Calendar.YearOfEraInverts` | crates/lagoon-api/src/timefmt.rs:238-239 | the year-of-era formula recovers the year from every day of every century, four-year cycle and year of an era |
| `Calendar.EraSplit` | crates/lagoon-api/src/timefmt.rs:238-241 | every day of an era falls inside the year the formula names |
| `Calendar.DayRoundTrip` | crates/lagoon-api/src/timefmt.rs:223-250 | every day number, negative too, is a valid date that maps back to it |
| `Calendar.CivilRoundTrip` | crates/lagoon-mail/src/timefmt.rs:17-39 | every valid date, negative years included, survives the trip through its day number |
| `Calendar.NextDayAddsOne` | crates/lagoon-api/src/timefmt.rs:202-231 | the next calendar day, by month lengths and leap years, has the next day number |
| `Calendar.CivilIsCounting` | crates/lagoon-api/src/timefmt.rs:202-250 | the date of day n is the one and only date reached by counting n days from 1970-01-01, forward or back |
| `Calendar.CivilIsMonotone` | crates/lagoon-api/src/timefmt.rs:234-250 | later days are later dates |
| `Calendar.DaysAreMonotone` | crates/lagoon-api/src/timefmt.rs:223-231 | day numbers order valid dates exactly as (year, month, day) does |
| `Timestamps.FractionIsRead` | crates/lagoon-api/src/timefmt.rs:95-149 | a second with any decimal fraction of any length and any zone reads as the second plus the fraction's whole milliseconds, missing places being zeros at its end, less the offset |
| `Timestamps.PadFraction` | crates/lagoon-api/src/timefmt.rs:121-131 | the padding loop yields the three digits that `FractionIsRead` reads so |
| `Timestamps.OnlyRealTimes` | crates/lagoon-api/src/timefmt.rs:183-200 | only real dates and clock times make an instant, which falls on that date at that time |
| `Timestamps.StoredIsShaped` | crates/lagoon-api/src/timefmt.rs:55-84 | whatever reads as a stored timestamp is seven numbers in their places, the last of three digits, naming the instant read |
| `Timestamps.StoredRoundTrip` | crates/lagoon-api/src/timefmt.rs:55-164 | the stored form of an instant reads back as it exactly when its year is not negative |
| `Timestamps.IsoRoundTrip` | crates/lagoon-api/src/timefmt.rs:86-181 | the wire form reads back as the instant floored to the second, exactly when its year is not negative |
| `Timestamps.OffsetRoundTrip` | crates/lagoon-api/src/timefmt.rs:95-149 | a local time with any numeric offset reads as the same instant to the millisecond |
| `Timestamps.StoredOrderExactly` | crates/lagoon-api/src/timefmt.rs:1-10 | for every span of years an instant can have, the text order of all its instants is time order if and only if the span is one of four kinds |
| `Timestamps.StoredOrder` | crates/lagoon-api/src/timefmt.rs:151-164 | for years 0000 to 9999, text order of stored forms is time order, strictly and not |
| `Timestamps.OrderFails` | crates/lagoon-api/src/timefmt.rs:151-164 | at the new years of 10000 and of -1 the later instant sorts before the earlier |
| `UndoExpiry.ExpiredExactlyWhenPast` | crates/lagoon-api/src/http/routes_r5.rs:778-783 | the text comparison in undo answers 410 exactly when the expiry instant is not after now |
| `MailDates.HeaderNamesItsDay` | crates/lagoon-mail/src/timefmt.rs:61-73 | the day-name in the `Date` header is the weekday of the printed date by Zeller's congruence (section 3.3 of RFC 5322), and the printed date and time are the instant |
| `MailDates.HeaderIsReadBack` | crates/lagoon-mail/src/timefmt.rs:61-73 | the header is a day-name with a comma and five words that, joined as an internal date, read as the instant |
| `MailDates.InternalDateRoundTrip` | crates/lagoon-mail/src/timefmt.rs:80-125 | reading inverts the date-time of section 9 of RFC 3501 for every instant, every numeric zone, either day padding and any letter case |
| `SqlSplitter.SplitStatements` | crates/lagoon-api/scripts/gen-migrations.py:52-125 | the four-state loop computes the splitter function |
| `SqlSplitter.PiecesAreCut` | crates/lagoon-api/scripts/gen-migrations.py:67-119 | the lookahead lexer cuts where a one-character reference scanner does |
| `SqlSplitter.CutsExactlyAtTerminators` | crates/lagoon-api/scripts/gen-migrations.py:52-125 | a position is cut if and only if it is a semicolon outside line comments, block comments and quoted strings |
| `SqlSplitter.CutLosesOnlyTerminators` | crates/lagoon-api/scripts/gen-migrations.py:52-125 | the pieces joined with semicolons are the input |
| `SqlSplitter.SplitIsCut` | crates/lagoon-api/scripts/gen-migrations.py:52-125 | the result is the reference pieces, trimmed, without the empty ones |
| `SqlSplitter.StatementIsOneStatement` | crates/lagoon-api/scripts/gen-migrations.py:52-125 | splitting a returned statement returns it alone |
| `SqlSplitter.SplitInvertsRejoin` | crates/lagoon-api/scripts/gen-migrations.py:52-125 | the statements joined with newline, semicolon, newline split into the same list |
| `HttpReader.TlsTransport.ReadLine` | crates/lagoon-mail/src/transport.rs:127-150 | reads up to a line feed, at most the line limit, takes one carriage return off, decodes lossily |
| `HttpReader.ReadHeaders` | crates/lagoon-api/src/ai/http.rs:131-145 | the header loop computes the header function |
| `HttpReader.ReadChunked` | crates/lagoon-api/src/ai/http.rs:178-208 | the chunk loop computes the chunk function and its body never passes 8 MiB on any input |
| `HttpReader.ReadBody` | crates/lagoon-api/src/ai/http.rs:155-176 | counted, chunked or unframed, by the headers in that order |
| `HttpReader.ReadToEnd` | crates/lagoon-api/src/ai/http.rs:210-226 | the unframed loop computes its function |
| `HttpReader.ReadResponse` | crates/lagoon-api/src/ai/http.rs:77-103 | status line, headers, body, in order, each error ending it |
| `HttpReader.ChunkedExactly` | crates/lagoon-api/src/ai/http.rs:178-208 | a body comes back if and only if the wire carries a well-formed chunked message of at most 8 MiB with that body, and the cursor ends right after it |
| `HttpReader.MessageIsRead` | crates/lagoon-api/src/ai/http.rs:178-208 | every well-formed message is read to its exact body |
| `HttpReader.ReadWasMessage` | crates/lagoon-api/src/ai/http.rs:178-208 | whatever is accepted was a well-formed message with that body |
| `HttpReader.SizeLineAnnounces` | crates/lagoon-api/src/ai/http.rs:181-187 | any hex spelling with any extension announces its size |
| `HttpReader.ChunkedBodyIsRead` | crates/lagoon-api/src/ai/http.rs:178-208 | every chunking, extension and trailer choice of section 7.1 of RFC 9112 reads as exactly the body |
| `HttpMessages.StatusIsRead` | crates/lagoon-api/src/ai/http.rs:114-129 | a status line of a version, three digit bytes and any reason reads as the number the digits spell |
| `HttpMessages.FirstDecides` | crates/lagoon-api/src/ai/http.rs:131-153 | the first field whose name spells the wanted one, letter by letter in either case, decides |
| `HttpMessages.ResponseIsRead` | crates/lagoon-api/src/ai/http.rs:77-208 | from its bytes: a response with any valid fields, framed by the first Content-Length's digits or by `chunked` anywhere and in any case in the first Transfer-Encoding, is read to its status and exact body, and nothing past it |
| `HttpMessages.UnframedResponseIsRead` | crates/lagoon-api/src/ai/http.rs:77-226 | a response with neither field is read to the close |
| `HttpMessages.OtherProtocolIsRefused` | crates/lagoon-api/src/ai/http.rs:114-122 | a first line whose first word does not open with `HTTP/` is refused |
| `HttpMessages.ColonIsNeeded` | crates/lagoon-api/src/ai/http.rs:131-145 | a field line without a colon is refused, wherever it comes |
| `HttpMessages.LengthIsHeld` | crates/lagoon-api/src/ai/http.rs:155-168 | a declared length over 8 MiB is refused, and one that the peer does not deliver fails as the connection ended |
| `HttpReader.ToEndIsBounded` | crates/lagoon-api/src/ai/http.rs:210-226 | an unframed body is at most one byte over the limit |
| `HttpReader.UnframedExactly` | crates/lagoon-api/src/ai/http.rs:210-226 | a body comes back if and only if the peer sends lines and a tail within the line limit and closes; it is the lines, decoded lossily, without the tail, at most one byte over the limit |
| `HttpReader.UnframedIsKeptIff` | crates/lagoon-api/src/ai/http.rs:210-226 | an unframed body comes through unchanged if and only if it is complete lines of valid UTF-8 without carriage returns at their ends, at most one byte over the limit |
| `HttpReader.LimitIsPassed` | crates/lagoon-api/src/ai/http.rs:210-226 | some body of one byte over the limit is accepted |
| `Query.PercentEncodeLoop` | shell/src/api.rs:184-195 | the byte loop computes the encoding |
| `Query.EscapesWhatItMust` | shell/src/api.rs:181-195 | letters, digits and four marks are kept, every other byte is written as two upper-case hexadecimal digits |
| `Query.WithQuery` | shell/src/api.rs:199-213 | the pairs are the encoded map, sorted, joined behind the path |
| `Query.RenderingIsUnique` | shell/src/api.rs:197-213 | one map has one rendering, whatever order its pairs come in |
| `Query.DecodeComponent` | crates/lagoon-api/src/http/query.rs:38-75 | the decoding loop computes the decoding, malformed escapes left alone |
| `Query.DecodeInvertsEncode` | crates/lagoon-api/src/http/query.rs:38-75 | an encoded string of any UTF-8 decodes to itself |
| `Query.PlusIsSpace` | crates/lagoon-api/src/http/query.rs:46-50 | a plus between two encoded texts reads as a space |
| `Query.MalformedIsRaw` | crates/lagoon-api/src/http/query.rs:51-66 | a percent sign without two hexadecimal digits leaves the text as it was |
| `Query.ItemsInOrder` | crates/lagoon-api/src/http/query.rs:10-23 | the items of a query are read in their order, a bare name with an empty value, a repeated name each time |
| `Query.LastValueWins` | crates/lagoon-api/src/http/query.rs:25-36 | the value got is the last one given for the name, and none exactly when there is none |
| `Query.QueryRoundTrip` | crates/lagoon-api/src/http/query.rs:11-36 | every key of the map reads back with its value, and any other key as the path's own query had it |
| `Uuid.ParseStrict` | crates/lagoon-api/src/uuid.rs:21-56 | the parsing loop computes the parse: canonical form only |
| `Uuid.ToWireString` | crates/lagoon-api/src/uuid.rs:72-86 | the writing loop computes the wire form |
| `Uuid.WireRoundTrip` | crates/lagoon-api/src/uuid.rs:21-86 | every identifier survives its wire form |
| `Uuid.ParsedIsLowered` | crates/lagoon-api/src/uuid.rs:21-86 | the wire form of what was parsed is its lower case |
| `Uuid.StoredRoundTrip` | crates/lagoon-api/src/uuid.rs:89-97 | the sixteen bytes and every tolerated text form give the identifier back |
| `Uuid.RequestIdIsAccepted` | web/src/core/send.ts:352-366 | for any sixteen random bytes the fallback id parses to them with version and variant set as in section 5.4 of RFC 9562 |
| `MailBackend.Backend.CallRemote` | crates/lagoon-api/src/http/routes_r5.rs:191-209 | which verbs reach the mailbox, and the call on record |
| `MailBackend.Backend.WriteLocal` | crates/lagoon-api/src/http/routes_r5.rs:211-242 | the local flag each verb sets, and the read flag it replaced |
| `MailBackend.Backend.RunMessageAction` | crates/lagoon-api/src/http/routes_r5.rs:270-325 | gate, remote, local, audit, each only after the one before |
| `MailEffects.ActionWrites` | crates/lagoon-api/src/http/routes_r5.rs:211-242 | a request that got past gate, mailbox and local write leaves the flag or row its verb names, and every other flag, pin and row as it was; one that did not leaves all as it was; 200 is answered exactly then, unless the audit row fails |
| `MailEffects.ActionCalls` | crates/lagoon-api/src/http/routes_r5.rs:195-209 | the mailbox sees one call, of this verb for this message, exactly when the request is let through |
| `MailEffects.GateAnswers` | crates/lagoon-api/src/http/routes_r5.rs:135-154 | 404, 409 and 503, and exactly when |
| `MailEffects.MailboxAnswers` | crates/lagoon-api/src/http/routes_r5.rs:257-268 | 401, 410 and 502, and exactly when |
| `MailEffects.ActionStoreAnswers` | crates/lagoon-api/src/http/routes_r5.rs:270-325 | 500 and 200, and exactly when |
| `MailBackend.Backend.RunMarkRead` | crates/lagoon-api/src/http/routes_r5.rs:384-443 | local first, recorded on request, remote as best effort |
| `MailEffects.MarkReadWrites` | crates/lagoon-api/src/http/routes_r5.rs:384-443 | the read flag is set to what was asked, nothing else changes, and an audit row with the replaced flag is left exactly when one is asked for and the message is known |
| `MailBackend.Backend.RunPin` | crates/lagoon-api/src/http/routes_r5.rs:445-484 | local only, always recorded |
| `MailEffects.PinWrites` | crates/lagoon-api/src/http/routes_r5.rs:445-484 | the pin is as asked, nothing else changes, the mailbox is not called |
| `MailBackend.Backend.RunBulk` | crates/lagoon-api/src/http/routes_r5.rs:549-608 | gate once, then item by item; a remote failure is the item's, a store error ends the request |
| `MailEffects.BulkWrites` | crates/lagoon-api/src/http/routes_r5.rs:549-608 | the messages of the ok items are as the verb names, everything else as it was |
| `MailEffects.ItemCodes` | crates/lagoon-api/src/http/routes_r5.rs:566-578 | each error code of an item, and exactly when |
| `MailBackend.Backend.ClaimUndo` | crates/lagoon-api/src/http/routes_r5.rs:768-834 | the claim transaction, with a failure possible at each statement |
| `MailEffects.ClaimRefusals` | crates/lagoon-api/src/http/routes_r5.rs:773-815 | unknown, expired, undone before, not undoable, or claimed: each exactly when |
| `MailBackend.Backend.RunUndo` | crates/lagoon-api/src/http/routes_r5.rs:763-868 | claim, invert remote first, retract on failure |
| `MailEffects.UndoWrites` | crates/lagoon-api/src/http/routes_r5.rs:789-868 | an undo that answers `Undone` leaves the message as its audit row says, and nothing else changed; any other leaves flags, pins and rows alone |
| `MailBackend.Backend.RunUndoBulk` | crates/lagoon-api/src/http/routes_r5.rs:906-958 | the ids one after the other |
| `MailSafety.BulkRefinesSingles` | crates/lagoon-api/src/http/routes_r5.rs:549-608 | a bulk request leaves the flags, remote calls and audit rows of single requests over the items it reached, and an item is ok exactly when its single call answers 200 |
| `MailSafety.RequestKeepsStep` | crates/lagoon-api/src/http/routes_r5.rs:270-325 | whatever fails in a request, a message gets out of step with the mailbox only if that request reported a failure for it |
| `MailSafety.RunKeepsStep` | crates/lagoon-api/src/http/routes_r5.rs:549-608 | over every run with failures at any step, archived and deleted flags agree with the last successful remote verb, except for messages a request failed for |
| `MailSafety.FlagChangeNeedsCall` | crates/lagoon-api/src/http/routes_r5.rs:848-860 | an archived or deleted flag changes only to what a successful remote call for the same message set in the same request |
| `UndoStack.UndoRestoresIffFlipped` | crates/lagoon-api/src/http/routes_r5.rs:789-820 | undoing an action answers `Undone`, makes the inverse remote call, and restores the flags exactly when the action flipped one |
| `UndoStack.UndoIsAStack` | crates/lagoon-api/src/http/routes_r5.rs:763-868 | after any run of actions that flipped their flags, undoing them newest first restores every flag and pin |
| `UndoStack.UndoCallsAreReversedInverses` | crates/lagoon-api/src/http/routes_r5.rs:244-254 | the archive, unarchive, trash and restore calls of the undo are the inverses in reverse order |
| `UndoRace.ClaimIsAllOrNothing` | crates/lagoon-api/src/http/routes_r5.rs:768-834 | a claim is refused without a trace or commits one undo row for an action that had none |
| `UndoRace.RunsKeep` | crates/lagoon-api/src/http/routes_r5.rs:763-868 | over every interleaving: ids in order, at most one undo row per action, each new undo row held by its request and each held row in the log |
| `UndoRace.UndoIsSingleUse` | crates/lagoon-api/src/http/routes_r5.rs:757-868 | `Undone` is answered at most once per action, and only for one not undone before |
| `UndoRace.UndoneAtTheEnd` | crates/lagoon-api/src/http/routes_r5.rs:763-868 | once all requests ended, an action is undone exactly when it was before or one of them kept its row |
| `UndoRace.LogMatchesAnswers` | crates/lagoon-api/src/http/routes_r5.rs:836-868 | at every point of a run the log has gained undo rows for exactly the actions some request works on or has answered `Undone` for, in all and only the runs where no retraction has failed |
| `UndoRace.RowPersistsIffUndone` | crates/lagoon-api/src/http/routes_r5.rs:836-868 | once all requests ended, a new undo row is in the log for exactly the actions answered `Undone`, in all and only the runs where no retraction fails |
| `UndoRace.SequentialIsARun` | crates/lagoon-api/src/http/routes_r5.rs:763-868 | the sequential undo is one of the interleaved runs |
| `UndoRace.AloneChangesOnlyWhenUndone` | crates/lagoon-api/src/http/routes_r5.rs:763-868 | a rejected undo changes nothing at all; a failed one that retracts leaves log and flags as they were |
| `SendClient.Composer.Submit` | web/src/screens/Composer.tsx:144-160 | one submit at a time, with the id the last attempt calls for |
| `SendClient.Composer.Answer` | web/src/screens/Composer.tsx:161-182 | what each answer leaves as the last attempt |
| `SendStore.ClaimIsExclusive` | crates/lagoon-api/src/store/write.rs:455-559 | a claim is granted exactly for a new id or a stale claim, and touches no other id |
| `SendStore.SecondClaimWaits` | crates/lagoon-api/src/store/write.rs:455-559 | of two requests with one id inside the lease only the first is granted |
| `SendStore.AnswersAreReplayed` | crates/lagoon-api/src/store/write.rs:431-443 | what was recorded is what every later request with the id is told |
| `Proxy.Forward` | shell/src/api.rs:255-297 | a POST is sent once; a GET twice exactly after a first attempt that never got through and did not time out |
| `SmtpDelivery.AcceptRecipients` | crates/lagoon-mail/src/smtp/client.rs:192-230 | passes exactly when every recipient is answered without a temporary error and one is accepted; worth a retry exactly when one is answered softly before anything final |
| `SmtpDelivery.RunSession` | crates/lagoon-mail/src/smtp/client.rs:137-184 | the mail is written exactly after every command's expected reply; a retry is allowed exactly when the first thing to go wrong is an invalid sender, a refused connection, a broken reply or a temporary error, before the mail; bad credentials are reported exactly when AUTH was turned down for good |
| `SmtpDelivery.SendRaw` | crates/lagoon-mail/src/smtp/client.rs:107-135 | a second session exactly when the first was worth retrying and never a third, the mail written in at most one, and success exactly when the last one's mail was written and taken |
| `SendChain.PostThroughProxy` | shell/src/api.rs:255-297 | a submit's POST puts exactly one request on its way, or none when the proxy turns it down |
| `SendChain.DeliverOnWire` | crates/lagoon-api/src/http/routes_send.rs:506-515 | the owner's call to the mail server is one protocol step: delivered exactly when the server took the mail, and behind a reported failure only when the verdict was lost |
| `SendProtocol.SentWasDelivered` | web/src/core/send.ts:218-250 | in every run, whatever goes wrong, a composer that heard `sent` has had its mail go out |
| `SendProtocol.RunsSafe` | crates/lagoon-api/src/http/routes_send.rs:418-557 | without the four faults every run keeps: one owner per id that was not killed before sending, failed rows and old ids of a content dead for good |
| `SendProtocol.SentExactlyOnce` | web/src/core/send.ts:270-301 | without the four faults a composer that heard `sent` has had that content go out exactly once |
| `SendProtocol.RefusedStaysUnsent` | web/src/core/send.ts:278-288 | without the four faults a refused mail never goes out under its id, whatever is retried later |
| `SendProtocol.NoWarningMeansSettled` | web/src/screens/Composer.tsx:98-106 | no live warning and a fresh id mean the last mail has not gone out and never will |
| `SendProtocol.RetryRecovers` | crates/lagoon-api/src/store/write.rs:445-453 | from any state whose owners were killed before sending, a retry past the lease can be granted, sent and heard as sent, with none of the faults |
| `SendProtocol.KilledHandlerRecovers` | crates/lagoon-api/src/store/write.rs:445-453 | a whole such run: claim, kill, lease, retry, `sent` |
| `SendProtocol.TakeoverDoubles` | crates/lagoon-api/src/store/write.rs:518-551 | a run that delivers twice by taking over the claim of an owner still sending |
| `SendProtocol.LostAckDoubles` | crates/lagoon-api/src/http/routes_send.rs:506-515 | a run that delivers twice after a lost acknowledgement |
| `SendProtocol.UnrecordedDoubles` | crates/lagoon-api/src/http/routes_send.rs:425-484 | a run that delivers twice after a refusal nothing records |
| `SendProtocol.RevisitDoubles` | web/src/core/send.ts:290-301 | a run that delivers twice by editing away and back |
| `SendProtocol.AtMostOnceIff` | web/src/core/send.ts:4-13 | over every run of composer, channel and server, no content goes out twice exactly when none of the four can happen |
| `Cost.CostMicroUsd` | crates/lagoon-api/src/ai/config.rs:69-77 | the recorded cost is at least the bill, and less than one micro-dollar over it exactly when the bill is above minus one |
| `Cost.BillIsPerKind` | crates/lagoon-api/src/ai/config.rs:69-73 | each price goes with its own count, per thousand, and both add up |
| `Cost.LedgerBracketsBills` | crates/lagoon-api/src/ai/config.rs:65-77 | over any calls the ledger is at least the bills and under them plus one micro-dollar per call |
| `Gateway.Gate.Failure` | crates/lagoon-api/src/ai/gateway.rs:262-295 | the whole degraded state after each kind of failure |
| `Gateway.Gate.Success` | crates/lagoon-api/src/ai/gateway.rs:298-303 | a success clears the degraded state |
| `Gateway.Gate.Reload` | crates/lagoon-api/src/ai/gateway.rs:162-168 | a reload clears the degraded state |
| `Gateway.GateRemembers` | crates/lagoon-api/src/ai/gateway.rs:262-303 | after every run of interleaved calls and reloads: the failure count, the opening time and the credit flag are what the failures since the last success or reload say |
| `Gateway.OpenMeansThree` | crates/lagoon-api/src/ai/gateway.rs:275-285 | an open circuit has seen at least three failures |
| `Gateway.OnlyUnreachableOpens` | crates/lagoon-api/src/ai/gateway.rs:274-284 | only an unreachable provider opens the circuit, at that moment |
| `Gateway.OpeningStays` | crates/lagoon-api/src/ai/gateway.rs:274-303 | until a success or reload the opening time does not move |
| `Gateway.AsksExactly` | crates/lagoon-api/src/ai/gateway.rs:187-221 | after every run: a question reaches the provider exactly when one is configured, the cap is 0 or the ledger below it, and, but for a probe, the failures so far do not keep the circuit open; the first that fails names the refusal |
| `Gateway.UncappedIsNeverSpent` | crates/lagoon-api/src/ai/gateway.rs:42-47 | without a cap no run ever leads to a refusal over money |
| `Gateway.CallsExactlyAfterCooldown` | crates/lagoon-api/src/ai/gateway.rs:216-221 | from the opening until a success or reload, a configured completion with cap 0 or the ledger below it is made exactly when 60 s have passed |
| `Gateway.CooldownLetsAllThrough` | crates/lagoon-api/src/ai/gateway.rs:23-24 | a run: three unreachable answers, a refused completion, and 60 s later any number of completions let through without a success or reload |
| `Gateway.OvershootIsBounded` | crates/lagoon-api/src/ai/gateway.rs:42-47 | with at most k calls open of at most c each, ledger and open costs never exceed cap - 1 + k * c, however they interleave |
| `Gateway.OvershootIsReached` | crates/lagoon-api/src/http/routes_ai.rs:147-156 | for every cap, k and c some run ends exactly at that bound |
| `Supervisor.FlagIsKept` | shell/src/sidecar.rs:380-383 | a call enters the supervisor body only by winning the flag and gives it back only on leaving |
| `Supervisor.StartsAreKept` | shell/src/sidecar.rs:402-454 | starts made and restarts left stay within the budget at every place |
| `Supervisor.AlwaysOrderly` | shell/src/sidecar.rs:379-474 | under every interleaving of supervise, restart and shutdown: one body at most, no run starts the backend more than twice, a ready status has a port |
| `Supervisor.RunsAreCalm` | shell/src/sidecar.rs:333-375 | without failed looks, restarts and shutdowns, the processes alive are at every step the one the body is at |
| `Supervisor.LoadFailureFails` | shell/src/sidecar.rs:385-392 | a context that does not load publishes `failed` without a start |
| `Supervisor.ReadyAtItsPort` | shell/src/sidecar.rs:247-306 | ready at the reported port, or at the picked one for the backend that cannot report |
| `Supervisor.ErrorsDouble` | shell/src/sidecar.rs:356-376 | a failed look leaves two processes alive |
| `Supervisor.RestartDoubles` | shell/src/sidecar.rs:463-474 | a restart before the handle is stored leaves two processes alive |
| `Supervisor.ShutdownFailsAlive` | shell/src/state.rs:282-286 | a shutdown that takes the child of a last handshake leaves `failed` published over a live process |
| `Supervisor.AlwaysOneProcessIff` | shell/src/sidecar.rs:378-459 | at most one process is alive and none once `failed` is published, over every run, exactly when no look fails, nobody restarts and nobody shuts down |
| `Supervisor.State.ReadyEndpoint` | shell/src/state.rs:227-235 | an endpoint exactly while ready and with a token |
| `Supervisor.State.TerminateChild` | shell/src/state.rs:237-270 | the slot is empty; the child exited, was killed after the grace, or a look failed first |

The methods without a row, `SendClient.ReusedExactlyWhenUnclear`,
`SendClient.WarningsAgree` and `SendStore.UnmarkedIsNeverTaken` support the
results above: claiming and recording sends, appending and deleting audit rows,
reading a count of bytes, the checks before a model call, and the child slot are
each proved to do in place what the function of the same step says.

## Left out

- SQLite and the SQL text: each statement or transaction is one atomic step that succeeds or reports an error.
- The provider behind the mail verbs: a call that succeeds or fails; no folder semantics. The IMAP client, MIME and sync.
- Two different verbs racing on one message: the code does not serialise them, so agreement with the mailbox is proved for sequential runs.
- `POST /api/trash/empty`, action listing, request parsing, the audit id in a bulk item's JSON shape.
- A server killed between an undo claim and its end: the claim row then stays, as after a failed retraction.
- Building the mail, the sent copy, and the provider message id's text; a send without a request id takes no claim and is not modelled.
- Closing the composer and opening a new one, which forgets the last attempt; hash collisions in the fingerprint's attachment digest (equal fingerprints count as equal content).
- Request ids are numbers drawn fresh; that random ids do not repeat is assumed.
- Dot-stuffing, address syntax and reply parsing of SMTP: a reply is its code, an address is valid or not.
- Which provider serves a job, the text that marks a rejection as about credit, and prompts; a call is configured or not, a rejection is about credit or not.
- Ledger errors the code only logs, and the change of month.
- Cost.CostMicroUsd: exact reals in place of `f64`, so rounding of the product and non-finite prices are not covered.
- Integer widths: `i64`, `u32` and `usize` overflow, except where a reader checks a range (`ParseU32`, `ParseI64`).
- Timestamps.PadFraction: characters are one byte each, so a cut inside a non-ASCII fraction, which panics, is not modelled.
- Unicode white space and case folding beyond the characters named in `Text.dfy`.
- A response with both a length and a transfer coding is read by its length, as the code does; section 6.3 of RFC 9112 has it the other way round.
- HttpReader: writing the request, TLS, DNS and timeouts; the stream is its bytes and how it ends.
- Supervisor.AlwaysOrderly: process ids are never reused, signals and the pid kept for the signal handler are left out, and the stdout reader is a step that may print any port at any time.
- Key files, backend binaries, the Tauri event emitter, React rendering, copy and CSS.
