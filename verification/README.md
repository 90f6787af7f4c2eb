# Raisin, verified in part

Raisin is an email platform: an API that accepts messages, templates, contacts and broadcasts, workers that send
them, and handlers for what the mail provider and the recipients report back. This project models the parts of it
whose correctness depends on unbounded inputs or unbounded runs, and proves what they are for:

- `Template.dfy` - placeholder rendering by repeated string replacement in a map's arbitrary order is one
  simultaneous substitution on segments; how repeated passes compose.
- `TemplateTurn.dfy` - one key's turn on any text: exactly when it leaves the text alone.
- `TemplateAny.dfy` - exactly when the map's order cannot be seen, over every text and for any values.
- `TemplateOrder.dfy`, `TemplateOpen.dfy` - the same over plain templates, for values that may hold placeholders
  themselves, and what values that leave one open do.
- `Warmup.dfy`, `WarmupLocks.dfy` - the daily allowance of a dedicated-IP pool: stages in order, an arithmetic bound
  on everything granted, which is attained; the same transactions statement by statement under row locks refine the
  one-step transactions and cannot deadlock.
- `Automation.dfy` - the queue-driven step handler against a recursive interpreter, with and without duplicated tasks.
- `Sse.dfy` - one writer of server-sent events and two readers, cut anywhere and chunked anyhow.
- `Base64.dfy`, `UnsubToken.dfy` - the unsubscribe token's round trip, what any text must be to be accepted as one, and the
  choice of the address it may unsubscribe.
- `Consent.dfy` - suppression reasons, opt-outs and audiences over whole runs of SQL statements.
- `Broadcast.dfy` - the broadcast row shared by send, cancel and any number of duplicate handlers.
- `Delivery.dfy` - what each report of the mail provider does to a message and to the suppression list, and a message's
  status as a fold of unordered reports.
- `Mime.dfy` - the recursive MIME walk against one pass over the leaves, and the base64 transfer encoding.
- `Reconnect.dfy` - the stream and the replay together: exactly which events a subscriber loses who breaks off anywhere,
  any number of times, and reconnects.
- `Paging.dfy` - the event replay, which misses nothing, and the email list, which misses exactly the ties it cuts.
- `Tracking.dfy` - the unsubscribe footer, and what the click pass does to one link.
- `Clicks.dfy` - the click pass over a whole body, attribute by attribute, and where the reader of a tracked link lands.
- `Text.dfy` - the string operations of Go's standard library they all use.

Tables are maps inside classes or records. A SQL statement, or a transaction that holds its row locks, is one step;
runs are sequences of steps. Each method that updates state is proved against a function, and the properties are
lemmas about those functions over every input or every run. The clock, the MAC, UUID text, JSON acceptance, the
mailer's answers and the parsed headers of a MIME part are parameters. Strings are ASCII, one character a byte.

## Findings

Places where the code does less than one might read into it, with lemmas that say when it does what is meant and
show an input where it does not:

- The output of `Render` can depend on Go's map order. Over every template text it does not if and only if no key and the
  same key padded by one space on each side have different values, and no value touches another key's placeholder: holds
  it, is part of it, ends as it begins, or begins as it ends (`TemplateAny.AlwaysAlikeIff`). For values without braces the
  second means that no value is part of another key's padded name (`TemplateAny.AlwaysAlikeIffNoPart`); the empty value
  is one in `{{a{{b}}}}` (`TemplateAny.NestedTokenShowsOrder`).
  Over plain templates only - tokens with brace-free names, and text without two opening braces in a row or one at its
  end - less is asked of values of that same form (`TemplateOrder.WellFormedIff`): rendering one key must not change
  another key's value (`TemplateOrder.OrderIndependentIff`). A value that spells another placeholder is the simplest
  failure (`TemplateOrder.BracedValueShowsOrder`); a value that ends in a beginning of another key's placeholder fails by
  itself, as the template's text can complete it (`TemplateOpen.OpenValueShowsOrder`), or another value can
  (`TemplateOrder.JointBracesShowOrder`).
- Reconnecting with the last id read loses events exactly when a connection skips rows that no connection brings: rows
  older than the replay's horizon; once a live event has been read, those past the replay page and those published
  between the replay and the subscription; and rows on the page whose stored form does not pass the filters
  (`Reconnect.ReconnectingLosesNothingIff`, `Reconnect.SkipsExactly`). The last happens to every report of the mail
  provider missed by a subscriber to one message: it is stored without the message's id, under which it was published
  (`Reconnect.StoredFormLoses`). Where both forms pass alike, what is skipped unread is never made good
  (`Reconnect.AlikeIsNotMadeGood`); with nothing stale and no gap it is then the page limit alone that decides
  (`Reconnect.OnePageIff`), and 501 missed events and a live one are a run that loses one (`Reconnect.PageLimitLoses`).
- An address that holds `|` gets a token that never verifies (`UnsubToken.SignedTokenVerifies`).
- A tracked link is unescaped twice on the way to the reader: once with the query and once more by the handler. The
  reader comes to the link that was tracked if and only if it holds no plus and no percent sign, or a percent sign that
  does not begin an escape (`Clicks.ClickArrivesIff`); a plus sign arrives as a blank (`Clicks.PlusIsLost`).
- A report type that the provider's table does not know is taken over in lower case, so a report whose type is `sent`,
  `delivered`, `bounced`, `complained`, `failed` or `suppressed` acts on the message as well (`Delivery.ProposalMeans`). A
  bounce without detail never does, as it names no address (`Delivery.Ends`).
- The buffer readers of the stream never yield an event of a stream whose lines end in CR LF, which section 9.2 of the
  WHATWG HTML Standard allows and the Go reader accepts; the server writes LF only (`Sse.JsMissesCrlf`, `Sse.GoReadsCrlf`).
- The final update of a broadcast has no status guard, so a cancel holds for good exactly when no handler is at work
  on it (`Broadcast.CancelHoldsIff`); a run reaches the other case (`Broadcast.CancelIsOverwritten`).
- The email list drops the rows tied in time with the last row of a page and ordered after it, so it is complete
  exactly when no two rows are tied across a multiple of the page size (`Paging.ListCompleteIff`).
- The order in which delivery reports arrive shows unless they agree (`Delivery.ReportsOrderFreeIff`).
- The click pass replaces the first occurrence of the link's text in the matched attribute, which is the link itself
  exactly when what stands before its quote does not contain that text (`Tracking.RewriteInPlaceIff`); for `href="e"`
  it breaks the attribute's name instead (`Tracking.RewriteBreaksName`).

## Model

| member | source | states |
|---|---|---|
| `Template.Render` | internal/template/service.go:178-185 | walking the map in some order of its keys, the output is the fold of the two replacements per key, and on segment templates it is the simultaneous substitution |
| `Template.ReplaceIsFill` | internal/template/service.go:181-182 | on a template of brace-free literals and tokens, one replacement pass fills exactly the tokens with that name |
| `Template.RenderGivesFirstKey` | internal/template/service.go:178-185 | for any order, each token gets the value of the first key that names it, tightly or padded |
| `Template.RenderIsSubst` | internal/template/service.go:178-185 | on a plain template and without a clashing pair of keys, rendering in any order replaces every matching token at once and leaves the others |
| `TemplateTurn.KeepsIff` | internal/template/service.go:181-182 | for any text and any value, a key's two replacements change nothing if and only if neither of its placeholders occurs, or the key stands for the one that does |
| `TemplateAny.PassesCommute` | internal/template/service.go:181-182 | on any text two replacements of different placeholders may be swapped when neither value touches the other's placeholder |
| `TemplateAny.AlwaysAlikeIff` | internal/template/service.go:178-185 | for any values, every text renders alike in every order if and only if no key clashes with its padded form and no value touches another key's placeholder for which that key does not itself stand |
| `TemplateAny.AlwaysAlikeIffNoPart` | internal/template/service.go:178-185 | for brace-free values: if and only if no keys clash and no value is part of another key's padded name |
| `TemplateAny.NestedTokenShowsOrder` | internal/template/service.go:178-185 | one token inside another, the inner one's value empty: the two orders differ although no plain template tells them apart |
| `TemplateOrder.WellFormedIff` | internal/template/service.go:180-183 | the check on values accepts exactly what is put together from placeholders with brace-free names and text without two opening braces in a row or one at its end |
| `TemplateOrder.RenderIsDone` | internal/template/service.go:178-185 | on a plain template, when no key's turn would change another key's value, each token becomes, in any order, what the first key that names it makes of it |
| `TemplateOrder.OrderIndependentIff` | internal/template/service.go:180 | for such values every plain template renders alike in every order if and only if no key clashes with its padded form and no key's turn would change another key's value |
| `TemplateOrder.OrderIndependentIffNoClash` | internal/template/service.go:180 | for values without a pair of opening braces every plain template renders alike in every order if and only if no key clashes with its padded form |
| `TemplateOrder.ChangedTextShowsOrder` | internal/template/service.go:180-183 | for any values at all, if one key's turn changes what the token of another key became that is no key's padded form, the order shows on a plain template |
| `TemplateOrder.BracedValueShowsOrder` | internal/template/service.go:180-183 | for any two keys, a value that spells the other's placeholder gives different output in the two orders |
| `TemplateOrder.JointBracesShowOrder` | internal/template/service.go:180-183 | for any split of a key's name, two values that together spell its placeholder show the order though neither does alone |
| `TemplateOpen.OpenValueShowsOrder` | internal/template/service.go:180-183 | for any values at all, one that ends in a beginning of another key's placeholder, tight or padded, shows the order on a plain template, unless that key stands for that placeholder; its own key is no key's padded form and does not name the placeholder |
| `TemplateOpen.OpenValueExample` | internal/template/service.go:180-183 | two keys are enough: a value that opens the other's placeholder shows the order though no keys clash and no value spells a placeholder |
| `TemplateOpen.OrderIndependentIffClosed` | internal/template/service.go:180 | for maps with only well-formed values or with one that opens another key's placeholder, every plain template renders alike in every order if and only if all values are well-formed, no key clashes and no key's turn would change another's value |
| `Template.PassesCompose` | internal/email/service.go:155-164 | two passes with different maps are one pass with the earlier map's values winning |
| `Template.ThreePassesAreOne` | internal/jobs/handlers/handlers.go:148-152 | the automation, request and job passes with the same tags are one pass |
| `Warmup.NextWarmupDay` | internal/ippool/service.go:292-301 | the very next stage, with the plan's entry for it, the last entry past the end, 50 without a plan; active exactly past the end |
| `Warmup.PoolTable.Create` | internal/ippool/service.go:94-99 | a new pool warms up at stage 0 with 50 a day, consistent with its plan |
| `Warmup.PoolTable.PausePool` | internal/ippool/service.go:162-170 | pausing changes the status only, whatever it was |
| `Warmup.PoolTable.ResumePool` | internal/ippool/service.go:172-180 | only a paused pool is resumed, to warming |
| `Warmup.PoolTable.AdvanceWarmupIfDue` | internal/ippool/service.go:239-283 | only a warming or active row last reset on an earlier day gets the next stage of its plan, opened today with nothing sent |
| `Warmup.PoolTable.ReserveSend` | internal/ippool/service.go:304-347 | advances when due, then grants one slot exactly when the pool is neither paused nor failed and below its allowance |
| `Warmup.PoolTable.TickAllWarmups` | internal/ippool/service.go:194-224 | every due pool is advanced, no other changes, and the count is the number of due pools |
| `Warmup.StagesInOrder` | internal/ippool/service.go:239-301 | over every run the allowances are the plan's stages in order without a skip, on strictly later days, never exceeded, and active means finished |
| `Warmup.GrantsBounded` | internal/ippool/service.go:304-347 | over every run, after k midnights at most cap(0)+...+cap(k) slots were granted |
| `Warmup.BoundIsAttained` | internal/ippool/service.go:304-347 | for every k some run with k midnights is granted exactly that sum |
| `Warmup.DefaultPlanBound` | internal/ippool/service.go:94-99 | a new pool on the default plan sends at most 22750 messages in its first nine days and 20000 a day after that |
| `Warmup.PausedIsFrozen` | internal/ippool/service.go:254-256 | a paused pool neither grants nor advances until resumed, however many days go by |
| `Warmup.PauseSkipsNothing` | internal/ippool/service.go:162-180 | after a pause of any length the next reset opens the very next stage |
| `WarmupLocks.RunIsExec` | internal/ippool/service.go:240-347 | every interleaving of the statements under the row locks has the rows, clock and grants of some sequence of whole transactions |
| `WarmupLocks.InterleavedGrantsBounded` | internal/ippool/service.go:304-347 | the bound on grants and the cap in force hold for the interleaved machine |
| `WarmupLocks.NoDeadlock` | internal/ippool/service.go:247-263 | who is waited for waits for nobody, and whenever a worker is busy some busy worker can go on |
| `Automation.AutomationStore.Create` | internal/automation/service.go:77-89 | the stored steps have positions 0..n-1 |
| `Automation.AutomationStore.Update` | internal/automation/service.go:290-306 | a given list replaces the steps, again at 0..n-1; without one they stay |
| `Automation.AutomationStore.StartRun` | internal/automation/service.go:204-218 | a new run is at position 0 with one task queued |
| `Automation.AutomationStore.HandleAutomationStep` | internal/jobs/handlers/automation.go:43-191 | one delivered task takes the run one small step |
| `Automation.HandleKeepsAgreement` | internal/jobs/handlers/automation.go:43-191 | done so far followed by what the interpreter does from here stays what the interpreter does in all |
| `Automation.InterpretMeans` | internal/jobs/handlers/automation.go:74-181 | the interpreter's outcome said of the whole list: its effects are, in order, those of the steps before the first that breaks the run or turns the contact away, each spelled out; it waits what those steps ask, 60 seconds where they ask nothing; failed exactly when a reached mail step lacks sender, subject or recipient |
| `Automation.DuplicatesAreHarmless` | internal/jobs/handlers/automation.go:36-66 | with any deliveries, duplicated or failing, positions run 0,1,2,... without gap or repeat, effects are a prefix of the interpreter's, the step rows are its verdicts up to the current position and none beyond, and an ended run did and recorded exactly what it does |
| `Automation.EndedRunIsFixed` | internal/jobs/handlers/automation.go:43-45 | nothing changes once the run is not running |
| `Automation.FailingSendBlocks` | internal/jobs/handlers/automation.go:118-124 | while the send keeps failing the run stays at its position and nothing gets through |
| `Automation.AutomationStore.Drain` | internal/jobs/handlers/automation.go:182-191 | with sends succeeding the queue runs dry within n+1 tasks, with the interpreter's emails, segment inserts, total wait, status and step rows |
| `Automation.FilterMatches` | internal/automation/service.go:224-243 | true exactly when every filter key has the same text in the context |
| `Automation.TeamAutomations.Trigger` | internal/automation/service.go:173-221 | adds a new run at position 0 with one task queued for each enabled automation of the type whose filter matches, in order, and no other |
| `Sse.StreamEmailEvents` | internal/httpapi/events_stream.go:69-130 | the response is the frames of the pings and the events that pass the filters, in order |
| `Sse.ReadSSE` | packages/sdk-go/events_stream.go:96-137 | the line reader's output as a function of the text |
| `Sse.ParseSSEData` | packages/sdk-js/src/index.ts:356-370 | the event of one frame, if it has data and the data parses |
| `Sse.FramesAppend` | packages/sdk-js/src/index.ts:345-352 | more text never changes the frames already cut; only the tail is read again |
| `Sse.StreamLoop` | packages/sdk-js/src/index.ts:339-352 | for any chunking, the events and the unfinished tail are those of the whole text cut at blank lines |
| `Sse.JsReadsFrame` | apps/console/src/lib/events-stream.ts:56-85 | the buffer reader takes exactly one event from an event frame, none from a ping, and goes on after it |
| `Sse.GoReadsFrame` | packages/sdk-go/events_stream.go:117-131 | so does the line reader |
| `Sse.CutStream` | packages/sdk-go/events_stream.go:117-137 | cut at any character, both readers have a prefix of the bodies, the buffer reader exactly the complete frames, the line reader at most one more |
| `Sse.WholeStream` | internal/httpapi/events_stream.go:77 | read to the end, both readers return exactly the bodies in order |
| `Sse.SubscriberGetsSelection` | internal/httpapi/events_stream.go:69-130 | a subscriber receives exactly the events it asked for by either reader |
| `Sse.SelectedAre` | internal/events/replay.go:55-76 | what goes out is, in order, every ping and every event whose type is asked for, if any are, and whose message is |
| `Sse.AnyFrameReads` | packages/sdk-js/src/index.ts:356-370 | of any frame of ordinary lines, comments and several data lines included, both readers put the data together line by line and yield it if it parses |
| `Sse.GoReadsCrlf` | packages/sdk-go/events_stream.go:113-130 | the line reader yields the same from lines that end in CR LF |
| `Sse.JsMissesCrlf` | packages/sdk-js/src/index.ts:347-352 | the buffer reader yields nothing from them |
| `Reconnect.ServeStream` | internal/httpapi/events_stream.go:84-128 | the response on a reconnect is the frames of one replay page, as stored, and then of the live loop, as published, each filtered in that form |
| `Reconnect.TickItemsAre` | internal/httpapi/events_stream.go:101-128 | in the live loop a heartbeat is a ping, and the k-th row that comes is the k-th published after the subscription, in its published form |
| `Reconnect.PageIs` | internal/events/replay.go:28-51 | the replay page is the stretch of the log from the first row within the horizon, up to 500 rows or what was logged |
| `Reconnect.ReadsFirstIds` | packages/sdk-go/events_stream.go:96-137 | cut at any character, either reader has the bodies of the first of the rows written, in the form written, in order; uncut, of all |
| `Reconnect.SkipsExactly` | internal/httpapi/events_stream.go:69-104 | the rows asked for that one connection passes over are exactly the stale ones, once anything is read; those between the page and the subscription, once a live row is read; and those on the page whose stored form does not pass, unless read live, once a later row is read |
| `Reconnect.ReconnectingLosesNothingIff` | packages/sdk-js/src/index.ts:311-325 | over any number of connections broken anywhere, what is read are the bodies of rows as they were written, and no row before a read one is missing if and only if every row that a connection skips is read on another |
| `Reconnect.AlikeSkips` | internal/events/replay.go:56-76 | if both forms of every row pass the filters alike, only stale rows and rows between page and subscription are skipped, all before the row read last |
| `Reconnect.AlikeIsNotMadeGood` | internal/events/replay.go:32-34 | then every skipped row is read somewhere if and only if each connection skips only rows read before it |
| `Reconnect.StoredFormLoses` | internal/events/events.go:104-159 | one report missed, well within a page, and one published live: if the stored form does not pass, only the second is written and no later replay returns the first |
| `Reconnect.LostForGood` | internal/events/replay.go:32-34 | a row passed over is in no later replay from a later row |
| `Reconnect.NothingTwice` | internal/httpapi/events_stream.go:84-104 | no row is read twice when what was logged before each replay was published before the subscription |
| `Reconnect.OnePageIff` | internal/events/replay.go:35 | without gap and staleness, and with everything passing in both forms, a reconnect passes nothing over if and only if at most 500 rows were missed or nothing is published after |
| `Reconnect.PageLimitLoses` | internal/events/replay.go:35 | 501 missed events and a live one: the reader gets 500 of them and the live one |
| `Base64.RoundTrip` | internal/unsubtoken/token.go:32-45 | every byte string comes back from its encoding, padded or not |
| `Base64.DigitIsInTable` | internal/unsubtoken/token.go:32 | the digits are those of the two alphabets of RFC 4648 |
| `Base64.QuadIsNumber` | internal/unsubtoken/token.go:32 | three bytes and their four digits are the same 24-bit number |
| `Base64.DecodesIff` | internal/inbound/mime.go:120-125 | a text decodes if and only if it has only digits, but for the padding its length calls for |
| `Base64.DecodedFromEncoding` | internal/inbound/mime.go:120-125 | what decodes to some bytes is their encoding, up to the spare bits of the last digit |
| `UnsubToken.ParseFormat` | internal/unsubtoken/token.go:28-59 | every 64-bit number comes back from its decimal text, which holds no separator |
| `UnsubToken.ParsesIff` | internal/unsubtoken/token.go:59 | a text parses to a number if and only if it is its digits, after any zeros and perhaps a sign, within 64 bits |
| `UnsubToken.NormalizeIsIdempotent` | internal/unsubtoken/token.go:72-80 | normalizing twice is normalizing once, whatever brackets the input holds |
| `UnsubToken.NormalizedIsClean` | internal/unsubtoken/token.go:72-80 | the result is trimmed and lower-case |
| `UnsubToken.NormalizeMeans` | internal/unsubtoken/token.go:72-80 | it is the text between the first opening bracket and the first closing one, if that comes later, or else all of it, lower-cased and trimmed |
| `UnsubToken.BracketIsTaken` | internal/jobs/handlers/handlers.go:651-659 | of a name and an address in brackets, only the address counts, whatever follows |
| `UnsubToken.SignedTokenVerifies` | internal/unsubtoken/token.go:15-70 | a signed token verifies to the normal form exactly until expiry, 90 days on unless another time is asked for, and if the address has no separator |
| `UnsubToken.TokenIsForOneMessage` | internal/unsubtoken/token.go:51-54 | a token never verifies for another message |
| `UnsubToken.AcceptedIff` | internal/unsubtoken/token.go:32-70 | any text at all gives an address if and only if it is a payload's encoding and that payload's MAC, the payload names this message and, up to case and blanks, that address, and its time has not passed |
| `UnsubToken.SignatureIsNotTransferable` | internal/unsubtoken/token.go:63-68 | if no two payloads share a MAC, a text that ends in the MAC of a signed token is accepted only for the message, the address and the time that were signed |
| `UnsubToken.ChosenIff` | internal/jobs/handlers/handlers.go:682-702 | an address is chosen if and only if it is a recipient's and either named or the only one there is |
| `UnsubToken.ResolveUnsubTargets` | internal/jobs/handlers/handlers.go:682-702 | a named address must be among the recipients; an unnamed one needs a single recipient |
| `UnsubToken.ResolveUnsubRequest` | internal/jobs/handlers/handlers.go:662-679 | a request with a token stands or falls with it: no target unless its second part is the MAC of what its first encodes, and then at most the address it grants; the address counts only without a token; of each the form's value counts only when the query has none |
| `UnsubToken.AtMostOneRecipient` | internal/jobs/handlers/handlers.go:681-702 | at most one address, and only one the message was sent to |
| `UnsubToken.TokenReachesItsRecipient` | internal/jobs/handlers/handlers.go:136-146 | from a recipient through the mailed token back to that recipient and nobody else |
| `Consent.ConsentStore.Add` | internal/suppression/service.go:25-48 | blank addresses are refused; otherwise that address has the reason given, or `manual`, unless a hard one stood there and the new one is none, and nothing else is different |
| `Consent.ConsentStore.AddBatch` | internal/suppression/service.go:50-61 | more than 100 is refused untouched; otherwise exactly the non-blank addresses get the reason, by the same rule, and are counted |
| `Consent.ConsentStore.Remove` | internal/suppression/service.go:96-116 | the address has no entry afterwards and every other entry, contact and topic row is as before; a send to it is refused only if its contact opted out |
| `Consent.ConsentStore.CreateContact` | internal/audience/service.go:49-73 | one contact per address; an existing one keeps its flag |
| `Consent.ConsentStore.UpdateContact` | internal/audience/service.go:131-150 | opting out sets the flag and suppresses; resubscribing clears the flag and lifts only an opt-out entry; a contact without an address only gets its flag |
| `Consent.ConsentStore.DeleteContact` | internal/audience/service.go:155-164 | the contact and its topic rows are gone, every other row is as before, and only a suppression still refuses a send to its address |
| `Consent.ConsentStore.ListContactTopics` | internal/audience/service.go:347-378 | each topic's effective standing, which for a mailable contact is membership in that topic's audience |
| `Consent.ConsentStore.SetTopicSubscription` | internal/audience/service.go:321-344 | for a contact and a topic of the team, and then the contact's address is in that topic's audience exactly when subscribed and not blocked; every other standing is as before |
| `Consent.ConsentStore.HandleUnsubscribe` | internal/jobs/handlers/handlers.go:618-641 | for any targets: with a topic, only the topic rows of the targets' contacts are different, and say no; without one, exactly the targets are suppressed, a hard reason kept, and exactly their contacts flagged |
| `Consent.LeftTopicAudience` | internal/jobs/handlers/handlers.go:391-411 | after the first, that topic's audience loses exactly the targets, and no other audience and no send check is different |
| `Consent.OptedOutAudience` | internal/email/service.go:98-118 | after the second, every audience loses exactly the targets, and exactly they are refused that were not |
| `Consent.OneClickOptsOut` | internal/jobs/handlers/handlers.go:628-641 | a global one-click leaves the address suppressed and its contact flagged |
| `Consent.SendCheck` | internal/email/service.go:98-118 | refused exactly when some recipient is suppressed or its contact opted out |
| `Consent.BlockedIsInNoAudience` | internal/audience/service.go:391-411 | what a send would refuse is in no audience, with or without topic and segment |
| `Consent.InAudienceIff` | internal/audience/service.go:391-411 | a contact's address is in an audience if and only if no send to it is refused, its topic row, or else the topic's default, says yes, and it is in the segment |
| `Consent.SegmentsAddUp` | internal/jobs/handlers/handlers.go:401-411 | two segments together reach what either does, all contacts reach everybody, none nobody |
| `Consent.HardReasonStays` | internal/suppression/service.go:34-46 | over every run a bounce or complaint stays one of the two until removed by hand |
| `Consent.SuppressionStays` | internal/audience/service.go:146-148 | any suppression stays until removed by hand or lifted by a resubscribe |
| `Consent.OptOutStays` | internal/audience/service.go:131-150 | an address that opted out with a contact stays refused and out of every audience until a resubscribe, or both removal and deletion |
| `Consent.BothUndoingsReopen` | internal/audience/service.go:49-64 | removing, deleting and creating anew does reopen it |
| `Consent.LeavingATopic` | internal/jobs/handlers/handlers.go:391-411 | leaving a topic changes that topic's audience by that address and nothing else |
| `Broadcast.BroadcastStore.Send` | internal/broadcast/service.go:157-209 | allowed from draft, queued and scheduled; then scheduled when a time asked for or stored is still to come, and otherwise queued |
| `Broadcast.BroadcastStore.Cancel` | internal/broadcast/service.go:211-223 | allowed from draft, queued, scheduled and sending; only the status changes |
| `Broadcast.BroadcastStore.HandleBroadcastSend` | internal/jobs/handlers/handlers.go:268-374 | an undisturbed handler creates one email per acceptance and writes matching counts and outcome |
| `Broadcast.HandlerRun` | internal/jobs/handlers/handlers.go:268-374 | that is what one handler of the interleaved machine does by itself |
| `Broadcast.CountsAlwaysMatch` | internal/jobs/handlers/handlers.go:359-389 | over every run counts match the status, each finalize wrote as many results as its audience, and without a claim there are no emails |
| `Broadcast.FinalStays` | internal/jobs/handlers/handlers.go:268-280 | once sent, partial or failed, always one of the three |
| `Broadcast.RowShowsLastFinal` | internal/jobs/handlers/handlers.go:359-371 | the row shows what the last finalize counted, and is final only after one |
| `Broadcast.CancelBeforeClaim` | internal/broadcast/service.go:211-217 | canceled before the first claim, no email is ever created |
| `Broadcast.CancelHoldsIff` | internal/jobs/handlers/handlers.go:361-371 | a cancel holds for good exactly when no handler is in progress |
| `Broadcast.CancelIsOverwritten` | internal/jobs/handlers/handlers.go:361-371 | canceled after a claim, a broadcast goes out and its row says sent |
| `Delivery.FinalStatus` | internal/events/events.go:233-251 | the last terminal candidate, else a terminal start, else the last other candidate |
| `Delivery.OrderFreeIff` | internal/events/events.go:243-251 | all orders of the same candidates agree exactly when they agree among themselves, terminal ones first |
| `Delivery.ReportsOrderFreeIff` | internal/events/events.go:110-131 | all orders of the same reports leave the same message exactly under that condition on what they propose |
| `Delivery.NormalizeEmails` | internal/events/events.go:196-211 | trimmed, lower-cased, no blanks or repeats, in order of appearance |
| `Delivery.CleanedHolds` | internal/events/events.go:196-211 | the result holds exactly the non-blank normal forms, each once |
| `Delivery.RecipientsCoverAll` | internal/events/events.go:215-231 | both lists known, and every destination affected |
| `Delivery.EventStore.HandleSES` | internal/events/events.go:77-142 | one message's status becomes what the report leaves, said by its type and the addresses it names; the suppression list grows by exactly the addresses of a complaint or a permanent bounce |
| `Delivery.ProposalMeans` | internal/events/events.go:306-347 | by the type in lower case, the provider's or the system's own: a reject fails the message, a suppression suppresses it, a permanent bounce or a complaint ends it exactly when it names every known destination, a send or a delivery moves it on, and nothing else proposes anything |
| `Delivery.ReportLeaves` | internal/events/events.go:110-131 | an ending report sets the status whatever it was, a send or a delivery unless the message is over, any other leaves it |
| `Delivery.ReportSuppresses` | internal/events/events.go:132-142 | whatever it does to the status, a report suppresses exactly the addresses it names in a complaint or a permanent bounce, with that reason, and changes no other entry |
| `Delivery.HistoryMeans` | internal/events/events.go:233-251 | over every sequence the last ending report decides; without one, a message that was over stays as it was, and else the last send or delivery decides |
| `Delivery.EndedByReport` | internal/events/events.go:233-251 | an open message fails only by a reject, and is bounced or complained only by a report that names every known destination |
| `Delivery.ReportSuppressesDestinations` | internal/events/events.go:90-142 | a report that sets bounced or complained adds exactly the reported addresses, every destination among them, and until its removal a later send is refused whose check looks some address up as one of them |
| `Delivery.PartialReportKeepsStatus` | internal/events/events.go:110-128 | a report that leaves out a destination never changes the status |
| `Delivery.StatusIsFold` | internal/events/events.go:110-131 | the status after any sequence of reports is the fold of what each proposes on its own |
| `Mime.DecodeTransfer` | internal/inbound/mime.go:111-129 | blanks dropped, then decoded, or the data as it came when that fails |
| `Mime.DecodesScattered` | internal/inbound/mime.go:111-129 | however blanks are scattered in the padded encoding, the bytes come back |
| `Mime.ReadLeaf` | internal/inbound/mime.go:66-108 | a leaf shows its decoded content in the one role its headers give it |
| `Mime.LeafHasItsRole` | internal/inbound/mime.go:85-108 | the two tests for an attachment, before the types are told apart and after, come to one: marked as one, or named and neither HTML nor plain text; the rest is HTML exactly when its type is |
| `Mime.RoleMeans` | internal/inbound/mime.go:85-108 | an attachment has a name and a type; an unmarked text/html part is HTML, an unmarked text/plain part is text |
| `Mime.ContentMeans` | internal/inbound/mime.go:66-129 | the content is the body as it is, decoded if it is declared and formed as base64, and of more than 25 megabytes only the beginning |
| `Mime.WalkPart` | internal/inbound/mime.go:34-64 | for every tree: the decoded content of the first leaf in document order that is HTML and not empty, the same for text, and all attachments |
| `Mime.PassTakesFirst` | internal/inbound/mime.go:55-60 | the decoded contents of the first leaves that are HTML, or text, and not empty |
| `Mime.PassKeepsAttachments` | internal/inbound/mime.go:61 | every leaf that is an attachment, with its name, type and content, in document order |
| `Mime.LeavesAreLeaves` | internal/inbound/mime.go:44-64 | flattening leaves no multipart part, and a part that is not multipart is its own only leaf |
| `Mime.LeavesInDocumentOrder` | internal/inbound/mime.go:44-64 | the flattened leaves are all the leaves of the tree, one after the other as the document has them |
| `Paging.ReplayAll` | internal/events/replay.go:14-52 | chaining pages ends with exactly the rows after the last one seen and within the horizon, in order, ties included; an unknown id gets none |
| `Paging.NewerContinues` | internal/events/replay.go:28-36 | from one of the rows to come, what comes after it is the rest |
| `Paging.ListAll` | internal/email/service.go:328-366 | chaining pages shows the rows at the kept positions, which are all rows if and only if no two are tied across a multiple of the page size, 20 unless 1 to 100 is asked for |
| `Paging.ListPageIs` | internal/email/service.go:328-364 | a page is the first so many rows older than the cursor, and names the time of its last when there are more |
| `Paging.PagesShow` | internal/email/service.go:337-364 | each row at most once, omitting exactly those tied with, and after, a page's last row |
| `Paging.ListCompleteIff` | internal/email/service.go:337-364 | the list is complete exactly when no two rows are tied across a multiple of the page size |
| `Tracking.AppendIsIdempotent` | internal/tracking/unsub_footer.go:10-32 | appending twice is appending once |
| `Tracking.FooterCutsOut` | internal/tracking/unsub_footer.go:15-24 | a body without an unsubscribe link gets the footer as one piece, whose cutting out gives it back; any other stays |
| `Tracking.TextKeepsBody` | internal/tracking/unsub_footer.go:25-31 | a text without the link loses its trailing newlines only and ends with the link; one with it stays; without a text, a reader of HTML gets the link alone |
| `Tracking.PlaceIsBeforeBody` | internal/tracking/unsub_footer.go:19-23 | the footer goes before the last closing body tag, in any case of letters, or at the end |
| `Tracking.EscapeRoundTrip` | internal/tracking/unsub_footer.go:17 | the footer's link, unescaped by its reader, is the URL |
| `Tracking.RewriteInPlaceIff` | internal/tracking/tracking.go:27-35 | a link is replaced in place exactly when what stands before its quote does not contain its text |
| `Tracking.RewriteBreaksName` | internal/tracking/tracking.go:27-35 | for the link `e` the attribute's name is broken and the link stays |
| `Tracking.ClickPassKeepsUnsubscribe` | internal/tracking/tracking.go:21-36 | on a body with its footer, whatever comes before it, the click pass leaves the unsubscribe link as it is |
| `Clicks.MatchIff` | internal/tracking/tracking.go:12 | the pattern matches at the start of a text if and only if an `href` in any case of letters begins there, with blanks around its equals sign, two quotes and a link without quotes between them |
| `Clicks.PassEditsPieces` | internal/tracking/tracking.go:21-36 | however a text is cut into attributes and stretches in which none begins, the pass edits each attribute on its own and leaves the rest: exempt links stay, another is replaced by its tracked form, or an earlier copy of its text in the attribute is |
| `Clicks.EveryTextIsCut` | internal/tracking/tracking.go:21-36 | every text can be cut so |
| `Clicks.ExemptIff` | internal/tracking/tracking.go:27-33 | exempt are mail addresses, places on the page, placeholders, and whatever holds `/unsubscribe/` in any case of letters |
| `Clicks.InjectMeans` | internal/tracking/tracking.go:15-47 | with clicks every attribute is edited towards the base without its last slashes, with opens the pixel goes in before the last closing body tag |
| `Clicks.UnescapeEscaped` | internal/tracking/tracking.go:34 | a link comes back from its escaped form |
| `Clicks.ClickArrivesIff` | internal/jobs/handlers/handlers.go:548-566 | following a tracked link leads to the link if and only if it holds no plus and no percent sign, or a malformed escape |
| `Clicks.PlusIsLost` | internal/jobs/handlers/handlers.go:553-556 | a plus sign in the link arrives as a blank |

## Left out

- HTTP routing, authentication, Stripe, SES and SNS calls, storage, the SMTP server, Redis and the queue's own
  internals: I/O and foreign calls.
- JSON, HMAC, UUID and `mail.ParseAddress`: parameters. JSON is a predicate that accepts no proper prefix of a body it
  accepts; a body is the text of an event, standing for the value.
- Non-ASCII text: Unicode case folding, Unicode white space, and UTF-8 split across chunks.
- Billing, OAuth, team roles, invites, domain claims, metrics and property keys: settled by one branch or one guard.
- Sse.ReadSSE: does not model the scanner's limit of one megabyte a line, nor read errors.
- Sse.StreamEmailEvents: takes the items as given (`Reconnect` has the replay and the gap before the subscription), and
  the types asked for as a set; the per-team stream limit is left out.
- Warmup.PoolTable.ReserveSend: runs its two transactions back to back; `Warmup.Exec` and `WarmupLocks` let others come
  between. The allowance is per reset, not per UTC day, for the same reason. A pool without a schedule row is not modelled.
- WarmupLocks.RunIsExec: one pool; a transaction reads one clock, so `time.Now()` and the database's `now()` fall on one day.
- Automation.AutomationStore.HandleAutomationStep: the contact and the steps do not change during a run, the handler is
  one atomic step, rendered text is a parameter, and the run of one automation is modelled at a time.
- Automation.AutomationStore.Drain: a send that fails is retried without limit; the queue's five attempts are not counted.
- UnsubToken.SignedTokenVerifies: addresses are ASCII and the expiry fits in 64 bits.
- UnsubToken.ResolveUnsubRequest: takes the values of the query and the form, which the server has unescaped.
- Consent.ConsentStore.Remove: removal by row id is removal by that row's address. Names and properties of contacts are left out.
- Consent.SendCheck: billing, domain, quota and idempotency checks of a send come before or after it and are left out.
- Delivery.EventStore.HandleSES: the report is parsed already; the status is read and written in one step; interleaved handlers do not keep terminal
  statuses. Webhooks, live publishing and automations triggered by an event are left out.
- Mime.WalkPart: a part already carries its subparts as the multipart reader delivers them; the fallback for messages
  with no parts at all is not modelled.
- TemplateAny.AlwaysAlikeIff: keys hold no braces.
- TemplateOrder.OrderIndependentIff: over plain templates alone, a value that is neither well-formed nor ends in a
  beginning of another key's placeholder is covered by `TemplateOrder.ChangedTextShowsOrder` only.
- Reconnect.ReconnectingLosesNothingIff: rows are logged, become visible and are published in one order; a row published
  after a subscription is within the horizon and later than the row read last; the session starts from a known id.
- Paging.ReplayAll: the log and the one-hour horizon are fixed while pages are read.
- Paging.ListAll: ties are in a fixed order, and the cursor text keeps the whole time.
- Clicks.ClickArrivesIff: starts from the attribute's text; what a mail program makes of entities in
  it, and a browser of a relative link, is left out.
- Clicks.InjectMeans: the message's id and the base are any texts.
