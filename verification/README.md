# Verification of rastrillo's protocols and round trips

A Dafny model of the parts of rastrillo whose correctness depends on every
interleaving, every `int64` or every string: the change stream (`live`), money
printing and reading (`currency`, `money`, `form`), the records kept without a
database (`auth`), the mergeable event log (`eventlog`), guarded answers
(`api`), shutdown (`background`) and filled routes (`action`).

`dafny verify dfyconfig.toml` checks everything.

## How it is built

Code that changes objects step by step is modelled as classes and loops, each
method proved against a specification function of the old state; what the
package promises is then proved of those functions. Concurrency is modelled as
a state machine over single critical sections or single store operations: a
`Step` datatype, a total `Apply` (a step that is not enabled changes nothing)
and a `Run` over any sequence of steps, so a theorem about `Run` covers every
interleaving, failure and restart.

| files | package | what is at stake |
|---|---|---|
| `LiveWire`, `LiveHub`, `LiveProtocol`, `LiveArrival`, `LiveAllowed`, `LiveResume`, `LiveClient`, `LivePending`, `LiveSchedule` | `live` | no page misses an announced write, and each can be brought to it; a stream resumes exactly and tells nothing twice; a bounded schedule keeps the soonest times |
| `Digits`, `Text`, `Money`, `CurrencyLocale`, `CurrencyPrinted`, `CurrencyParse`, `CurrencyStrict`, `CurrencyStrictSigns`, `CurrencyRoundTrip`, `CurrencyWitness` | `currency`, `money` | print and parse undo each other over all of `int64`; exactly which text the strict parser takes, and as what; rescaling is exact |
| `CurrencyReadings`, `CurrencyTokens`, `CurrencySigns`, `CurrencyNegation`, `CurrencyDressed`, `CurrencyAmbiguity`, `CurrencyVerdict`, `CurrencyAnswers`, `CurrencyChoices`, `CurrencyNormalize`, `MoneyField`, `MoneyFieldShipped` | `currency`, `form` | a typed amount is never guessed or rounded; what an ambiguity offers is itself unambiguous; an untouched form keeps the amount |
| `AuthLinks`, `AuthLinksOnce` | `auth` | a link is redeemed at most once, and the exact bound on a call's length that takes |
| `AuthUsers`, `AuthUsersLaws`, `AuthUsersAddresses`, `AuthUsersAlone`, `AuthUsersCalls` | `auth` | one address, one user; no epoch bump lost; addresses are those signed in with, and blind reads hide them |
| `ByteText`, `PrefixRange`, `EventLog`, `EventLogLaws`, `EventLogIngest`, `EventLogReplicas`, `EventLogPrefix` | `eventlog` | appends land last, replicas converge, the byte range is the prefix |
| `Emission`, `EmissionTrace`, `EmissionChecks` | `api` | nothing of an answer goes out but behind a fresh check |
| `Background` | `background` | once Stop returns nothing runs or starts |
| `ActionPath`, `ActionPathFill` | `action` | filling a route can be undone |

## Where the code and its promises part

Each of these is a lemma with the input or the run that shows it, beside the
exact condition under which the promise holds.

- An append lands last only while the stream's highest lamport is below the
  largest `int64`; at that value the stamp wraps and the append is read before
  an event it follows (`EventLogLaws.LandsLastExactlyWhen`). Ingest accepts any
  lamport, so one foreign event is enough to get there.
- Ingest does not compare actors, so two logs that meet two events differing
  only in the actor in different orders keep different tables
  (`EventLogIngest.ActorsMayDiffer`). Events it finds no fault with make one
  table in every order, and in every batching and repetition, exactly when
  those at one new position name one actor (`ConvergesExactlyWhen`). Logs whose
  events agree in the compared fields and no more still reach the same
  positions and histories that differ in actors at most (`ConvergeButActors`),
  and no two replicas with writers of their own can get that far
  (`EventLogReplicas.NeverDiverges`).
- `EventsByPrefix` says its prefix matches literally. Its pattern escapes
  LIKE's metacharacters but not LIKE's folding of ASCII case, so "A/1" is
  returned for "a/" (`PrefixRange.LikeIsNotTheRange`). It matches literally
  exactly when no ASCII letter is in the prefix (`LikeIsLiteralExactlyWhen`).
- `EventsByPrefix` says its list is in the total order of `Events`. Across
  streams the four fields do not always tell two events apart
  (`EventLog.TiesExactlyWhen`): the list is determined exactly when no two
  events of different streams share all four, and each stream's own part of it
  is what `Events` reads in any case (`EventLogPrefix.DeterminedExactlyWhen`,
  `EachStreamAsRead`).
- `NotifyAt` takes a pair to be waiting already when one with its topic has
  its `UnixNano`, an `int64` that wraps (Go calls it undefined) outside 1678 to
  2262, while the heap compares whole times. A time 2^64 nanoseconds further
  off hides a sooner one, which is lost with room to spare
  (`LivePending.FarTimeHidesSooner`). Each addition keeps its promise exactly
  when no pair of another time has the new pair's key (`AddsExactlyWhenClear`),
  as none has while times can be held in an `int64` of nanoseconds
  (`RepresentableIsClear`).
- `For` accepts a path with two parameters side by side, and then one URL can
  stand for different values, as on "/{a}{b}"
  (`ActionPathFill.SideBySideCollide`). Where parameters have no patterns, its
  URLs tell values apart exactly when no parameter directly follows another
  (`InjectiveExactlyWhen`).
- A link is redeemed at most once exactly when no call may last as long as 24
  hours less the link's lifetime plus one second; at that length the sweeper
  can delete the marker while a call sleeps (`AuthLinksOnce.OnceExactlyWhen`).
- A timer whose own Stop has taken it out of the group's map is the one kind
  that can stay armed past the group's Stop; its function still never runs
  (`Background.OnlyDroppedStayArmed`, `DroppedTimerOutlivesStop`). Every armed
  timer is in the map exactly while none is between those two steps
  (`HeldExactlyWhen`).
- A refusal for precision names the currency's places exactly where those are
  0, 2 or 3; for any other number it says 2
  (`MoneyFieldShipped.PlacesToldExactlyWhen`). The code knows, and ships no such
  currency.
- The least `int64` divided by ten truncates in `Rescale`'s guard, which still
  refuses nothing that fits (`Money.Rescale`).

## Model

| member | source | states |
|---|---|---|
| LiveWire.CheckName | live/live.go:342-353 | the index loop accepts exactly the names ^[a-z][a-z0-9-]{0,31}$ describes |
| LiveWire.CheckKey | live/live.go:356-367 | the index loop accepts exactly the keys ^[A-Za-z0-9_-]{1,64}$ describes |
| LiveWire.TokenRoundTrip | live/live.go:321-339 | parsing a token gives back its topic and version, for every valid topic and every uint64 |
| LiveWire.TokensExactlyWhen | live/live.go:321-339 | a token is read, and as which topic and version, if and only if it is a topic, an at sign and digits that write a uint64 |
| LiveWire.TopicsExactlyWhen | live/live.go:309-318 | a topic is a name, or a name, a slash and a key, and nothing else |
| LiveWire.WatchesExactlyWhen | live/stream.go:199-222 | a list of 1 to 64 tokens, and no other, is taken; each topic named is watched once, from the lowest version it is named with, and nothing else is |
| LiveWire.ParseFromSound | live/stream.go:199-222 | the watches parsed from a URL are distinct valid topics, each as stale as the URL's boot says |
| LiveWire.ParseFromOwes | live/stream.go:199-222 | every token of the URL has a watch no newer than it asked, so a repeated topic keeps the older version |
| LiveWire.IdFields | live/stream.go:157-182 | an event ID splits back into the boot and the tokens of exactly the watches that are not stale |
| LiveWire.ResumeRecovers | live/stream.go:227-245 | resuming on an event's ID under its boot turns the URL's watches into exactly the watches it was written from |
| LiveWire.ResumeIgnores | live/stream.go:227-245 | an ID of another boot, or an empty one, leaves the URL's own watches |
| LiveWire.PassIsExact | live/stream.go:157-182 | a pass writes one event for each watch that is stale or behind its counter, at that counter, in the watches' order and under an ID built after only its own topic advanced, and none for any other; those watches end level and every other is as it was |
| LiveWire.LevelIsSilent | live/stream.go:157-182 | over watches that are neither stale nor behind, a pass writes nothing and changes nothing |
| LiveHub.AcceptedMeans | live/live.go:225-244 | accepted topics are exactly the declared, well-formed ones asked for, each once |
| LiveHub.AcceptedInOrder | live/live.go:225-244 | they stand in the order they were first asked for |
| LiveHub.RaiseMeans | live/live.go:248-265 | one change raises each of its topics by one at one new sequence number, leaves every other topic, and wakes every subscriber |
| LiveHub.Hub.ValidTopics | live/live.go:225-244 | the loop returns the accepted topics in the order first asked |
| LiveHub.Hub.RaiseLocked | live/live.go:248-265 | the in-place update of sequence, counters and wake flags is that one change, and while the sequence has not run out keeps 1 <= counter <= changedAt <= sequence |
| LiveHub.Hub.Notify | live/live.go:209-220 | Notify is one change to the accepted topics, and nothing exactly when none asked for is declared and well formed |
| LiveHub.Hub.VersionAt | live/live.go:273-284 | the rendered version is the counter, or one less where the topic changed after the page's start, and in an ordered hub that subtraction never underflows |
| LiveHub.Hub.Admit | live/stream.go:250-263 | a subscriber is admitted exactly while the hub is open and has room, with no wake pending |
| LiveHub.Hub.Unregister | live/live.go:301-305 | one subscriber goes and no other |
| LiveHub.Hub.Close | live/stream.go:270-283 | the hub is closed and nothing else of it changes |
| LiveHub.Hub.ReadCounters | live/stream.go:184-192 | the counters are read at one moment, a topic never raised counting as 0 |
| LiveHub.Hub.WriteChanges | live/stream.go:157-182 | the in-place pass leaves exactly the watches, and writes exactly the bytes, of one event per topic that moved, each ID built after its own topic advanced; a watch that is neither stale nor behind is untouched, and where all are so nothing is written |
| LiveHub.Hub.ResumeFrom | live/stream.go:227-245 | the in-place resume is the resume function |
| LiveHub.ReadVersions | live/stream.go:227-245 | an ID's tokens are read as a whole or not at all, a later one winning |
| LiveHub.ReadWatches | live/stream.go:199-222 | the parsing loop is the parsing function, empty and oversized lists refused |
| LiveProtocol.RunKeeps | live/stream.go:61-147 | the invariant over hub, pages, sessions and streams holds in every run of writes, Notify calls, pages, streams, broken connections, Close and restarts |
| LiveProtocol.RenderedVersion | live/view.go:34-68 | the version a page rendered equals the counter exactly while the topic has not changed since the page's request began, and is below it once a write the query missed is announced |
| LiveProtocol.NoLostWake | live/stream.go:111-147 | a stream at its select has a wake pending or knows every counter, so no raise is lost between subscribe, catch-up and relay |
| LiveProtocol.ChangesFaithful | live/stream.go:157-182 | one pass of changes leaves each watch told, by an event, of just the version it now holds |
| LiveProtocol.ChangesCatchUp | live/stream.go:157-182 | after a pass no watch is stale and none is behind its counter |
| LiveProtocol.NoMissedChange | live/stream.go:34-147 | a page that missed an announced write has, once its stream is quiet, received an event for it from another boot or above the version rendered, whatever was lost or restarted on the way |
| LiveArrival.CanQuiet | live/stream.go:100-182 | wherever a connected stream is, its own steps and its client's can bring it to rest with everything delivered |
| LiveArrival.AnnouncedArrives | live/live.go:209-265 | in every state a run reaches, a connected stream's own steps after a Notify end with its client holding that topic above the version it had |
| LiveArrival.WriteReachesPage | live/live.go:1-7 | so from the write to the browser: once committed and announced, the client of a page that shows the topic is given a version above the one shown |
| LiveArrival.PageRenders | live/live.go:267-291 | a page whose request has just begun reads every write committed so far and shows the topic's own counter |
| LiveArrival.ConnectsExactlyWhen | live/stream.go:35-66 | a stream is served if and only if the hub is open with room, the list is 1 to 64 tokens, and every topic named is declared and allowed the viewer |
| LiveArrival.StartsOpen | live/live.go:173-191 | a new process, and each restart, starts with an open hub and no streams |
| LiveAllowed.OnlyAllowed | live/stream.go:24-53 | in every run, through every resume, reconnect and restart, no stream follows and no client hears of a topic but one a request of its own was allowed |
| LiveAllowed.CountsItsOwn | live/live.go:20-25 | in every run a topic's counter is the number of announcements of that topic since the process started, so a version says nothing of any other topic |
| LiveResume.RunAtLast | live/stream.go:227-245 | in every run a connected stream stands exactly where resuming at the last event sent to its client would put it |
| LiveResume.ComesBack | live/stream.go:227-245 | so a client whose stream was at rest, that loses the connection and connects again, comes back with the very watches it left with |
| LiveResume.ToldOnce | live/stream.go:100-115 | and is told nothing twice: its first pass writes nothing where nothing changed |
| LiveArrival.ClosedTakesNone | live/stream.go:250-283 | once closed, and until a restart, the hub takes no stream |
| LiveClient.CutStream | live/stream.go:157-182 | cutting the bytes of a stream anywhere gives the client a prefix of its messages (section 9.2 of the WHATWG HTML Standard) |
| LiveClient.ReadsBack | live/stream.go:157-182 | the bytes of a list of events are read back as exactly those events and their IDs |
| LiveClient.DeliveredPrefix | live/stream.go:149-182 | wherever a connection breaks, the client has the first events of the pass and the last of their IDs, so an ID never claims an event not received |
| LiveClient.StateIsRecoverable | live/stream.go:157-245 | over any passes and reconnects under one boot, the URL and any event's ID give exactly the watches held just after that event, stale topics included |
| LivePending.AddKeepsSoonest | live/schedule.go:99-126 | an addition that does as promised keeps the soonest of all times ever asked for: whatever was dropped is no earlier than anything kept |
| LivePending.AddsExactlyWhenClear | live/schedule.go:87-104 | an addition does as promised if and only if no waiting pair of another time has the new pair's UnixNano and topic |
| LivePending.RepresentableIsClear | live/schedule.go:87-95 | none has while every time can be held in an int64 of nanoseconds |
| LivePending.FarTimeHidesSooner | live/schedule.go:87-104 | a pair 2^64 nanoseconds further off makes a sooner one count as there already, and it is lost |
| LivePending.AddsEachKeepsSoonest | live/schedule.go:40-79 | however many topics come at one time, what stays is the soonest of what was asked, where that time is clear |
| LiveSchedule.Schedule.Up | live/schedule.go:176-190 | sifting up restores the heap and keeps its contents |
| LiveSchedule.Schedule.Down | live/schedule.go:176-190 | sifting down restores the heap and keeps its contents |
| LiveSchedule.Schedule.Pop | live/schedule.go:185-190 | the earliest pair leaves and the rest is a heap |
| LiveSchedule.Schedule.ScheduleLocked | live/schedule.go:99-126 | a pair whose key is already there, a pair with room, and a pair that displaces a latest one at a full schedule, with keys and heap kept in step |
| LiveSchedule.Schedule.NotifyAt | live/schedule.go:40-79 | a past time is announced now; a future one is added topic by topic, the schedule staying the soonest of what was asked where no pair of another time has one of the new keys, with the timer armed for its head |
| LiveSchedule.Schedule.Fire | live/schedule.go:148-166 | exactly the due pairs leave, announced as one change per distinct time in strictly increasing order, and the timer is armed for what is left |
| LiveSchedule.Schedule.Stop | live/schedule.go:170-174 | Close empties the schedule and disarms the timer |
| Money.Rescale | currency/currency.go:124-144 | it returns r exactly when r is the int64 with r * 10^scale == v * 10^exponent, and is refused exactly when no int64 is |
| Money.RescaleLaw | currency/currency.go:124-144 | the two loop forms, up and down, are that one equation |
| Money.ReadDigits | money/decimal.go:43-72 | digits accumulate to their number, refused exactly when it passes the limit, without overflowing first |
| Money.ReadAmount | money/decimal.go:13-73 | an exact decimal becomes minor units, refused exactly for a nonzero digit beyond the exponent or a count outside int64 |
| CurrencyPrinted.GroupsExactlyWhen | currency/format.go:205-220 | digits are grouped if and only if the locale groups and there are as many as its primary group and its least first group |
| CurrencyPrinted.DigitsPrinted | currency/format.go:135-149 | the digits printed are exactly the magnitude's, with exactly the currency's places and no needless leading zero |
| CurrencyPrinted.FractionPrinted | currency/format.go:185-201 | a printed body is its grouped digits and then the decimal mark and all the places, or nothing where there are none |
| CurrencyPrinted.NegativeIsMinus | currency/format.go:175-203 | without a pattern of its own a negative amount is the locale's minus and the amount; a seed's minus is ASCII |
| CurrencyPrinted.NegativeIsOwn | currency/format.go:175-203 | with a pattern of its own it is printed in that pattern, as a positive amount would be |
| CurrencyPrinted.SymbolBeside | currency/format.go:175-203 | where the pattern puts the sign next to the number the symbol stands there, spaced exactly as the locale asks |
| CurrencyLocale.CleanText | currency/parse.go:21-33 | the rune loop drops direction marks, folds spaces and trims |
| CurrencyPrinted.FoldsExactly | currency/parse.go:12-33 | wherever it stands, a rune is dropped if it is one of twelve direction marks, made U+0020 if it is one of Unicode's twenty-five spaces, and kept otherwise |
| CurrencyPrinted.CleansExactly | currency/parse.go:18-33 | and then exactly the spaces at the two ends go |
| CurrencyLocale.SplitDigitsExact | currency/format.go:135-149 | the split loses nothing, for the least int64 too: whole and fraction are the magnitude, with exactly the exponent's digits after the mark |
| CurrencyLocale.GroupParts | currency/format.go:205-220 | the grouping loop cuts one primary and then secondary groups off the right |
| CurrencyLocale.PartsValid | currency/parse.go:189-207 | groups as printed always pass the parsers' check and join back to the digits |
| CurrencyParse.ParseText | currency/parse.go:45-172 | the strict parser's steps and token loops are the parse function |
| CurrencyParse.ReadTokens | currency/parse.go:102-119 | the loop over runes is the tokenizer, refusing at the first rune that is no digit or separator |
| CurrencyParse.WalkTokens | currency/parse.go:120-150 | the loop over tokens is the assignment of digits to groups and fraction |
| CurrencyParse.BodyReadsBack | currency/parse.go:102-172 | a body in the locale's digits, grouped validly or not at all, reads as the amount it was printed from |
| CurrencyParse.SeedReadsBack | currency/format.go:226-243 | Parse gives back every int64 that InputValue prints, in any well-formed locale |
| CurrencyStrict.ParseExactlyWhen | currency/parse.go:98-173 | once sign and marker are off, any text that is not blank is accepted as v if and only if every mark is a group mark but for one final decimal mark, where there are groups the last has the primary size, the inner ones the secondary and the first one digit to its size, there is a digit, no place beyond the currency's, and v is exactly the digits' number |
| CurrencyStrictSigns.Undresses | currency/parse.go:58-96 | a minus ahead, between, or behind, with or without the symbol or the code at either end, is the sign of the body and nothing else |
| CurrencyStrictSigns.DressedExactlyWhen | currency/parse.go:45-173 | so such text is accepted as v if and only if its body writes v, negative exactly when it wears a minus |
| CurrencyRoundTrip.PrintedReadsBack | currency/format.go:164-203 | Parse gives back every int64 that Format prints, grouped, signed and symbol-marked, whatever side the signs are on |
| CurrencyWitness.EnglishIsWellFormed | currency/format.go:71-88 | the conditions on a locale are met by a concrete one |
| CurrencyTokens.TokensAreText | currency/normalize.go:389-417 | text has tokens if and only if every rune is a digit or a mark, and then they are the text, digit for digit and mark for mark |
| CurrencyTokens.ReadsExactlyWhen | currency/normalize.go:458-503 | a convention and a grouping read tokens, and as which digits, if and only if they can be written out as groups of the right sizes with one group mark and at most one decimal mark behind them |
| CurrencyTokens.LocalIsStrict | currency/normalize.go:419-456 | the page's own convention takes for decimal marks just what the strict parser does, and Arabic's |
| CurrencyTokens.LoneMarkIsSeen | currency/normalize.go:132-202 | in every locale digits with one full stop or comma can be read as a decimal and, in threes, as a thousand, so neither is taken unseen |
| CurrencySigns.Undressed | currency/normalize.go:329-382 | whatever spaces, signs and own spellings are worn at either end, in whatever order, come off; a second sign or spelling is refused |
| CurrencyNegation.NegatedAnswer | currency/normalize.go:82-226 | tokens that read as v read, with a minus, as -v: no reading appears or goes with the sign |
| CurrencyDressed.DressedReads | currency/normalize.go:82-130 | two signs, parentheses counting as one, or two spellings are refused as invalid; any other dressed amount is its body's, negative exactly with parentheses or a minus |
| CurrencyDressed.DressedIsSigned | currency/normalize.go:82-130 | where the bare body reads as v, the dressed one reads as v or, with parentheses or a minus, as -v |
| CurrencyDressed.SignsAreDressed | currency/normalize.go:336-357 | over a table of plain spellings that holds of every body between digits, with any signs and spaces around it |
| CurrencyAmbiguity.NormalIsCanonical | currency/normalize.go:204-226 | two normal decimal texts are equal exactly when they denote one number |
| CurrencyAmbiguity.ReadingIsExact | currency/normalize.go:204-226 | makeReading never rounds: its text denotes exactly the number typed, and a storable reading's minor units are that number at the currency's exponent |
| CurrencyAmbiguity.SameDecimal | currency/normalize.go:165-173 | equal decimals, equal numbers and equal readings are the same thing |
| CurrencyVerdict.Collected | currency/normalize.go:159-171 | the readings collected are distinct and are exactly those some convention and grouping give in range |
| CurrencyVerdict.ReadingsAreAll | currency/normalize.go:159-173 | sorted, they are strictly ascending and still all of them |
| CurrencyVerdict.NeverGuesses | currency/normalize.go:82-126 | an amount is returned only if it is exactly one of the readings, and either no other reading is in range or the page's own grouping took every mark; an ambiguity lists every reading once, strictly ascending, one at least storable; a refusal means none is storable, and says why: too precise, out of range, or the page's decimal mark |
| CurrencyVerdict.OneJustifiedAmount | currency/normalize.go:82-126 | that promise leaves no freedom: two amounts that keep it are one amount |
| CurrencyAnswers.AnswersExactlyWhen | currency/normalize.go:82-126 | the answer is a if and only if the set of readings justifies a: amount, question or which refusal, the promise leaves one |
| CurrencyAnswers.TriesExactly | currency/normalize.go:419-456 | the conventions tried are the page's, the point's and the comma's, each with the page's group sizes, threes, and three then twos, and no other |
| CurrencyAnswers.GroupedExactlyWhen | currency/normalize.go:132-202 | the page's own grouping settles a text if and only if it has marks, all of them group marks, and they part it in the page's own sizes |
| CurrencyAnswers.BeginsExactlyWhen | currency/normalize.go:296-327 | a spelling is found at the front if and only if it is there in full, or as a code in any case, does not run on as a word, and is no mark of the page's numbers |
| CurrencyAnswers.EndsExactlyWhen | currency/normalize.go:296-327 | and so at the back |
| CurrencyAnswers.ForeignIsRefused | currency/normalize.go:14-17 | an amount naming another currency at an end, bare, signed or in parentheses, is refused as the wrong currency, whatever its digits |
| CurrencyAnswers.WrongNamesForeign | currency/normalize.go:336-381 | and nothing else is: some part of it has at an end a spelling that is not the field's |
| CurrencyVerdict.OneOfTwo | currency/normalize.go:464-503 | a decimal mark is always the last mark, so every reading of a text is one of two |
| CurrencyVerdict.AtMostTwo | currency/normalize.go:132-174 | no text has three readings, under any convention and grouping |
| CurrencyVerdict.AmbiguousIsTwo | currency/normalize.go:32-50 | so an ambiguity is between exactly two amounts, one at least storable, and the smallest and largest named are all there are |
| CurrencyChoices.ChoiceReads | currency/normalize.go:464-503 | the tokens of a written choice read as their own digits or not at all, whichever way the mark is taken |
| CurrencyChoices.ChoiceStrips | currency/normalize.go:336-381 | sign and code come off a written choice and leave its body |
| CurrencyChoices.ChoiceReadsBack | currency/normalize.go:52-74 | a choice written in one locale and read in any other can only be read as the reading it was written from, and the normalising reader returns just its minor units |
| CurrencyChoices.ChoicesSettle | currency/normalize.go:42-50 | both amounts an ambiguity offers are unambiguous and different |
| CurrencyNormalize.StripText | currency/normalize.go:336-381 | the loop of rounds takes at most one sign or pair of parentheses and one own spelling, ending when a round changes nothing |
| CurrencyNormalize.MatchSpelling | currency/normalize.go:296-327 | the walk returns the first spelling of the list that matches at that end |
| CurrencyNormalize.FilingLosesNothing | currency/normalize.go:252-303 | looking only at the spellings filed under the text's upper-cased edge rune finds what looking at all of them would |
| CurrencyNormalize.LongestMatch | currency/normalize.go:262-327 | in a list ordered longest first the one found is a longest that matches, and none is found exactly when none matches |
| CurrencyNormalize.TokenizeText | currency/normalize.go:391-413 | the loop with its digit builder is the tokenizer |
| CurrencyNormalize.ReadTokens | currency/normalize.go:464-503 | the loop over tokens is the reading rule |
| CurrencyNormalize.CollectReadings | currency/normalize.go:149-171 | the loop over conventions and groupings collects the distinct readings and notes whether one was out of range |
| CurrencyNormalize.ParseNormalizedText | currency/normalize.go:82-174 | the steps in order are the normalising parser |
| MoneyField.Parsed.ParseMoney | form/moneyfield.go:107-204 | the checks in turn write, for one field and no other, exactly what its submission decides |
| MoneyField.UntouchedKeeps | form/moneyfield.go:50-66 | an untouched form keeps the stored amount, always for a normalising field, and for a strict one exactly when its policy allows the amount |
| MoneyField.StoresExactlyWhen | form/moneyfield.go:101-205 | an amount is stored if and only if the submission names its locale and currency as it may, is not blank, and was either left alone, for the amount stored, or typed and read as an amount the policy allows |
| MoneyField.RefusesExactlyWhen | form/moneyfield.go:101-205 | each refusal is given in exactly the case it is for |
| MoneyField.UnnamedReseeds | form/moneyfield.go:122-130 | a submission that names no locale it may is drawn again from the server, with none of its text |
| MoneyField.SeedNeverDecides | form/moneyfield.go:148-203 | a seed can keep the stored amount or refuse; any other amount stored is what the text reads as without it |
| MoneyField.ChangedRecordReenters | form/moneyfield.go:162-174 | a record that changed after the form was drawn is asked for again, never overwritten by the old text |
| MoneyField.VerifiedSeedSurvives | form/moneyfield.go:82-100 | a verified seed survives an error elsewhere: the form drawn again and submitted as it stands stores the same amount |
| MoneyField.RefusedStoresNothing | form/moneyfield.go:68-74 | a field with an error has no amount, and text whose meaning is unknown is not echoed |
| MoneyFieldShipped.ShippedReadsBack | form/moneyfield.go:50-66 | the real printer and strict parser meet what the field relies on, for all of int64 |
| MoneyFieldShipped.ShippedUntouchedKeeps | form/moneyfield.go:50-180 | over every shipped locale and all of int64, an untouched form keeps the stored amount exactly as its policy allows |
| MoneyFieldShipped.ShippedChangedReenters | form/moneyfield.go:50-180 | and a record changed after the form was drawn is asked for again |
| MoneyFieldShipped.TakesExactlyWhen | form/moneyfield.go:175-190 | in a shipped locale the field takes an amount if and only if the parser it asks for returns it, the strict one or the one that refuses ambiguity |
| MoneyFieldShipped.PlacesToldExactlyWhen | form/moneyfield.go:246-262 | a refusal for precision names the currency's own places if and only if those are 0, 2 or 3, and 2 otherwise |
| MoneyFieldShipped.OfferIsAccepted | form/moneyfield.go:206-219 | the amount an ambiguity message offers is storable and typing it gives exactly it; the one it rules out is refused as too precise |
| AuthLinks.Links.PutLink | auth/recordlinks.go:58-67 | a link is filed under the day it was asked for, once |
| AuthLinks.Links.TakeLink | auth/recordlinks.go:72-129 | alone, a redemption marks and deletes just its own link and answers ok exactly for an unspent, unexpired link of its purpose |
| AuthLinks.Links.Sweep | auth/recordlinks.go:131-169 | every record of a day before yesterday goes, and no other |
| AuthLinksOnce.RunKeeps | auth/recordlinks.go:58-169 | the invariant over store, calls and sweeps holds in every run, failing writes included |
| AuthLinksOnce.AtMostOnce | auth/recordlinks.go:72-129 | in every interleaving of redemptions and sweeps at most one call for a link answers ok |
| AuthLinksOnce.TwiceWhenSlow | auth/recordlinks.go:131-138 | at the bound, a run in which a call sleeps over a sweep redeems one link twice |
| AuthLinksOnce.OnceExactlyWhen | auth/recordlinks.go:72-169 | the promise holds if and only if calls are shorter than 24 hours less the lifetime plus one second |
| AuthLinksOnce.StrangersWriteNothing | auth/recordlinks.go:96-106 | no step of a call for an unknown token or a wrong purpose changes the store, in any run |
| AuthLinksOnce.LiveLinkIsRead | auth/recordlinks.go:73-93 | a live link's UTC day is one of the two a redemption reads |
| AuthLinksOnce.FreshLinkRedeems | auth/recordlinks.go:58-129 | a link answers ok to the first call for it in time, and to none after |
| AuthLinksOnce.RedeemsExactlyWhen | auth/recordlinks.go:72-129 | alone, a redemption answers ok if and only if the link is there on one of the two days, of this purpose, not spent and not expired, and writes if and only if it is there, of this purpose and not spent |
| AuthLinksOnce.AloneIsRedeem | auth/recordlinks.go:72-129 | the interleaved program run alone is the sequential redemption |
| AuthUsersLaws.RunKeeps | auth/users.go:95-190 | the invariant over claims, records and calls holds in every run, with deletions of records and failing operations |
| AuthUsersLaws.OneUserPerAddress | auth/users.go:88-126 | all sign-ins that succeed for one address return one uid, and for two addresses two |
| AuthUsersLaws.RecordsMatchClaims | auth/users.go:95-151 | users/<uid> always holds the record for the claim on that uid, and no sign-in ever ends because a claim changed |
| AuthUsersAddresses.AddressesAreSignIns | auth/users.go:88-188 | in every run an address stored or returned is one somebody signed in with for that claim on an instance that is not blind, and where no call is blind every record and every user returned has one |
| AuthUsersAddresses.StepOnRecord | auth/users.go:134-190 | in every run a record is made only by a sign-in, with its address unless it is blind, and after that keeps id, hash and birthday, never loses an epoch, and keeps its address but for a blind call that empties it |
| AuthUsersAddresses.AddressStays | auth/users.go:134-190 | whatever address a record has it keeps until a blind call writes it or it is deleted |
| AuthUsersAlone.FirstSignIn | auth/users.go:95-151 | a first sign-in claims a new uid and makes its record, with the address unless blind |
| AuthUsersAlone.LaterSignIn | auth/users.go:95-188 | a later one returns the record of its claim, stripped on a blind instance |
| AuthUsersAlone.RepairingSignIn | auth/users.go:88-151 | a claim whose record is missing is repaired on the same uid |
| AuthUsersAlone.LoserReadsAgain | auth/users.go:97-126 | a sign-in that loses the race for a claim goes on with the winner's |
| AuthUsersAlone.ReadAlone | auth/users.go:165-188 | alone, a read returns the record, stripped on a blind instance in the store too, or reports it gone |
| AuthUsersAlone.EndSessionsAlone | auth/users.go:254-274 | alone, an epoch bump raises the epoch by one and, on a blind instance, leaves no address, or reports the user gone and writes nothing |
| AuthUsersAlone.FailureIsReported | auth/users.go:95-188 | an operation that fails ends the call with its error and leaves every record and claim as it was |
| AuthUsersLaws.BlindReturnsNoAddress | auth/users.go:157-188 | in blind mode no call returns a user with an address |
| AuthUsersLaws.NoBumpIsLost | auth/users.go:248-274 | the stored epoch is the record's first one plus the bumps made since, whatever reads and strips ran among them, and cannot overflow below 2^62 bumps |
| AuthUsersLaws.BumpsAreSuccesses | auth/users.go:254-274 | when no update both took effect and failed, the bumps counted are exactly the EndSessions calls that succeeded |
| AuthUsersCalls.Records.ReadUser | auth/users.go:165-188 | the retry loop, with any writes by others before each operation, is the read |
| AuthUsersCalls.Records.EndSessions | objrec/objrec.go:131-159 | the get and compare-and-swap loop, under the same interference, is the bump |
| AuthUsersCalls.Records.StripAll | auth/users.go:192-215 | the pass over the listed users, with any writes by others before each operation, is a read of each until one fails |
| AuthUsersCalls.StripLeavesNone | auth/users.go:192-215 | among any writers that are blind too, a pass that succeeds over every user who had an address leaves no address in the store |
| AuthUsersCalls.QuietStrip | auth/users.go:192-215 | undisturbed, it succeeds, exactly the listed users' addresses go and nothing else changes |
| AuthUsersCalls.ReadReturnsStored | auth/users.go:165-188 | what a read returns is what the store holds at that moment |
| AuthUsersCalls.RaiseIsAtomic | objrec/objrec.go:127-159 | a successful bump raised the epoch stored at the very moment it wrote; a failed one wrote nothing |
| PrefixRange.FindBound | eventlog/eventlog.go:289-296 | the loop from the last byte back is the bound |
| PrefixRange.RangeIsPrefix | eventlog/eventlog.go:264-296 | the byte range selects a string if and only if it starts with the prefix, for every prefix, all-0xFF and empty ones included |
| PrefixRange.LikeIsFoldedPrefix | eventlog/eventlog.go:298-303 | the LIKE pattern selects exactly the strings that start with the prefix in some ASCII case |
| PrefixRange.LikeIsNotTheRange | eventlog/eventlog.go:364-378 | the two ways of asking for a prefix differ |
| PrefixRange.LikeIsLiteralExactlyWhen | eventlog/eventlog.go:298-303 | the pattern matches its prefix literally if and only if no ASCII letter is in it |
| EventLog.EarlierIsTotal | eventlog/eventlog.go:343-349 | any two events of one stream are ordered by lamport, timestamp text, writer and seq |
| EventLog.TiesExactlyWhen | eventlog/eventlog.go:364-378 | two events of any streams are unordered if and only if all four fields are the same |
| EventLog.OrderedIsUnique | eventlog/eventlog.go:353-362 | there is one way to list a stream in that order |
| EventLog.Log.InsertRow | eventlog/eventlog.go:315-341 | one row, stamped one above the stream's lamport and the writer's seq, or nothing where the position is taken |
| EventLog.Log.AppendEvent | eventlog/eventlog.go:108-131 | the transaction commits exactly that row or nothing |
| EventLog.Log.ReadEvents | eventlog/eventlog.go:345-362 | the rows come back in the one order |
| EventLog.Log.AppendAfterCheck | eventlog/eventlog.go:147-168 | the check judges exactly the history the event lands on, and a refusal appends nothing |
| EventLog.Log.AppendNamed | eventlog/eventlog.go:182-206 | the stream is named from what the range lists, and one outside the prefix is refused |
| EventLog.Log.Ingest | eventlog/eventlog.go:479-520 | a batch is taken whole or leaves the table as it was |
| EventLog.Fold | eventlog/eventlog.go:525-531 | the loop is the fold |
| EventLogLaws.LandsLast | eventlog/eventlog.go:104-131 | an append is read back at the very end of its history, saying what it was given, stamped above every event there and numbered above its writer's, and moves nothing else |
| EventLogLaws.LandsLastExactlyWhen | eventlog/eventlog.go:318-334 | it does so if and only if the stream's highest lamport is below the largest int64 |
| EventLogLaws.ReadsInOrder | eventlog/eventlog.go:343-362 | a history is each of the stream's rows once and no other, by lamport, then timestamp text, then writer, then seq |
| EventLogLaws.AppendsExactlyWhen | eventlog/eventlog.go:104-131 | while its counter lasts an append is taken if and only if stream and kind are named |
| EventLogLaws.ChecksExactlyWhen | eventlog/eventlog.go:133-168 | and a checked one if and only if, besides, the check admits the history it lands on |
| EventLogLaws.NamesExactlyWhen | eventlog/eventlog.go:170-206 | and a named one if and only if prefix and kind are named and the name given lies under the prefix |
| EventLogLaws.NeverCollides | eventlog/eventlog.go:324-339 | an append finds its position free while its writer's counter has not run out |
| EventLogLaws.DeriveMovesByOne | eventlog/eventlog.go:522-531 | the read model after an append is one reduce away from the one before |
| EventLogLaws.CheckedKeepsRule | eventlog/eventlog.go:133-168 | a rule the check guards holds of every stream after every run of checked appends by any writers |
| EventLogLaws.SeesThePrefix | eventlog/eventlog.go:242-262 | what AppendUnder's name sees is exactly the streams that start with the prefix |
| EventLogLaws.FreshNameIsNew | eventlog/eventlog.go:170-206 | a name not among them is a stream nobody has written, so two creations never share one |
| EventLogIngest.TakenExactlyWhen | eventlog/eventlog.go:475-520 | a batch is taken if and only if nothing in it is malformed or contradicts the table or itself in lamport, ts, kind or payload; otherwise the table is unchanged |
| EventLogIngest.ReplicasConverge | eventlog/eventlog.go:23-27 | any order, batching and repetition of events that agree, wholly where the table had no row yet and in the compared fields elsewhere, reach one table, and identical histories |
| EventLogIngest.IngestIsIdempotent | eventlog/eventlog.go:475-520 | a batch met again changes nothing |
| EventLogIngest.ActorsMayDiffer | eventlog/eventlog.go:502-514 | two events differing only in the actor are taken in either order, and the tables then differ |
| EventLogIngest.ConvergesExactlyWhen | eventlog/eventlog.go:475-520 | events without fault make one table in every order, batching and repetition if and only if those at one new position name one actor |
| EventLogIngest.ConvergeButActors | eventlog/eventlog.go:23-27 | logs that met the same positions, with events agreeing in the compared fields, hold the same positions and read histories alike in everything but the actor |
| EventLogIngest.ReadAlikeButActors | eventlog/eventlog.go:502-514 | two tables that differ in actors at most read every stream alike, event for event, in everything else |
| EventLogReplicas.NeverDiverges | eventlog/eventlog.go:469-473 | between replicas with writers of their own no delivery, in any order and with any losses, is ever refused |
| EventLogReplicas.DeliveryArrives | eventlog/eventlog.go:469-520 | what is delivered arrives and nothing that was there goes |
| EventLogReplicas.CanConverge | eventlog/eventlog.go:19-27 | whatever has happened, two replicas that send each other what they have hold one log |
| EventLogReplicas.SamePositionsSameLog | eventlog/eventlog.go:19-27 | two replicas never disagree about an event, and with the same positions they are one log |
| EventLogReplicas.WritersInOrder | eventlog/eventlog.go:19-23 | on every replica each writer's events read in seq order, and the writer's own replica has no gap |
| EventLogPrefix.EachStreamAsRead | eventlog/eventlog.go:364-378 | of the events under a prefix, each selected stream's are exactly what Events reads, in its order |
| EventLogPrefix.DeterminedExactlyWhen | eventlog/eventlog.go:364-378 | the query's answer is determined if and only if no two events of different streams share all four ordering fields |
| Emission.RunRecheck | api/emit.go:142-171 | the recheck's steps and loop over the registered checks are the recheck |
| Emission.RecheckIsPass | api/emit.go:142-213 | a recheck answers nil if and only if credential, holder and every registered check pass, each within the deadline, and the connection takes it |
| Emission.AnswerBuffer.Write | api/emit.go:264-278 | a write is kept whole or refused whole, and over the limit everything is dropped |
| Emission.AnswerBuffer.SetStatus | api/emit.go:250-262 | the first final status stays and an informational one is dropped |
| Emission.BufferIsExact | api/emit.go:264-278 | the buffer holds the exact concatenation of what was written, or nothing exactly when that passes the limit |
| Emission.StatusIsFirst | api/emit.go:250-289 | an answer has no status exactly while nothing final was set, written or flushed |
| Emission.FirstStatusHolds | api/emit.go:250-289 | whatever the handler does after it, the status its answer began with stays |
| Emission.StatusIsExact | api/emit.go:250-317 | the answer's status is the first settling header's own, 200 when a write or flush comes first or nothing does |
| Emission.EmitGuarded | api/emit.go:89-124 | the loop over chunks, which always ends, is the emission |
| EmissionTrace.GuardedIsSafe | api/emit.go:87-124 | headers and every chunk go out directly behind a passed recheck; what is out is a prefix of the body, and all of it unless the emission was refused or cut off |
| EmissionTrace.ChecksAreFresh | api/emit.go:102-123 | the rechecks are made one after another, each once, so no chunk rides on an earlier chunk's recheck |
| EmissionTrace.FirstRefusalWithholds | api/emit.go:95-111 | when the first recheck fails, neither headers nor any byte of the answer go out |
| EmissionTrace.HeadersExactlyWhen | api/emit.go:89-118 | headers go out if and only if the connection takes a deadline and the first recheck passes |
| EmissionTrace.PassedGoesOut | api/emit.go:89-124 | where every recheck passes and every write does, the whole answer goes out |
| EmissionTrace.AnswerIsWhole | api/emit.go:54-85 | over any calls of the handler: the status that goes out is the first it settled on, with its length unless it is 204 or 304, for which no body goes out; nothing of an answer over the limit does; and the length announced is met exactly when the client got every byte |
| EmissionChecks.RegisteredIsRerun | api/gate.go:141-170 | headers and every chunk go out only behind a recheck that every check registered in that round or any before it passed in time |
| Background.Group.Go | background/background.go:91-104 | admitted and counted exactly while the group is not stopped |
| Background.Group.After | background/background.go:110-137 | a timer is armed and held together, or not made |
| Background.Group.Callback | background/background.go:119-133 | a fired timer leaves the map and is counted exactly while the group is not stopped |
| Background.Group.StopTimer | background/background.go:60-68 | the timer is dropped and disarmed, reporting whether it was armed |
| Background.Group.Stop | background/background.go:176-188 | every timer held is disarmed and nothing more is admitted |
| Background.RunKeeps | background/background.go:91-188 | the wait group counts exactly the functions admitted and not over, in every run |
| Background.NoAddAfterStop | background/background.go:86-98 | once stopped, nothing is added to the wait group and nothing becomes live |
| Background.WorkStarts | background/background.go:86-104 | until it is stopped a group runs and counts what it is given |
| Background.TimerRuns | background/background.go:106-137 | and a timer's function once it fires |
| Background.TimerStops | background/background.go:55-68 | but a timer stopped first is disarmed and runs nothing |
| Background.LoopGoesOn | background/background.go:139-165 | a loop whose pass is over makes another, or leaves once it is cancelled or the group is done |
| Background.StopCanReturn | background/background.go:167-188 | in every run a waiting Stop returns once the functions it waits for do |
| Background.ShutdownIsFinal | background/background.go:167-188 | once any Stop has returned, no tracked function is running and none ever starts |
| Background.OnlyDroppedStayArmed | background/background.go:60-68 | every armed timer is in the map, or its own Stop is between taking it out and disarming it |
| Background.HeldExactlyWhen | background/background.go:60-68 | in every run, each armed timer is in the map if and only if none that is armed waits for its own Stop to disarm it |
| Background.NothingArmedOnceStopped | background/background.go:176-188 | a stopped group with no timer's own Stop under way has nothing armed |
| Background.DroppedTimerOutlivesStop | background/background.go:60-68 | that exception happens |
| ActionPath.ClosingBrace | action/path.go:111-126 | the counting loop finds the closing brace, or panics where there is none |
| ActionPath.ReadPieces | action/path.go:58-77 | the loop over the rest of the path is the splitter |
| ActionPath.PiecesAreThePath | action/path.go:55-77 | the pieces join back to the path, each parameter's braces are its own, literal text opens none |
| ActionPath.PiecesExactlyWhen | action/path.go:55-126 | a path is cut in the one way there is, and panics if and only if there is none |
| ActionPathFill.UnescapeEscape | action/path.go:181-182 | unescaping undoes escaping, for every string of bytes |
| ActionPathFill.EscapesExactly | action/path.go:181-182 | a byte is left alone if and only if it is an ASCII letter or digit or one of ten marks, and else written as two hexadecimal digits (section 2.1 of RFC 3986) |
| ActionPathFill.HexExactly | action/path.go:181-182 | hexadecimal digits are read in either case and nothing else is |
| ActionPathFill.PatternIsBehindColon | action/path.go:167-168 | a parameter's name is what stands before its first colon and its pattern what stands behind it |
| ActionPathFill.ForExactlyWhen | action/path.go:15-43 | For takes values if and only if the path ends in no catch-all, there is one value a parameter and each may stand where it goes: not empty, no dot segment, nothing that ends it early, and matched by its pattern unescaped |
| ActionPathFill.FillPath | action/path.go:20-43 | the loop over pieces and values is the filling, wrong counts and catch-alls refused |
| ActionPathFill.ForReadsBack | action/path.go:145-205 | where no parameter directly follows another, scanning what For wrote, each value up to its ending character, gives back exactly the values given |
| ActionPathFill.ForIsInjective | action/path.go:15-43 | so no two lists of values it accepts give one URL |
| ActionPathFill.AdjacentCollide | action/path.go:145-158 | any value split in three gives two parameters side by side one text for different values |
| ActionPathFill.SideBySideCollide | action/path.go:15-43 | so on the path "/{a}{b}" |
| ActionPathFill.InjectiveExactlyWhen | action/path.go:15-43 | a path For fills whose parameters have no patterns takes different values to different URLs if and only if no parameter directly follows another |
| ActionPathFill.AnchoredOnce | action/path.go:98-109 | a pattern and its anchored form are one shape |
| ActionPathFill.ShapeIs | action/path.go:79-96 | a shape is its pieces' one after another: literal text as it stands, a parameter as braces, a colon and its anchored pattern |
| ActionPathFill.ShapeIgnoresNames | action/path.go:79-96 | a parameter's name is no part of the shape |

## Left out

- LiveProtocol.NoMissedChange: assumes fewer than 2^64 steps in one run, because the hub's sequence is a uint64 that would wrap; the same bound stands on the other theorems over runs of `live`, and 2^63 on those over runs of appends.
- LiveArrival.CanQuiet: says that a pending wake can always be taken and its changes delivered, not that a scheduler in time does; heartbeats, lifetimes and the request's context appear only as a stream that may end at any step.
- LiveAllowed.OnlyAllowed: what an app's Allow answers is a set of topics given with each request.
- LiveSchedule.Schedule.Stop: the timer's own goroutine is not modelled; Fire may run at any moment, as the source allows, also where a wait longer than a Duration is cut short.
- CurrencyRoundTrip.PrintedReadsBack: the choice between the standard and the alphabetic pattern, and the reading of a pattern's text, are made before the model; it starts from the chosen pattern's prefix and suffix.
- CurrencySigns.Undressed: that match finds, at each end, just the spelling worn there is asked of the table and the body; for signs and spaces alone it is proved of every table of plain spellings (`SignsAreDressed`).
- CurrencyChoices.ChoiceReadsBack: asks of the spelling table that no spelling holds a digit and that every one is cleaned text; the tables themselves, and the Unicode letter and digit tables, are parameters.
- MoneyField.UntouchedKeeps: a currency code's normal form and a tag's resolution are tables given to the form.
- AuthLinksOnce.AtMostOnce: a hash is asked for once, as fresh random tokens are; the address and its sealing are not modelled, and days are numbers where the code compares their texts.
- AuthUsersLaws.OneUserPerAddress: uids are fresh, claims hold only uids made here, and the hash of an address is taken as the address.
- AuthUsersCalls.Records.StripAll: the store's pages are one list given to it, of uids only.
- EventLog.Log.AppendNamed: the naming function takes the set of streams, where the code passes them sorted.
- EventLog.Log.ReadEvents: the default order only; Log.Order, and EventsByPrefix's regrouping under it, are not modelled.
- ActionPathFill.InjectiveExactlyWhen: parameters with patterns are outside its condition, because whether their values can be split again lies in the patterns.
- Emission.EmitGuarded: a failing write may have sent any part of its chunk; what Refuse writes instead of an answer is not modelled.
- ActionPathFill.ForReadsBack: the router is the scanning rule the source states; whether a pattern's regexp matches a value is a parameter.
- Background.ShutdownIsFinal: that Stop returns at all is left to the functions it waits for.
- HTTP, SSE and SQL plumbing, logging, caches and retries of a database's own.
- Cryptography, random ids, cookies, sign-in screens and redirects, cross-site request checks and locale negotiation.
- Gate.Admit, the agent headers, form fields other than money and manifest validation: wide branching, each claim a single branch.
- Jobs, key wraps, client addresses, API tokens, flash messages and the sidecar: real invariants, but easy next to the ones here.
- The money column upgrade of the event log, LocalWriter and payload encoding.
- The GORM fork, the test harnesses, icons and asset serving.
