# Kolu in Dafny: deep links, previews, agent deliveries

A verified model of the parts of Kolu that hold state or codecs: the deep-link router of the client,
the two URL codecs it leans on, the comment blanker of the architecture guards, the folds over agent
deliveries, the palette's render keys, the CI janitor's sweep, and the persisted recency trails.
`dafny verify dfyconfig.toml` checks all of it.

| files | what they model |
|---|---|
| `RouterSpec`, `RouterProofs`, `RouterEndings`, `RouterStamps`, `Router` | the router as a state machine, what every run of it keeps, how its routes end, what its consumed stamps mean, and the handlers and effects that update the page in place |
| `DeepLink`, `LinkReading`, `HostKey` | the `#/…` grammar (parser and printer), what it reads that no printer wrote and why it refuses, and the host key's wire form |
| `UriCoding`, `UriReading`, `Utf8`, `Text` | percent-coding (section 19.2.6 of ECMA-262), the query reader (section 5.1 of the WHATWG URL Standard), UTF-8 (section 3 of RFC 3629), splitting, joining, numerals, white space |
| `Preview` | the preview path codec and the file URL |
| `StripComments` | the in-place lexer that blanks comments |
| `Json`, `Landing`, `AgentStatus`, `Fleet`, `ProfileList` | set identity through JSON text (section 7 of RFC 8259), the words for a delivery, staleness and landed updates, the fleet line, the profile list |
| `Palette` | unique render keys |
| `CiReap`, `CiRoots` | the janitor's sweep under a process table that changes at will, and the removal of runtime roots after it |
| `Trails` | the tolerant list reader and the monotonic stamp |

## How the router is modelled

A page is the browser's history (each entry with its hash and its consumed stamp), the one armed route,
the focus intent, the active host, and a view of every host: list pending, list error, complete census,
listed terminals, composed records with their git fact, and whether a view action would throw. The steps
are a fresh navigation, a link to the hash already shown, a traversal, a request or launch from outside, a
host switch, any change of the hosts, the backstop, and a reload with or without a queued launch; each is
followed by the settle effect.
A reload drops the route and the intent and keeps the history and the host. The router takes its parser as
a parameter that only promises decodable hosts and no route in an empty hash; `GrammarIsSound` shows the
deep-link parser keeps that promise.

Entries, armed routes and the log carry ids of the model's own. An entry's id names one loading of it, so
an entry replaced from outside is a new one; an armed route's id stands for the object identity the
backstop compares.

What the code does differently from its comments:

- A traversal between two entries of the same hash fires no `hashchange`. With a route armed, such a move
  onto a consumed entry leaves the route armed on an entry that is not its own, and the consumed entry's
  command can be enacted again (`SilentReplayEnactsTwice`). `InvariantExactly` shows this is the only way a
  step breaks the router's invariant; the run-level results that rest on it hold for every run without such
  a step. That each route has one fate holds over every run.
- "Enacted, one toast, or silence" has a fourth case the code provides for: `enact` throws. The entry is
  then left unstamped, and the intent survives a termination that enacted nothing
  (`AThrowLeavesTheIntent`), which the comment at useDeepLinks.ts:162-173 rules out.
  `IntentIsEnactedExactly` shows that a surviving intent stays an enacted route's after exactly the steps
  that do not reach a ready route on a host whose view action throws.
- A launch of the bare app, whose URL has no hash, stamps the entry it finds. With a link armed there, the
  link is dropped without a word and is left "stamped but un-enacted", which the comment at
  useDeepLinks.ts:353-360 says is prevented: no reload retries it (`BareLaunchLosesTheLink`).
  `StampsStayNotedExactly` shows this is the only way a stamp comes to stand for no resolution; without such
  a launch a reload retries exactly the unresolved links (`ReloadRetriesExactlyUnresolved`). A switch away
  from an armed link's host stamps it too, and the code counts that as a resolution.
- A traversal does not always land on a consumed entry, as useDeepLinks.ts:197-200 has it: a link superseded
  in flight is left unstamped, so going back to it arms it again (`BackOntoSupersededArmsAgain`).
- A link to the hash already shown replaces the entry without a `hashchange`, and its stamp goes with the
  old entry: nothing happens at once, but a reload enacts the command again
  (`FollowedAgainIsCommandedAgain`).
- A queued launch replaces the boot parse even when it carries no URL, so a reload re-arms an armed route
  exactly when no launch was queued or the launch asks for the same link (`ReloadRearmsExactly`).

Elsewhere, `isSaneStamp` and `monotonicStamp` do not compose: a stamp at the very end of the accept window
is read back, and the visit stamped past it is not (`SkewedTrailLeavesTheWindow`, with the exact condition
in `VisitStaysSaneExactly`).

## Model

| member | source | states |
|---|---|---|
| `RouterProofs.InvariantExactly` | packages/client/src/useDeepLinks.ts:156-261 | from any state in which the armed route is the current unstamped entry's own command, on its host, waiting, with its terminal as the intent, every enabled step leads to such a state, unless it is a traversal the browser does not report onto a consumed entry; then it never does |
| `RouterProofs.RunKeepsInv` | packages/client/src/useDeepLinks.ts:280-497 | the whole invariant holds after every run |
| `RouterProofs.ArmedRouteBelongsToItsEntry` | packages/client/src/useDeepLinks.ts:156-183 | after any run of links, traversals, outside requests, host switches, world changes, timers and reloads, an armed route's entry is unstamped, its hash parses to that route, the intent is its terminal, the active host is its host, and the settle effect is waiting on it |
| `RouterProofs.CommandsAreConsumedOnce` | packages/client/src/useDeepLinks.ts:188-200 | over any run an entry's terminal command is enacted or declared failed at most once, both counted together, and its entry stays stamped for as long as it lasts |
| `RouterProofs.StampsOnlyGrow` | packages/client/src/useDeepLinks.ts:408-419 | only an outside request with a hash, or a link to the hash already shown, replaces an entry, and only a fresh navigation cuts entries off; every other entry keeps its hash and never loses its stamp |
| `RouterEndings.SettlesByTheFacts` | packages/client/src/useDeepLinks.ts:280-361 | an armed route off its host is dropped and its entry consumed without a word; on it, it waits until the list fails, a complete census lacks the terminal, the repository is known to be missing, or all it needs is there, and ends by the one note those facts call for, `enact` throwing exactly when the view does |
| `RouterEndings.TimesOutByTheFacts` | packages/client/src/useDeepLinks.ts:372-398 | the backstop ends the armed route with one toast: of the repository, the daemon or the host, exactly by the facts at that time |
| `RouterEndings.HowARouteEnds` | packages/client/src/useDeepLinks.ts:162-200 | an armed route ends at exactly the steps that supersede it or give a verdict; superseded it is dead, otherwise it ends in exactly one note of its own, the one the new facts call for or the one the facts at its backstop do; a host switch away consumes the entry |
| `RouterEndings.OneFateEach` | packages/client/src/useDeepLinks.ts:206-209 | over any run each armed route is armed still, ended by exactly one note, or superseded without one, and the last two are for good however the run goes on |
| `RouterEndings.DeadStaysDead` | packages/client/src/useDeepLinks.ts:174-183 | no step, not even an unreported traversal, enacts or toasts a superseded route |
| `RouterEndings.TheTruthDecides` | packages/client/src/useDeepLinks.ts:280-361 | however the facts of its host come in, an armed link ends in exactly one note, the one the complete facts call for: enacted exactly when they are ready for it and its view does not throw |
| `RouterEndings.FollowedLinkIsDecided` | packages/client/src/useDeepLinks.ts:488-497 | a well-formed terminal link that is followed, and whose host then makes its facts known, leaves exactly one note more, its own, on its fresh entry, the one the complete facts call for, with the entry stamped unless `enact` threw |
| `RouterEndings.EveryLinkIsRouted` | packages/client/src/useDeepLinks.ts:210-261 | whatever way a link comes in (a fresh hash, a traversal to an unconsumed entry, the boot parse, a request or launch from outside, a queued launch), a terminal link is armed on its host and nothing else happens, and any other stamps its entry, arms nothing, moves the host if it is a host link, and shows one thing if it is bad or the settings |
| `RouterEndings.NothingElseIsRouted` | packages/client/src/useDeepLinks.ts:445-497 | a traversal to a consumed entry, its reload, a launch without a URL, and a move of the host or of the world route nothing; only a malformed launch shows something, and only a reported traversal disarms |
| `RouterEndings.OtherLinksResolveAtOnce` | packages/client/src/useDeepLinks.ts:210-261 | a followed link that targets no terminal, once settled: nothing armed, its entry consumed, the host moved only by a host link, at most one thing shown |
| `RouterEndings.BareLaunchesChangeNothing` | packages/client/src/useDeepLinks.ts:445-461 | a launch without a URL changes nothing, and one whose URL is malformed only adds its toast |
| `RouterEndings.RoutesEndOnce` | packages/client/src/useDeepLinks.ts:341-361 | over any run no armed route ends twice and the armed one has not ended |
| `RouterEndings.IntentIsEnactedExactly` | packages/client/src/useDeepLinks.ts:162-173 | an intent with nothing armed stays the terminal of the last route enacted after exactly the steps that do not reach an `enact` that throws |
| `RouterEndings.IntentIsTheLastEnacted` | packages/client/src/useDeepLinks.ts:341-361 | over any run in which no view action throws, an intent with nothing armed is the terminal of the last route enacted |
| `RouterEndings.CalmRunsAreThrowFree` | packages/client/src/useDeepLinks.ts:341-361 | hosts whose view actions never throw give only such runs |
| `RouterEndings.AThrowLeavesTheIntent` | packages/client/src/useDeepLinks.ts:162-173 | a concrete run in which `enact` throws: the intent of a link that was never enacted survives, and the unstamped entry is routed again by a reload |
| `RouterStamps.StampedExactly` | packages/client/src/useDeepLinks.ts:188-200 | exactly three things stamp the entry of a terminal link that was not stamped: a note that enacts it or declares it failed, a launch of the bare app while it is the current entry, and a switch away from its host while it is armed |
| `RouterStamps.StampsStayNotedExactly` | packages/client/src/useDeepLinks.ts:243-259 | that every stamp on a terminal link stands for its resolution is kept by exactly the steps that are no launch of the bare app on an unstamped terminal link |
| `RouterStamps.StampedMeansResolved` | packages/client/src/useDeepLinks.ts:188-200 | over any run without such a launch, an entry's terminal link is stamped exactly when one note has enacted it or declared it failed, or the user walked away from its host while it was armed |
| `RouterStamps.ReloadRetriesExactlyUnresolved` | packages/client/src/useDeepLinks.ts:188-193 | over any such run, a reload of a terminal link leaves the page as it is when the link has been resolved and arms it when it has not |
| `RouterStamps.BareLaunchLosesTheLink` | packages/client/src/useDeepLinks.ts:353-360 | a launch of the bare app while any link is armed drops it without a word and stamps its entry, and no reload retries it |
| `RouterStamps.BackOntoSupersededArmsAgain` | packages/client/src/useDeepLinks.ts:476-497 | a link superseded in flight by another command keeps its entry unstamped, and a traversal back to it arms it again on its host |
| `RouterProofs.ReloadRetriesUnresolved` | packages/client/src/useDeepLinks.ts:462-473 | the boot parse of an unstamped terminal link arms it on its host; with that route armed before, history, host and log are unchanged |
| `RouterProofs.ReloadRearmsExactly` | packages/client/src/useDeepLinks.ts:445-473 | with a route armed, the reloaded page arms it again exactly when no launch was queued or the launch asks for that link |
| `RouterProofs.ConsumedIsNeverReplayed` | packages/client/src/useDeepLinks.ts:462-473 | after a link resolved, any number of reloads, world changes and timers arms nothing, shows nothing and leaves history and host as they were |
| `RouterEndings.VerdictsAreNotPremature` | packages/client/src/useDeepLinks.ts:299-340 | facts that decide before they are all in decide as all of them do, and all of them always decide |
| `RouterEndings.SilentReplayEnactsTwice` | packages/client/src/useDeepLinks.ts:476-497 | a concrete run of the real grammar in which a same-hash traversal gets a consumed terminal link enacted a second time |
| `RouterEndings.FollowedAgainIsCommandedAgain` | packages/client/src/useDeepLinks.ts:462-473 | a link to the hash already shown does nothing at once but unstamps its entry, so the next reload arms the consumed command again |
| `RouterProofs.GrammarIsSound` | packages/client/src/deepLink.ts:104-124 | every link the parser accepts names a host the router can decode, and an empty hash is no link |
| `RouterProofs.PrintedLinkArms` | packages/client/src/useDeepLinks.ts:488-497 | following the printed hash of a well-formed terminal link arms exactly that link, on its host |
| `DeepLinkRouter.Router.constructor` | packages/client/src/useDeepLinks.ts:100-105 | a tab before its first load: one unstamped entry, nothing armed |
| `DeepLinkRouter.Router.DisarmInFlightRoute` | packages/client/src/useDeepLinks.ts:174-183 | nothing is armed afterwards, the intent is cleared exactly when something was, what was armed is dead, and the invariant is kept |
| `DeepLinkRouter.Router.NavigateTo` | packages/client/src/useDeepLinks.ts:210-261 | field by field: a terminal link is armed and leaves its entry unstamped; any other stamps it, arms nothing, and has its own effect and no more |
| `DeepLinkRouter.Router.SettleEffect` | packages/client/src/useDeepLinks.ts:280-361 | from what holds between a handler and its effects, the chain of early returns restores the whole invariant, and its outcome is that of the state machine |
| `DeepLinkRouter.Router.BackstopTimer` | packages/client/src/useDeepLinks.ts:372-398 | the armed route ends with exactly one toast, the one the facts read before it was disarmed call for, and nothing else changes but the stamp |
| `DeepLinkRouter.Router.FromOutside` | packages/client/src/useDeepLinks.ts:408-419 | a non-empty hash lands on a fresh entry, which stays unstamped exactly while a terminal route of its own is armed; an empty one only consumes the current entry |
| `DeepLinkRouter.Router.OnMount` | packages/client/src/useDeepLinks.ts:432-474 | with no queued launch a consumed entry leaves the page as it is and any other link of whatever kind is routed from it; the invariant is kept whatever was queued |
| `DeepLinkRouter.Router.OnHashChange` | packages/client/src/useDeepLinks.ts:488-497 | on a stamped entry history, host and log stay as they were; afterwards the entry is stamped exactly when nothing is armed |
| `DeepLinkRouter.Router.Perform` | packages/client/src/useDeepLinks.ts:280-497 | handler and effects together are one step of the state machine, and keep the invariant exactly outside a silent replay |
| `DeepLinks.AcceptsExactly` | packages/client/src/deepLink.ts:63-157 | the language of the parser: a hash is accepted as a link exactly when the link is well formed, the decoded path is its segments, and a code link's query gives its path and, as the exact integer its digits denote, its line |
| `DeepLinks.ParseUndoesPrint` | packages/client/src/deepLink.ts:13-23 | every well-formed link, with any non-empty remote target, any non-empty path and any line from 1 to 2^53-1, is what its printed hash parses to |
| `DeepLinks.AcceptedIsWellFormed` | packages/client/src/deepLink.ts:1-11 | nothing half-valid is accepted, and what is accepted prints to a hash that parses to it |
| `DeepLinks.PrintIsInjective` | packages/client/src/deepLink.ts:13-23 | two well-formed links share a hash only when they are the same link |
| `LinkReading.PlainLinkParses` | packages/client/src/deepLink.ts:87-124 | a well-formed link whose segments hold no mark of the grammar is read from them as they are, a code link from any query that gives its path and line |
| `LinkReading.RawHostLink` | packages/client/src/deepLink.ts:13-23 | `#/h/` and a host typed raw, colon and at sign and all, is that host link |
| `LinkReading.RawTerminalLink` | packages/client/src/deepLink.ts:13-23 | `#/t/`, a raw host and a raw id is that terminal link |
| `LinkReading.RawInspectorLink` | packages/client/src/deepLink.ts:13-23 | and with `/inspector` after it, that inspector link |
| `LinkReading.RawCodeLink` | packages/client/src/deepLink.ts:126-157 | and with `/code?` and any query that gives a path and at most a line from 1 to 2^53-1, that code link |
| `LinkReading.RawQuerySays` | packages/client/src/deepLink.ts:126-157 | a raw path, and a line of any digits that denote it, leading zeros included, are given by `path=…&line=…` |
| `LinkReading.MarksMayBeMissing` | packages/client/src/deepLink.ts:63-95 | the leading `#` may be missing, and so may one leading slash |
| `LinkReading.NoLinkExactly` | packages/client/src/deepLink.ts:63-90 | only nothing, `#`, `/` or `#/`, with any query after it, is no link at all |
| `LinkReading.RefusedExactly` | packages/client/src/deepLink.ts:104-157 | what decoded segments are refused for, reason by reason, each exactly |
| `LinkReading.RefusedEarlyExactly` | packages/client/src/deepLink.ts:87-103 | an empty segment is refused before any escape is read, and a bad escape before any meaning |
| `HostKeys.DecodeEncoded` | packages/common/src/hostKey.ts:82-124 | a key survives its wire form exactly when the schema admits it |
| `HostKeys.WireFormSpelled` | packages/common/src/hostKey.ts:82-124 | the wire forms letter by letter, and what is read back from them |
| `HostKeys.EncodedHostKeys` | packages/common/src/hostKey.ts:126-138 | the canonical strings are exactly the wire forms of admissible keys |
| `HostKeys.EqualKeysAreEqual` | packages/common/src/hostKey.ts:86-89 | comparing wire forms is comparing keys |
| `HostKeys.HostInputRoundTrips` | packages/common/src/hostKey.ts:202-212 | any typed host but the empty string names a key its wire form carries back; only four spellings name this machine |
| `UriCoding.DecodeEncoded` | packages/common/src/preview.ts:154-162 | decodeURIComponent undoes encodeURIComponent on every well-formed string |
| `UriCoding.FormDecodeEncoded` | packages/client/src/deepLink.ts:134-138 | the query reader also undoes encodeURIComponent |
| `UriReading.UnreservedExactly` | packages/common/src/preview.ts:154-156 | encodeURIComponent leaves a character as it is exactly when it is not a control, a space, one of 23 ASCII marks, or past ASCII |
| `UriReading.RawTextDecodes` | packages/common/src/preview.ts:158-162 | text without a percent sign is decoded as it is, before whatever follows it |
| `UriReading.EscapedCharDecodes` | packages/common/src/preview.ts:158-162 | a character's escapes, in hex digits of either case, are decoded as that character |
| `UriReading.OnlyEscapesDecode` | packages/common/src/preview.ts:158-162 | where text at a percent sign is decoded at all, it starts with the escapes of a character |
| `UriReading.RawTextFormDecodes` | packages/client/src/deepLink.ts:134-138 | the query reader reads text without a percent sign as it is, a space for each plus |
| `UriReading.EscapedCharFormDecodes` | packages/client/src/deepLink.ts:134-138 | and a character's escapes as that character |
| `UriReading.LonePercentStays` | packages/client/src/deepLink.ts:134-138 | and leaves a percent sign that no two hex digits follow |
| `UriReading.PairReadsAround` | packages/client/src/deepLink.ts:134-138 | a pair is read around its first equals sign; without one its value is empty |
| `UriReading.QueryValueExactly` | packages/client/src/deepLink.ts:134-138 | a query's value of a name is that of the first of its pieces that speaks of it, empty pieces and one leading question mark aside; none when no piece does |
| `Utf8.DecodeFirstOnlyEncoded` | packages/common/src/preview.ts:158-162 | the byte decoder accepts for a character only its one UTF-8 encoding |
| `Utf8.IllFormedExactly` | packages/common/src/preview.ts:158-162 | bytes are refused just where no character's encoding starts them |
| `Utf8.SkipsTheLongestStart` | packages/client/src/deepLink.ts:134-138 | the lossy decoder skips the longest start of ill-formed bytes that begins some encoding, or one byte |
| `Utf8.LossyReplaces` | packages/client/src/deepLink.ts:134-138 | and puts one U+FFFD for it, whatever was read before |
| `Preview.PreviewPathRoundTrips` | packages/common/src/preview.ts:154-162 | every path survives the codec, empty segments and leading or trailing slashes included |
| `Preview.EncodedPathSegments` | packages/common/src/preview.ts:151-156 | encoding keeps the segment boundaries: no encoded segment holds a slash |
| `Preview.FileUrlIsInjective` | packages/common/src/preview.ts:194-200 | two file URLs are equal exactly when host, slash-free terminal id and path are |
| `Preview.UrlSpelled` | packages/common/src/preview.ts:182-200 | the URL, segment by segment |
| `Preview.RawPathDecodes` | packages/common/src/preview.ts:158-162 | a path without a percent sign is decoded as it is |
| `Preview.BadEscapeRefuses` | packages/common/src/preview.ts:158-162 | a bad escape in any segment refuses the path |
| `Preview.SlashedTerminalIdsCollide` | packages/common/src/preview.ts:194-200 | with slashes in the id, which is written raw, two different triples share a URL |
| `StripComments.Strip` | packages/client/src/architectureGuardSources.testlib.ts:44-80 | the loop over the copied buffer computes the recursive lexer's result |
| `StripComments.Pass` | packages/client/src/architectureGuardSources.testlib.ts:47-78 | one turn of the loop overwrites only the units it consumes, as one move of the lexer |
| `StripComments.StripBlanksComments` | packages/client/src/architectureGuardSources.testlib.ts:36-43 | for any reading of the text as code, line comments, block comments and string literals with escapes, exactly the comments are blanked, delimiters included, newlines kept |
| `StripComments.EveryTextLexes` | packages/client/src/architectureGuardSources.testlib.ts:36-43 | every text has such a reading, unterminated comments and strings included |
| `StripComments.LiteralsAreKept` | packages/client/src/architectureGuardSources.testlib.ts:36-43 | a literal in double quotes, single quotes or backticks is left as it is, slashes and escaped quotes included, and the text after it is read as code |
| `StripComments.LineCommentsAreBlanked` | packages/client/src/architectureGuardSources.testlib.ts:36-43 | a line comment is blanked up to its newline |
| `StripComments.BlockCommentsAreBlanked` | packages/client/src/architectureGuardSources.testlib.ts:36-43 | a block comment is blanked up to its first closing mark, newlines kept |
| `StripComments.CodeIsKept` | packages/client/src/architectureGuardSources.testlib.ts:44-60 | any unit but a quote, and a slash that opens no comment, is kept and leaves the text after it code |
| `StripComments.KeptOrBlanked` | packages/client/src/architectureGuardSources.testlib.ts:36-39 | every unit is kept or becomes a space, and no newline is lost |
| `StripComments.NewlinesStay` | packages/client/src/architectureGuardSources.testlib.ts:36-39 | the newlines of the result are exactly the newlines of the text |
| `StripComments.StripIsIdempotent` | packages/client/src/architectureGuardSources.testlib.ts:44-80 | stripping twice is stripping once |
| `Json.ReadUndoesWrite` | packages/agent-distro/src/landing.ts:58-60 | JSON text of an array of strings and nulls reads back to the array |
| `Json.CharsSpelled` | packages/agent-distro/src/landing.ts:58-60 | each character as JSON text writes it: quotes, backslashes and controls escaped, five of them by a letter, and nothing else |
| `Json.TextSpelled` | packages/agent-distro/src/landing.ts:58-60 | items stand between brackets and commas, strings between quotes |
| `Landing.SetKeyIdentifies` | packages/agent-distro/src/landing.ts:56-65 | set keys are equal exactly when the package and the builds, in order, are |
| `Landing.DeliveryChanges` | packages/agent-distro/src/landing.ts:93-142 | the line is the package's words, each delivered profile's phrase in order, each removed profile's, and a reorder when nothing else is said |
| `Landing.PackageIsSaidFirst` | packages/agent-distro/src/landing.ts:102-105 | whatever the profiles, a changed package is said first, by `changes` from the old versions to the new ones, from none on a first landing; the profiles' phrases follow, and no reorder |
| `Landing.UnchangedPackageIsSilent` | packages/agent-distro/src/landing.ts:102-105 | on an unchanged package `changes` is not asked |
| `Landing.DeliveredBeforeRemoved` | packages/agent-distro/src/landing.ts:106-129 | delivered profiles are spoken of before removed ones, and a first landing names each with its build |
| `Landing.LastOfExactly` | packages/agent-distro/src/landing.ts:106-108 | of the profiles under one reference the last is what a delivery is compared with |
| `Landing.DeliveredInOrder` | packages/agent-distro/src/landing.ts:109-126 | the delivered profiles' phrases come one by one in their order |
| `Landing.RemovedInOrder` | packages/agent-distro/src/landing.ts:127-129 | so do the removed ones' |
| `Landing.OneProfileWords` | packages/agent-distro/src/landing.ts:109-129 | one profile is spoken of by its phrase, and one that goes is said to be removed |
| `Landing.PhraseWords` | packages/agent-distro/src/landing.ts:108-126 | the phrases: added with its build, rebuilt from the old label to the new one or from the old store hash to the new one where the labels agree, nothing of an unchanged build |
| `Landing.BuildNames` | packages/agent-distro/src/landing.ts:80-85 | a build is named by the first seven characters of its revision, or the first eight of the last part of its store path |
| `Landing.Titles` | packages/agent-distro/src/landing.ts:68-75 | a stack's title is its profiles' names in order, and a reorder is said by the new title |
| `Landing.SaidNothingExactly` | packages/agent-distro/src/landing.ts:87-92 | on an unchanged package, for any stacks, the line is empty exactly when the references are the same in order and every build is the last one known for its reference |
| `Landing.SilenceIsSameSet` | packages/agent-distro/src/landing.ts:87-92 | for duplicate-free stacks that means: the same stack and the same set |
| `Landing.OnePhraseEach` | packages/agent-distro/src/landing.ts:108-129 | each added, rebuilt or removed reference gets exactly one phrase, its own, and no other reference gets any |
| `Landing.ReorderIsOnePhrase` | packages/agent-distro/src/landing.ts:130-140 | with nothing added, rebuilt or removed, one phrase is said of a reorder and none of an unchanged stack |
| `AgentStatus.RestartClosesStaleness` | packages/agent-distro/src/status.ts:1031-1039 | wherever a restart is offered, restarting into what the host now gives makes the terminal current |
| `AgentStatus.WaitingGivesNothing` | packages/agent-distro/src/status.ts:1031-1034 | where it is withheld, a new terminal on a caught-up host gets no agents |
| `AgentStatus.CurrentMeansSameSet` | packages/agent-distro/src/status.ts:1004-1012 | on a caught-up ready host, current means the same package and the same builds in order |
| `AgentStatus.StaleExactly` | packages/agent-distro/src/status.ts:971-1029 | the staleness of a terminal, case by case, by what its host has said about the setting's own stack: agents off, the same set, another set, a delivery, a failure, or nothing to go by |
| `AgentStatus.ReferencesAreTitled` | packages/agent-distro/src/status.ts:292-305 | a stack of references is titled in order, Juspay's own profile by name |
| `AgentStatus.UpdateLandedExactly` | packages/agent-distro/src/status.ts:1185-1218 | an update landed exactly when both statuses are ready with the same references in order and different sets |
| `Fleet.AgentFleetSummary` | packages/agent-distro/src/status.ts:673-696 | the growing groups are one per state in first-appearance order, each with its hosts in order |
| `Fleet.GroupsInFirstAppearance` | packages/agent-distro/src/status.ts:666-672 | group keys are distinct, and more hosts only add groups at the end |
| `Fleet.EachHostOnce` | packages/agent-distro/src/status.ts:676-681 | each host is in the group of its state, at the place its order gives it, and in no other group |
| `Fleet.MembersShareState` | packages/agent-distro/src/status.ts:676-681 | a group holds exactly the hosts of the fleet that read as it |
| `Fleet.PlacesKeepOrder` | packages/agent-distro/src/status.ts:676-681 | two hosts of one state keep their order |
| `Fleet.NamedAndCounted` | packages/agent-distro/src/status.ts:682-695 | named hosts and the counted rest add up to the fleet |
| `Fleet.GroupNames` | packages/agent-distro/src/status.ts:682-695 | the first two hosts of a group are named, in order, and the rest are counted before the group's words |
| `Fleet.HostReads` | packages/agent-distro/src/status.ts:375-402 | what each host reads as, one being checked as that whatever it said last |
| `Fleet.MarksCarry` | packages/agent-distro/src/status.ts:388-398 | a mark carries the set its host is ready with, or the failure's own message |
| `Fleet.KeyIsState` | packages/agent-distro/src/status.ts:639-664 | two marks share a group key exactly when the group would read the same |
| `ProfileList.NormalizedProfiles` | packages/agent-distro/src/status.ts:93-103 | the loop writes the normalized list |
| `ProfileList.NormalizedNames` | packages/agent-distro/src/status.ts:91-103 | a reference is written exactly when it is non-empty and some entry trims to it |
| `ProfileList.NormalizedKeepsFirst` | packages/agent-distro/src/status.ts:91-103 | a repeat is kept where it first appears |
| `ProfileList.CleanIsFixed` | packages/agent-distro/src/status.ts:91-103 | the lists normalizing leaves alone are exactly the trimmed, non-empty, duplicate-free ones |
| `ProfileList.ChoicesAreFixed` | packages/agent-distro/src/status.ts:105-123 | a choice is written clean, choosing it again changes nothing, and a switch keeps the list |
| `ProfileList.ChoiceKeepsTheRest` | packages/agent-distro/src/status.ts:105-123 | a choice writes what it gives and keeps the rest of what was stored |
| `ProfileList.ProfilesWithMoved` | packages/agent-distro/src/status.ts:144-159 | after the two splices the entry is where it was sent and the others are in their order, indices clamped |
| `ProfileList.ClampIsNearest` | packages/agent-distro/src/status.ts:150-152 | a clamped index is the one in the list that is nearest |
| `ProfileList.MovePlaces` | packages/agent-distro/src/status.ts:144-159 | the entry is where it was sent and the others keep their order |
| `ProfileList.MoveBack` | packages/agent-distro/src/status.ts:144-159 | moving there and back restores the list for any indices |
| `ProfileList.EditsStayWritten` | packages/agent-distro/src/status.ts:125-159 | add, remove and move keep a written list written, the setting leaves it as it is, and an add is refused exactly when writing it would change nothing |
| `ProfileList.AddedExactly` | packages/agent-distro/src/status.ts:125-134 | an add puts the trimmed reference at the end and keeps the rest, and is refused exactly when there is nothing to add |
| `ProfileList.RemovedExactly` | packages/agent-distro/src/status.ts:136-142 | a remove takes out the one entry and closes the gap; an index outside the list takes out nothing |
| `Palette.KeyDisplayEntries` | packages/client/src/CommandPalette.tsx:161-171 | no entry is dropped or moved, and each gets its base with its ordinal among its twins |
| `Palette.KeysAreDistinct` | packages/client/src/CommandPalette.tsx:150-160 | no two entries of a list get the same key, however many twins it holds |
| `Palette.KeysSurviveReordering` | packages/client/src/CommandPalette.tsx:152-160 | any reordering of the entries, rows' list indices aside, keeps the set of keys |
| `Palette.AloneKeepsItsKey` | packages/client/src/CommandPalette.tsx:152-158 | an entry alone in its identity keeps its plain key wherever it moves |
| `Palette.TwinKeys` | packages/client/src/CommandPalette.tsx:161-171 | the first of some twins has the plain key, the next ones `#1`, `#2` and so on after it |
| `Palette.RowNamesExactly` | packages/client/src/CommandPalette.tsx:126-148 | a row is named by its terminal, or else by its id, or else by its name |
| `Palette.SameIdentity` | packages/client/src/CommandPalette.tsx:126-148 | two entries want the same key exactly when they are rows of one kind, host and name, headers of one section, or host headers of one host or name |
| `CiReap.SelectBindPidGoneDaemons` | packages/daemon-test-gate/src/ciReap.ts:283-317 | the pids selected are those of the doomed rows, in listing order |
| `CiReap.DoomedIsLeftover` | packages/daemon-test-gate/src/ciReap.ts:33-56 | a row is doomed exactly when it is a process of this user's, not the janitor, that names one of the three kinds of CI root and runs a daemon or a helper, and its bind pid is dead or this run's own, or it has none and is no helper |
| `CiReap.OnlyLeftoversAreSignalled` | packages/daemon-test-gate/src/ciReap.ts:341-346 | every signal goes to a pid whose row, in the look just before, was such a leftover |
| `CiReap.ProductionIsSafe` | packages/daemon-test-gate/src/ciReap.ts:9-15 | a process whose command never names a CI root is never signalled, however the table changes |
| `CiReap.LeftoversAreSelected` | packages/daemon-test-gate/src/ciReap.ts:39-56 | this user's `…/bin/padi` or `…/bin/kaval`, with arguments or without, that names a CI root and has no bind pid is selected |
| `CiReap.WordExactly` | packages/daemon-test-gate/src/ciReap.ts:39-41 | a wrapper is found where its path stands before white space or at the end |
| `CiReap.SweepBindPidGoneDaemons` | packages/daemon-test-gate/src/ciReap.ts:319-354 | the two lists are the signals sent, split by how they ended |
| `CiReap.OnlyDoomedAreSignalled` | packages/daemon-test-gate/src/ciReap.ts:341-346 | however the table changes, every pid signalled was doomed in the listing taken just before and in the first |
| `CiReap.StillDoomedAreSignalledOnce` | packages/daemon-test-gate/src/ciReap.ts:338-353 | a selected process gets a signal exactly when its second look still dooms it, and with distinct pids nobody gets two |
| `CiReap.PeersAreSafe` | packages/daemon-test-gate/src/ciReap.ts:1-15 | a process no listing dooms is never signalled |
| `CiReap.SweepAccounts` | packages/daemon-test-gate/src/ciReap.ts:338-353 | with distinct pids, reaped and survived are disjoint, name nobody twice, come from the first selection, and are exactly those signalled |
| `CiRoots.KillScrollFifoReaders` | packages/daemon-test-gate/src/ciReap.ts:111-129 | the pids killed are those of the rows whose `cat` names the FIFO, the janitor aside, that the signal reached |
| `CiRoots.KilledExactly` | packages/daemon-test-gate/src/ciReap.ts:116-127 | a pid is killed for a root exactly when some row of it is a reader that the signal reached |
| `CiRoots.FifosLookApart` | packages/daemon-test-gate/src/ciReap.ts:80-83 | each condemned FIFO takes a look of its own at the process table, in order, and nothing else takes any |
| `CiRoots.ReaderExactly` | packages/daemon-test-gate/src/ciReap.ts:111-121 | a reader is another process than the janitor, a `cat` whose command line names the FIFO's trigger |
| `CiRoots.BaseNameIs` | packages/daemon-test-gate/src/ciReap.ts:103-109 | the word a command is judged by has a base name exactly when that name, free of slashes of either kind, is the whole word or what follows its last slash |
| `CiRoots.CatExactly` | packages/daemon-test-gate/src/ciReap.ts:103-109 | a command is a `cat` exactly when its first word, after any white space, is `cat` or a path to it |
| `CiRoots.CatPaths` | packages/daemon-test-gate/src/ciReap.ts:103-109 | a path to `cat` ends in it after a slash of either kind |
| `CiRoots.OwnerExactly` | packages/daemon-test-gate/src/ciReap.ts:93-101 | an owner file names a pid exactly when it holds that positive number as it is written, white space around it aside |
| `CiRoots.RootNames` | packages/daemon-test-gate/src/ciReap.ts:23-31 | a runtime root is a directory of one of three names, FIFOs those of the last |
| `CiRoots.RemoveThisRunRuntimeRoots` | packages/daemon-test-gate/src/ciReap.ts:60-91 | the condemned roots are removed in directory order; the pass throws exactly when the directory is unreadable for another reason than its absence or a condemned root cannot be removed |
| `CiRoots.ThrowsExactly` | packages/daemon-test-gate/src/ciReap.ts:66-73 | a missing directory is nothing to do; an unreadable one, or a condemned root that cannot be removed, throws, and nothing else |
| `CiRoots.RemovedExactlyIfUnused` | packages/daemon-test-gate/src/ciReap.ts:1-15 | a path is removed exactly when it is a runtime root out of use: a FIFO's whose owner is dead or unknown, a daemon's that no command line names |
| `CiRoots.OnlyReadersAreKilled` | packages/daemon-test-gate/src/ciReap.ts:80-84 | every pid killed was, in the look taken for that root, a `cat` reading the trigger of a condemned FIFO, and not the janitor |
| `CiRoots.ReapCiRun` | packages/daemon-test-gate/src/ciReap.ts:356-366 | the roots are judged by the first look after the sweep's last; a throw loses the report |
| `CiRoots.JudgedAfterTheSweep` | packages/daemon-test-gate/src/ciReap.ts:356-366 | the roots are judged by a look taken after every signal of the sweep |
| `CiRoots.PeerIsLeftAlone` | packages/daemon-test-gate/src/ciReap.ts:1-15 | however the table changes over a whole run, a process that is never doomed and no `cat` is neither signalled nor killed, and a daemon's root it names throughout is not removed |
| `Trails.ParseTolerantList` | packages/client/src/persistedPref.ts:127-147 | the first `cap` of the first occurrences of accepted rows; a throw only for what is no array |
| `Trails.IgnoredRowsChangeNothing` | packages/client/src/persistedPref.ts:121-126 | inserting or deleting a rejected or duplicate row, anywhere, changes nothing |
| `Trails.EveryIdentityIsRead` | packages/client/src/persistedPref.ts:136-146 | every accepted identity is read, by its first row |
| `Trails.FirstAcceptedDistinct` | packages/client/src/persistedPref.ts:136-146 | no identity is read twice |
| `Trails.CleanListIsWhole` | packages/client/src/persistedPref.ts:127-147 | a clean short list is returned whole |
| `Trails.TakeExactly` | packages/client/src/persistedPref.ts:146-147 | the cap keeps the first entries, as many as it allows |
| `Trails.MonotonicStamp` | packages/client/src/persistedPref.ts:164-182 | a stamp is at or past the clock and strictly past every surviving entry |
| `Trails.LastVisitIsNewest` | packages/client/src/terminal/visitRecency.ts:84-100 | over any visits to any trail under any clock, the last visit is first and its stamp strictly the largest |
| `Trails.VisitKeepsOthers` | packages/client/src/terminal/visitRecency.ts:84-100 | after a visit come the others, but for those the cap drops at the end |
| `Trails.OthersExactly` | packages/client/src/terminal/visitRecency.ts:84-100 | a visit takes its own key's entry out of the trail and keeps every other, in order |
| `Trails.TiesAreOld` | packages/client/src/terminal/visitRecency.ts:84-100 | visits never make a tie: two entries with one stamp are two entries the trail began with |
| `Trails.StampsStayDistinct` | packages/client/src/terminal/visitRecency.ts:84-100 | so distinct stamps stay distinct |
| `Trails.StampsStayNear` | packages/client/src/persistedPref.ts:164-171 | stamps run ahead of the clock by at most one a visit |
| `Trails.VisitStaysSaneExactly` | packages/client/src/persistedPref.ts:149-182 | a visit leaves a sane trail sane exactly when no other entry at or past the clock is within a millisecond of the end of the accept window |
| `Trails.WindowExactly` | packages/client/src/persistedPref.ts:149-162 | the accept window ends 365 days past `now`, in milliseconds |
| `Trails.SkewedTrailLeavesTheWindow` | packages/client/src/persistedPref.ts:149-162 | a concrete trail that reads back sane and whose next visit does not |
| `Trails.RestampedStaysSane` | packages/client/src/persistedPref.ts:149-162 | a trail with a millisecond of the window left for each visit still reads back sane, stamps and clocks past `now` included |

## Left out

- Parser: the terminal-id schema is a parameter; the grammar's results hold for any id test that refuses the empty string. The schema's UUID check is in a package that is not part of this model.
- Strings: lone surrogates, on which the URI functions throw. Comment stripping works on raw UTF-16 code units and so admits them.
- Lines: `?line=` is read as the integer its digits denote. `Number` rounds digit strings past 2^53, and the safe-integer test refuses exactly those, so the accepted values are the same.
- Step: the hash an outside request writes is taken to read back as written; the browser's own escaping of it decodes to the same link. A link to the hash already shown is a replace navigation with no `hashchange`, as the HTML standard has it.
- Traverse: a history move and its `hashchange` are one step, and effects have run before the next.
- SwitchHost: the host reconcile is modelled as a switch to any host, and session restore's reading of the intent is not modelled.
- Toasts: only their kind, not their wording. View actions of `enact` are one event that may throw.
- ps, /proc, the disk and signals: each look at the process table, each bind-pid read, each signal's ending, each owner file and each removal's success is an arbitrary input. A root's path is the reap root, a slash and its name; `join`'s normalising of the reap root is left out.
- DeliveryChanges: upstream's `changes` is an arbitrary function, and versions are any type.
- Given: what a host gives a new terminal is its ready set; padi's own status transitions are not part of this model.
- Status texts: only the words the modelled folds build; resolution lines, hints and host details are left out.
- Trails: the seeding and reconciling of live ids are left out; their ties are admitted by the trails being arbitrary. Stamps are reals, so the step past the newest is exact. Below 2^53 a double behaves the same for whole milliseconds, and stamps stay within one per visit of the clock. `JSON.parse` is an input, as the rows it gives.
- DisplayEntry: a row keeps the fields its key reads and its index; rendering is left out.
