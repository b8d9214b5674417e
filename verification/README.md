# The trading console's decision logic, proved

The console of this repository decides many things outside its user interface: how two texts differ,
what option legs are worth at expiry, which page may renew the session, when to poll, which answer is
too old to show. This project models that logic in Dafny and proves what it promises.

| module | models | main result |
|---|---|---|
| `EditScripts`, `LineDiff` | the line diff | it is an edit script, numbered without gaps, and no other script changes fewer lines exactly when the trimmed middles are small enough or have no line in common |
| `DiffFold` | folding of a diff | the folding that restores the diff and hides exactly what is far from every change, and the only one |
| `Payoff`, `Breakevens`, `PayoffAtExpiry` (with `RealSets`) | option payoff at expiry | exact extremes, sound and complete break-evens, a curve whose straight lines are the payoff |
| `FillsCsv` (with `StableSort`, `TextOrder`) | the fills as a file | a reader of section 2 of RFC 4180 gets back every cell, oldest fill first |
| `ChatStream` | the streaming reply reader | what is delivered does not depend on how the stream is cut into reads |
| `SessionProtocol` | tabs, one cookie, single-use refresh tokens | every session survives every run without lost replies if and only if the tabs take turns; with losses, exactly which steps end it |
| `ApiClient`, `SharedRefresh` | refresh and API calls, by one caller and by many in one tab | one refresh at a time in every interleaving, shared by all who need it; no caller sees a refresh that could not be judged as a 401 |
| `SessionRestore` | restoring a session on page load | signed out only after a real answer, unreachable exactly after four attempts that taught nothing, stopped exactly when cancelled by its end |
| `Poller` | the polling rules | one task and one timer at most, in every run; a running poller never goes silent |
| `Query` | reads that follow a key | what is shown without an error was fetched for the key shown, in every interleaving |
| `Calendar`, `Dates` | days as text | exactly which texts are days; reading and printing are inverse and keep order |
| `ReportPeriod` | report periods | when the period offered is accepted, and that it is the week or month just ended |
| `PipelineFeed` | the agent pipeline panel | the rows do not depend on the order or repetition of what arrives; the feed keeps everything exactly while it is at most 400 events |
| `EquityChart` | runs, gaps and scale of the equity chart | runs and gaps partition the readings; the line meets the trip line exactly when the equity does |
| `CiPlan` | which CI jobs a change needs | the plan of two changes together is the join of their plans |

What is outside the console enters as a parameter: the answers of a server (`Server`), what the cancel
flag says at each moment, whether a payload parses as JSON, the formatting of a time for India, the
horizontal scale of the chart, whether `pyproject.toml` moved a mutation baseline. Nothing is assumed of
them. Objects whose operations change them step by step (`Client`, `SharingTab`, `AuthProvider`,
`PollerObject`, `QueryHook`, the table and the marks of the diff) are classes and arrays whose methods are
proved against a function of the old state; the properties of whole runs are then proved of that function.

Places where the code and what is said of it differ, or where a promise holds only in part. Each has a lemma
that shows one such input, and one that says exactly which inputs they are:

- `payoffSummary` is described as having no underlying unless all legs are options of one underlying
  (lib/paper-trading.ts:179). The code first drops legs that are no options or have no quantity (line 199), so
  other legs do not prevent a summary (`PayoffAtExpiry.OtherLegsDoNotPrevent`). The model follows the code, and
  `PayoffAtExpiry.CommentAgreesExactlyWhen` says for which legs the two agree.
- The diff is minimal also on the "too large" branch when the middles share no line, and otherwise never.
  `LineDiff.DiffLines` states both directions, `LineDiff.LargeMiddle` names two texts.
- `utcOf` understands no year below 0100, because `Date.UTC` moves the years 0 to 99 into the twentieth century. So
  `defaultPeriod` offers a period that `periodProblem` rejects early in the year 0100, and
  `daysBetween(d, addDays(d, k))` is `k` exactly while the sum stays within the years 0100 to 9999
  (`ReportPeriod.EarlyWeekIsRejected`, `ReportPeriod.EarlyMonthIsRejected`, `Dates.EarlyDayIsNotCounted`).
- More than 400 events do not all stay in the feed (`PipelineFeed.OneTooMany`); everything that arrived is kept
  exactly while it is no more than that.
- The server (backend/src/api/routes/auth.py:386-408) forgives a token that comes back within a grace period
  if its replacement was never presented. It spends a token and issues the replacement in two commits (lines
  377-379 and 200-209). If it fails between them there is no replacement to forgive the token for, and
  presenting it again, however soon, ends the family (`SessionProtocol.FailureEndsTheFamily`). So with replies that
  get lost, tabs that take turns end the family exactly when a spent token that still decodes comes back too late
  or was never replaced. One that does not decode any more, past its own expiry or signed with a rotated key, is
  refused before anything stored is looked at (lines 301-307) and ends nothing. Without turns, two tabs end it with no reply lost.

`append` looks for duplicates in the feed only, not inside a batch. That is no fault: a batch is either one
event or the rows of one query on a table in which run and sequence number are unique
(backend/src/models/agent_pipeline_event.py:31-32). The model says exactly when a duplicate would get in all the same.

## Model

| member | source | states |
|---|---|---|
| EditScripts.SplitJoin | lib/diff.ts:19 | joining the lines of a text gives the text back but for Windows line ends, and no line holds a line feed |
| EditScripts.JoinSplit | lib/diff.ts:19 | lines without line ends of their own are the lines of the text they make |
| EditScripts.SplitMixed | lib/diff.ts:19 | a text put together from lines with any mix of plain and Windows line ends is split into those lines |
| EditScripts.NoLinesExactlyWhenEmpty | lib/diff.ts:19 | only the empty text has no lines |
| EditScripts.SummaryBalance | lib/diff.ts:82-88 | kept and removed lines together are the old text's, kept and added ones the new text's |
| EditScripts.ScriptBound | lib/diff.ts:1-5 | no edit script between two texts keeps more lines than their longest common subsequence |
| EditScripts.LcsTrim | lib/diff.ts:26-34 | setting a common start and a common end aside costs the longest common subsequence exactly their lengths |
| EditScripts.LcsAtIsLcs | lib/diff.ts:48 | what a table entry should hold is the longest common subsequence of the two remainders |
| EditScripts.LcsZero | lib/diff.ts:43-46 | nothing can be kept exactly when no line is common |
| EditScripts.MinimalExactlyAtLcs | lib/diff.ts:1-5 | a script changes the fewest lines of all exactly when it keeps as many as the longest common subsequence |
| LineDiff.FillRow | lib/diff.ts:51-53 | fills one row correctly from the row below and touches no other row |
| LineDiff.LcsTable | lib/diff.ts:48-54 | every entry of the table is the length it stands for, and none overflows 32 bits |
| LineDiff.AlignedIsBest | lib/diff.ts:55-71 | the alignment the walk prefers is an edit script, numbered without gaps, that keeps as many lines as can be kept |
| LineDiff.AlignedKeeps | lib/diff.ts:57-69 | from every position on, the greedy choices keep as many lines as the table says |
| LineDiff.AlignedLeads | lib/diff.ts:62-68 | wherever lines are replaced the removals come before the additions, which is what the walk prefers among equally long alignments |
| LineDiff.WalkStep | lib/diff.ts:58-68 | one step, read off the table, stays on the preferred alignment and moves on |
| LineDiff.Walk | lib/diff.ts:55-71 | the walk over the table yields exactly the preferred alignment |
| LineDiff.WalkRest | lib/diff.ts:70-71 | whatever is left of one side completes that alignment |
| LineDiff.Replace | lib/diff.ts:43-46 | a replaced middle is an edit script that keeps nothing, all removals before all additions |
| LineDiff.TrimEnds | lib/diff.ts:27-34 | what is cut off is common to both texts, and the lines next to the cuts differ |
| LineDiff.CopySame | lib/diff.ts:74-76 | a stretch both texts share is told line by line, each with its number on either side |
| LineDiff.Middle | lib/diff.ts:43-72 | a small enough middle gets the preferred alignment, a larger one all removals and then all additions; as many lines as can be kept are kept exactly when it was small enough or nothing is common |
| LineDiff.MinimalMiddle | lib/diff.ts:26-39 | a script that keeps everything trimmed is minimal exactly when it keeps all that can be kept of the middles |
| LineDiff.LargeMiddle | lib/diff.ts:43-46 | two texts of 2002 lines with a line in common are too large to align |
| LineDiff.DiffOfLargeMiddle | lib/diff.ts:43-46 | the diff of these two texts is not minimal |
| LineDiff.TwoThousandLinesAlign | lib/diff.ts:16-17 | middles of two thousand lines each are aligned, whatever they hold |
| LineDiff.DiffOfMixedEnds | lib/diff.ts:19-78 | two texts that differ in their line ends only have no difference |
| LineDiff.DiffLines | lib/diff.ts:21-78 | the diff tells both texts with gapless numbers; it is minimal among all edit scripts exactly when the middles have at most 4,000,000 cells or no common line; it tells no change exactly when the lines are the same; and removals come before additions |
| LineDiff.NoChangeExactlyWhenSame | lib/diff.ts:21-78 | a script as good as the diff has no change exactly when the lines are the same |
| DiffFold.FoldRestores | lib/diff.ts:98-118 | filling each gap with the lines it hides restores the diff |
| DiffFold.FoldIsUnique | lib/diff.ts:98-118 | there is only one folding that shows exactly the lines near a change, with whole, positive, separated gaps |
| DiffFold.FoldFromIsTheFold | lib/diff.ts:105-117 | the fold as a function of the diff is that folding |
| DiffFold.MarkKept | lib/diff.ts:100-104 | a line is marked exactly when a change lies within the context of it |
| DiffFold.FoldUnchanged | lib/diff.ts:99-118 | the loop yields the only correct folding, for every context |
| DiffFold.FoldByDefault | lib/diff.ts:98-99 | by default three lines are kept on each side of a change |
| Payoff.ComputePayoffAt | lib/paper-trading.ts:184-193 | the loop sums quantity times intrinsic value less cost over the open option legs |
| Payoff.PayoffLinear | lib/paper-trading.ts:195-197 | where no strike lies the payoff is one straight line |
| Payoff.PayoffInterpolates | lib/paper-trading.ts:195-197 | between two spots with no strike between them the payoff is the line joining its values there |
| Payoff.SlopeAboveStrikes | lib/paper-trading.ts:209-211 | above every strike the slope is the net number of calls |
| Payoff.LiveLegsPayoff | lib/paper-trading.ts:199 | dropping legs that are no open options changes the payoff at no spot |
| Payoff.PayoffAround | lib/paper-trading.ts:205-207 | at every spot the payoff lies between the values at the kinks around it, or on the last line |
| Payoff.Extremes | lib/paper-trading.ts:209-215 | the best and worst values at the kinks are attained and never passed over all spots, or absent exactly when every amount is passed |
| Breakevens.FindBreakevens | lib/paper-trading.ts:217-230 | the loop lists exactly the crossings between kinks, the zeros at strikes and the crossing beyond the last strike |
| Breakevens.BreakevenIsZero | lib/paper-trading.ts:217-230 | everything listed is a zero of the payoff |
| Breakevens.ZeroIsCovered | lib/paper-trading.ts:217-230 | every positive zero is listed, or the payoff is zero from it to a listed strike |
| Breakevens.ListedExactlyWhen | lib/paper-trading.ts:217-230 | a spot is listed if and only if the payoff is zero there and it is a strike, or positive with no other zero near it |
| PayoffAtExpiry.ToPaiseIsClose | lib/paper-trading.ts:231 | rounding gives a whole number of paise, the nearest, and the higher of two that are as near |
| PayoffAtExpiry.RoundedBreakevens | lib/paper-trading.ts:231 | after rounding, sorting and dropping repeats the list holds exactly the break-evens, to the paisa, and covers every positive zero |
| PayoffAtExpiry.CurveIsExact | lib/paper-trading.ts:240-243 | straight lines between neighbouring points of an ascending curve through all strikes are the payoff itself |
| PayoffAtExpiry.CurveRange | lib/paper-trading.ts:235-239 | the curve ends a margin beyond the lowest and highest of the strikes and the current spot: a quarter of their distance, a hundredth of the lowest strike, or 1, whichever is most; but not below zero |
| PayoffAtExpiry.DrawCurve | lib/paper-trading.ts:233-243 | the curve has just these ends, between them exactly the strikes and the break-evens in its range, and its straight lines are the payoff |
| PayoffAtExpiry.OneUnderlying | lib/paper-trading.ts:199-204 | the open options have one underlying exactly when the set of theirs has one element |
| PayoffAtExpiry.SummarizePayoff | lib/paper-trading.ts:198-249 | there is a summary exactly when the open options are of one underlying; then extremes and break-evens are exact, and so is the curve |
| PayoffAtExpiry.SummarizeBoughtCall | lib/paper-trading.ts:184-249 | a bought call gains without limit, loses its cost at worst and breaks even at strike plus cost |
| PayoffAtExpiry.SummarizeBoughtPut | lib/paper-trading.ts:184-249 | a bought put gains strike less cost at best, loses its cost at worst and breaks even at strike less cost |
| PayoffAtExpiry.CostsLower | lib/paper-trading.ts:184-193 | raising the cost of every leg lowers the payoff by that much times the net quantity of open options |
| PayoffAtExpiry.OtherLegsDoNotPrevent | lib/paper-trading.ts:199 | a leg that is no option, beside one that is, leaves one underlying |
| PayoffAtExpiry.CommentAgreesExactlyWhen | lib/paper-trading.ts:178-204 | code and comment agree on whether there is a summary exactly when every leg dropped is an option of the one underlying of the open ones, or, with none open, the legs are not all options of one underlying |
| PayoffAtExpiry.CommentAgreesOnOpenLegs | lib/paper-trading.ts:178-204 | for legs that have a quantity, exactly when all are options or the open ones are not of one underlying |
| FillsCsv.CellReadBack | lib/paper-trading.ts:775-780 | a reader of RFC 4180 gets back the guarded text of every cell, whatever characters it holds |
| FillsCsv.RowReadBack | lib/paper-trading.ts:824 | a written row reads back as its cells |
| FillsCsv.FileReadBack | lib/paper-trading.ts:824 | a written file reads back as its rows |
| FillsCsv.GuardLosesOnlyItsMark | lib/paper-trading.ts:778 | two texts are shown alike exactly when they are equal or one is the other with the guard's mark written in front |
| FillsCsv.GuardsExactlyFormulas | lib/paper-trading.ts:773-778 | a text is marked exactly when it begins with =, +, @, a tab or a carriage return, and nothing shown begins so |
| FillsCsv.QuotedExactlyWhen | lib/paper-trading.ts:773-779 | a cell is quoted exactly when it holds a comma, a quote or a line break, and is otherwise written as it is |
| FillsCsv.EndsWithLineBreak | lib/paper-trading.ts:824 | the file ends with a line break |
| FillsCsv.FirstColumns | lib/paper-trading.ts:788-818 | under each of the first eleven headings stands the fill's own value |
| FillsCsv.CostColumns | lib/paper-trading.ts:783-819 | under each cost heading stands that line of the costs, or 0 |
| FillsCsv.LastColumns | lib/paper-trading.ts:801-822 | under each of the last three headings stands the fill's own value, and there are twenty |
| FillsCsv.WholeNumberReadBack | lib/paper-trading.ts:777 | a printed whole number reads as itself, with its sign |
| FillsCsv.NotAfterIsAnOrder | lib/paper-trading.ts:806 | the comparison fills are sorted by is a total preorder |
| FillsCsv.FillsReadBack | lib/paper-trading.ts:787-825 | the file reads back as the header and one row per fill in sorted order |
| FillsCsv.FillsOldestFirst | lib/paper-trading.ts:785-806 | sorting keeps every fill, oldest first, by leg within one time, and leaves ties as they were |
| ChatStream.DrainMore | lib/api.ts:2544-2549 | reading what has arrived and then the rest is reading it all at once, also when a payload is broken |
| ChatStream.DrainedIsPartial | lib/api.ts:2541-2543 | after each read the buffer holds no complete frame |
| ChatStream.FrameHeard | lib/api.ts:2541-2548 | a frame of several lines hands on the data of its first data line, one without data nothing, and one whose data does not parse ends the reading |
| ChatStream.ReadStream | lib/api.ts:2533-2550 | however the stream is cut, what is delivered and what is left are those of one read of the whole |
| ChatStream.BrokenStays | lib/api.ts:2548 | a payload that does not parse ends the reading, and nothing that arrives later changes what was delivered |
| ChatStream.WrittenReadBack | backend/src/api/routes/chat.py:149 | the payloads the server writes as frames are the payloads delivered, in order |
| ChatStream.OnlyPlainDelivered | lib/api.ts:2544-2549 | whatever arrives, a payload handed on holds no line feed and parses, and nothing handed on before is lost |
| ChatStream.ReadBackExactlyWhenPlain | backend/src/api/routes/chat.py:149 | written payloads are read back, all and in order with nothing left over, if and only if each is one line and parses |
| SessionProtocol.RetriedExactlyWhen | backend/src/api/routes/auth.py:386-408 | in every state tabs that take turns can reach, a spent token in the cookie is forgiven exactly when it comes back in time and was replaced |
| SessionProtocol.JudgeKeepsInv | backend/src/api/routes/auth.py:292-379 | judging a token ends the family exactly when it was spent, still decodes, and comes back too late or was never replaced, and otherwise keeps the invariant |
| SessionProtocol.IssueKeepsInv | backend/src/api/routes/auth.py:197-212 | issuing the replacement, in its own commit, keeps the invariant |
| SessionProtocol.StepKeepsInv | lib/api.ts:91-108 | over every step of every tab and of the server, failing between its commits and lost replies included, the family ends exactly when a spent token that still decodes comes back too late or was never replaced; until then the invariant is kept |
| SessionProtocol.FamilyEndsExactlyWhen | backend/src/api/routes/auth.py:325-348 | over every run of tabs taking turns the family ends, with every token revoked and for good, exactly when some spent token that still decoded came back too late or without having been replaced |
| SessionProtocol.SignedOutStays | backend/src/api/routes/auth.py:319-348 | once every token is revoked no step of any tab, in turns or not, brings the session back |
| SessionProtocol.StepKeepsReplaced | backend/src/api/routes/auth.py:376-383 | unless the server fails between its commits, no token comes back that was never replaced |
| SessionProtocol.FamilyEndsExactlyWhenLate | backend/src/api/routes/auth.py:386-395 | over every run of tabs taking turns in which the server never fails between its commits, whatever replies get lost, the family ends exactly when some spent token that still decoded came back too late |
| SessionProtocol.FailureEndsTheFamily | backend/src/api/routes/auth.py:376-383 | one failure between the two commits, and the token presented again at once: the family ends, within any grace |
| SessionProtocol.StepKeepsUpToDate | lib/api.ts:91-94 | while no reply is lost, each step keeps every outstanding request's token the newest one and never presented before |
| SessionProtocol.TurnsKeepTheSession | lib/api.ts:91-108 | over every such run the family never ends, at most one request is outstanding and no token is presented twice |
| SessionProtocol.RaceEndsTheFamily | lib/api.ts:55-60 | without turns a run of two tabs revokes the whole family although no reply is lost |
| SessionProtocol.SessionSurvivesExactlyWithTurns | lib/api.ts:91-101 | every run without lost replies keeps the session if and only if there is a lock or only one tab |
| SessionProtocol.LockIsNeverStuck | lib/api.ts:99-105 | over every run a lock is held only by a tab whose refresh is on its way |
| SessionProtocol.SendPostsExactlyWhen | lib/api.ts:91-101 | a waiting tab posts the cookie of that moment exactly when there is no lock or no refresh is on its way |
| SessionProtocol.TurnPassesOn | lib/api.ts:99-105 | however a refresh ends, its lock is free and any waiting tab can send |
| SessionProtocol.CookieAfter | backend/src/api/routes/auth.py:211-212 | a granted reply leaves the new token in the cookie, a refusal nothing, and nothing else changes it |
| SessionProtocol.SeenAfter | backend/src/api/routes/auth.py:296-312 | every token that is judged is recorded as presented, and no other |
| SessionProtocol.AcceptedExactlyWhen | backend/src/api/routes/auth.py:301-379 | a token is accepted exactly when it decodes, has not expired, its user is active, and it is unused or was used in time and replaced |
| SessionProtocol.AcceptedIsSpent | backend/src/api/routes/auth.py:376-379 | an accepted token is spent, at the time it first was |
| SessionProtocol.RefreshRenews | lib/api.ts:68-108 | a refresh of an unused token, from call to reply, leaves a fresh token in the cookie, the old one spent and the lock free |
| SessionProtocol.RefusalForgets | backend/src/api/routes/auth.py:276-284 | a refusal empties the cookie, revokes a token whose stored expiry is over, and leaves everything else as it was when the token does not decode |
| ApiClient.RefreshFacts | lib/api.ts:57-89 | a refresh is one request; a renewed one leaves a token, a refused one none, a transient one what there was |
| ApiClient.CallFacts | lib/api.ts:120-159 | a call is sent once or twice, twice only after a renewal, and 401 surfaces only without a token, after a refusal or from the second try |
| ApiClient.TransientRefreshShows | lib/api.ts:137-142 | a refresh that could not be judged surfaces as a transient failure, never as the 401, and keeps the token |
| ApiClient.RenewalExactly | lib/api.ts:70-88 | exactly which answers renew, refuse or leave open a refresh, and the token and status they bring |
| ApiClient.CallYields | lib/api.ts:120-159 | what a call gives for every answer: the data of its JSON body, nothing, the server's status, or an error of the exchange; and after a 401 what the refresh makes of it |
| ApiClient.RealAnswers | lib/api.ts:110-118 | the server's refusals are real answers; overload, faults and a lost connection are not |
| ApiClient.Client.PostRefresh | lib/api.ts:68-89 | the request does what a refresh is specified to do, token and outcome |
| ApiClient.Client.RequestWithResponse | lib/api.ts:120-159 | the method with its one retry does what a call is specified to do |
| SharedRefresh.StepKeepsValid | lib/api.ts:55-108 | every step of every caller and of the refresh keeps one refresh at most in progress, and every caller's sends and result what its own answers and the refresh it joined say |
| SharedRefresh.RunIsFair | lib/api.ts:120-159 | in every interleaving at most one refresh is in progress, each call is sent at most twice, a refresh that could not be judged reaches its callers as transient, and a 401 only a caller without a token, after a refusal or from the second try |
| SharedRefresh.TokenAfter | lib/api.ts:68-89 | the token is what a sign-in or sign-out sets or a refresh's answer makes of it, and nothing else changes it |
| SharedRefresh.BegunExactlyWhen | lib/api.ts:95-108 | a refresh is begun exactly when someone needs one and none is in progress |
| SharedRefresh.OverExactlyWhen | lib/api.ts:103-105 | a refresh is over exactly when it is answered and its promise settles |
| SharedRefresh.OneForAll | lib/api.ts:55-60 | until a refresh is over no other is begun, however many callers find their token expired, and all who then need one are given it |
| SharedRefresh.JoinedStays | lib/api.ts:95-108 | a caller who joined a refresh gets that refresh's outcome and no other's, whatever happens in between |
| SharedRefresh.JoinersFareAlike | lib/api.ts:134-143 | callers of one refresh that was not renewed get the same result, and all of them are sent equally often |
| SharedRefresh.JoinedGoesOn | lib/api.ts:103-107 | no caller is left waiting: once its refresh is answered and settled, it goes on |
| SharedRefresh.AloneIsCall | lib/api.ts:120-159 | a caller alone in its tab gets the result, the number of sends and the token that a call is specified to give |
| SharedRefresh.SharingTab.RefreshSession | lib/api.ts:95-108 | gives the refresh in progress, and begins one only when there is none |
| SharedRefresh.SharingTab.Receive | lib/api.ts:132-158 | an answer does the specified step: join a refresh on a 401, or end the call |
| SharedRefresh.SharingTab.GoOn | lib/api.ts:135-143 | a caller whose refresh settled does the specified step: send again, or end with the 401 or the transient failure |
| SharedRefresh.SharingTab.Drive | lib/api.ts:55-159 | the tab driven by any list of events is in the state the run function gives, and every caller is treated as stated |
| SessionRestore.NoSessionIsRealAnswer | components/auth/auth-provider.tsx:66-88 | "no session" comes only from a refused refresh or from a call that failed with a real answer |
| SessionRestore.RestoredIsDetermined | components/auth/auth-provider.tsx:56-97 | a server's answers determine with which attempt and in which state restoring ends |
| SessionRestore.AskedExactly | components/auth/auth-provider.tsx:74-88 | what asking who is signed in comes to, by what the call yields |
| SessionRestore.WellAnsweredSignsIn | components/auth/auth-provider.tsx:63-78 | a refresh and a user request both answered well sign the user in at the first attempt |
| SessionRestore.HeldTokenSignsIn | components/auth/auth-provider.tsx:63-78 | so does a held token, renewed on the way if it expired |
| SessionRestore.RefusedEndsAtOnce | components/auth/auth-provider.tsx:64-69 | a refused refresh ends the first attempt with no further request |
| SessionRestore.UnreachableExactlyAfterFour | components/auth/auth-provider.tsx:89-92 | unreachable exactly when four attempts taught nothing |
| SessionRestore.UnauthenticatedExactlyWhenRefused | components/auth/auth-provider.tsx:66-88 | unauthenticated exactly when one of the four attempts, after ones that taught nothing, was answered "no session" |
| SessionRestore.MomentsWithin | components/auth/auth-provider.tsx:56-97 | every look of every attempt, and of the delay after one that taught nothing, comes no later than the moment restoring ends |
| SessionRestore.StopsBeforeEnd | components/auth/auth-provider.tsx:80-94 | a flag that some look sees set was set by the moment restoring would have ended |
| SessionRestore.AuthProvider.TryOnceNow | components/auth/auth-provider.tsx:63-88 | an attempt stops exactly when one of its looks, one after each request, sees the cancel flag set; otherwise it has the specified outcome and leaves the specified client |
| SessionRestore.AuthProvider.Rehydrate | components/auth/auth-provider.tsx:56-97 | the loop stops at the first look that sees the flag set, still loading and with the user as it was; otherwise no look saw it and it ends where the specification says; a flag that stays set stops it exactly when it is set by the moment it would end |
| SessionRestore.RestoreWellAnswered | components/auth/auth-provider.tsx:56-97 | a page load that is answered well, and not left meanwhile, ends authenticated with the user it was given |
| Poller.StepKeepsValid | lib/poller.ts:30-82 | every operation keeps the poller's invariant: the slots tell exactly what is pending and outstanding |
| Poller.RunIsSafe | lib/poller.ts:1-5 | in every run at most one task is outstanding and one timer pending, a running poller has one of the two, a stopped one no timer |
| Poller.StartsExactlyWhen | lib/poller.ts:41-82 | exactly which operation in which state starts a task |
| Poller.RunsExactlyWhen | lib/poller.ts:63-73 | a poller runs from a start until a stop, and through everything else |
| Poller.OutstandingExactlyWhen | lib/poller.ts:41-50 | a task is outstanding from its start until it settles |
| Poller.RemembersExactlyWhen | lib/poller.ts:52-81 | that a tick was skipped is remembered from a hidden tick until a resume while running |
| Poller.PendingAfter | lib/poller.ts:35-82 | which timer is pending after every operation: the one armed when a task settles or a tick is skipped, none after a stop, a tick or a catching up, else the one before |
| Poller.StartsBounded | lib/poller.ts:41-82 | over every run no more tasks are started than there were starts, refreshes, resumes and visible ticks |
| Poller.HiddenRunStartsNothing | lib/poller.ts:55-59 | while the tab is hidden no tick, however many, starts a task |
| Poller.ShownAgainCatchesUp | lib/poller.ts:75-81 | after a tick skipped while hidden, becoming visible always leaves a task running and the skip forgotten |
| Poller.StoppedStaysQuiet | lib/poller.ts:69-73 | once stopped, nothing but a start or a refresh ever starts a task or arms a timer |
| Poller.SettledSchedulesNext | lib/poller.ts:41-50 | when a task ends, well or badly, exactly one new timer is pending |
| Poller.PollerObject.ArmTimer | lib/poller.ts:35-39 | replaces the pending timer, only while running |
| Poller.PollerObject.Refresh | lib/poller.ts:41-50 | joins the task in flight or starts one |
| Poller.PollerObject.Tick | lib/poller.ts:52-61 | a tick does the specified step: skip while hidden, else run |
| Poller.PollerObject.Start | lib/poller.ts:64-68 | a start does the specified step |
| Poller.PollerObject.Stop | lib/poller.ts:69-73 | a stop does the specified step |
| Poller.PollerObject.Resume | lib/poller.ts:75-81 | a resume does the specified step |
| Poller.PollerObject.Drive | lib/poller.ts:25-83 | the object driven by any list of operations is in the state the run function gives |
| Query.StepKeepsValid | lib/use-query.ts:40-81 | renders, effects, refreshes and answers keep the invariant that binds tasks, effects and what is loaded to their keys |
| Query.ShownIsForTheKey | lib/use-query.ts:19-24 | in every run, what is shown without loading or error was fetched for the key shown |
| Query.OnlyLiveTasksShow | lib/use-query.ts:48-62 | only an answer to the live effect's task, fetched for its key, changes what is shown |
| Query.LiveReplyShows | lib/use-query.ts:49-62 | an answer to the live effect's task is shown at once without error, a failure beside the data there was |
| Query.AnswerEndsLoading | lib/use-query.ts:60-87 | an answer for what is on screen ends its loading |
| Query.FlushExactly | lib/use-query.ts:41-81 | effects start one fetch, for what is on screen, exactly when what it depends on changed and it is not held off |
| Query.NewKeyLoads | lib/use-query.ts:87 | a new key is loading from its render on |
| Query.StartedBy | lib/use-query.ts:63-85 | a poll or a refresh starts one task, of the live or the newest effect, with the newest fetcher |
| Query.GoneShowsNothing | lib/use-query.ts:65-80 | once the page has gone nothing under way is shown |
| Query.SupersededStays | lib/use-query.ts:66-81 | an effect that was replaced never becomes live again |
| Query.SlowAnswerIsDropped | lib/use-query.ts:21-22 | an answer to a replaced effect's task, however late, changes nothing that is shown |
| Query.TasksKeepTheirKey | lib/use-query.ts:49-51 | a task belongs to one effect and one key until it is answered |
| Query.ResultsMoveForward | lib/use-query.ts:53 | what is shown never goes back to an earlier effect's result, nor to nothing |
| Query.QueryHook.StartTask | lib/use-query.ts:49-65 | starting a task does the specified step |
| Query.QueryHook.RunEffects | lib/use-query.ts:41-81 | flushing the effects after a render does the specified step, cleanup first |
| Query.QueryHook.Finish | lib/use-query.ts:50-61 | an answer does the specified step |
| Query.QueryHook.Drive | lib/use-query.ts:25-88 | the hook driven by any list of events is in the state the run function gives, and shows only what is for its key |
| Calendar.FormulaIsDayFromYear | lib/dates.ts:12 | the day number of a year's first day by the formula of section 21.4.1.6 of ECMA-262 (2024) is the sum of the years' lengths, before and after 1970 |
| Calendar.DateOfDay | lib/dates.ts:13 | the date of a day number has that day number |
| Calendar.DayOfDate | lib/dates.ts:12-13 | a real date is the date of its day number |
| Calendar.DaysInOrder | lib/dates.ts:12 | real dates are in calendar order exactly when their day numbers are |
| Calendar.MonthsByRule | lib/dates.ts:12 | from March on the days before a month follow the rule of 153 days to five months |
| Calendar.MonthDays | lib/dates.ts:8-13 | April, June, September and November have 30 days, February 28 or 29, the others 31 |
| Calendar.NextDay | lib/dates.ts:12-17 | the day after the last of a month is the first of the next, over the end of a year too |
| Calendar.FirstDay | lib/dates.ts:12 | days are counted from 1 January 1970 |
| Calendar.DayLength | lib/dates.ts:6 | a day has twenty-four hours, and a time a hundred million days either way |
| Dates.UtcOfText | lib/dates.ts:9-14 | the text of a real day of the years 100 to 9999 is read as that day's midnight |
| Dates.UtcOfRealDaysOnly | lib/dates.ts:8-14 | a text is read if and only if it is the text of such a day |
| Dates.ReadExactlyWhen | lib/dates.ts:8-14 | a text is read if and only if it has the form of a day and names a date on the calendar, by the days each month has, not before the year 100 |
| Dates.DayAfter | lib/dates.ts:20-22 | the day after the last of a month is printed as the first of the next |
| Dates.SignedYear | lib/dates.ts:16-18 | a year without four digits is printed with its sign and six digits |
| Dates.ReadThenPrinted | lib/dates.ts:13-18 | what was read prints as the same text |
| Dates.PrintedThenRead | lib/dates.ts:9-18 | a printed time within those years reads back as the midnight of its day |
| Dates.DayReadBack | lib/dates.ts:9-18 | a day reads back from its text exactly when it lies within those years |
| Dates.TextsInOrder | lib/dates.ts:9-14 | day texts are in text order exactly when their days are |
| Dates.AddedDaysBetween | lib/dates.ts:20-27 | for every count of days, the days between a day and the sum are that count exactly when the sum lies within those years |
| Dates.EarlyDayIsNotCounted | lib/dates.ts:20-27 | the day before 1 January 0100 is printed, but the days to it are not counted as -1 |
| ReportPeriod.AcceptedExactlyWhen | lib/investor-report-period.ts:12-25 | a period is accepted exactly when both ends are days in order, it is no longer than its cadence allows and it ends by today, if today is a day; a week has seven days and a month at most thirty-one |
| ReportPeriod.ReasonGiven | lib/investor-report-period.ts:14-18 | a missing or unreadable end is the reason given exactly when it is the first that applies |
| ReportPeriod.ReasonForDays | lib/investor-report-period.ts:19-24 | between two days, exactly when which reason is given, and with which count of days |
| ReportPeriod.WeekDaysGoOn | lib/investor-report-period.ts:32 | 1 January 1970 was a Thursday, and the days of the week follow one another |
| ReportPeriod.WholeWeek | lib/investor-report-period.ts:27-35 | the week is a Monday to the Sunday six days on, the last one before today |
| ReportPeriod.WeekOffered | lib/investor-report-period.ts:29-35 | the weekly period offered is that week, and it is accepted exactly when its Monday can be written |
| ReportPeriod.PreviousBegins | lib/investor-report-period.ts:36-38 | the first day computed is the first of the previous calendar month, December before January |
| ReportPeriod.PreviousEnds | lib/investor-report-period.ts:36-39 | the previous month's length, 28 to 31 days, is exactly what lies before this month |
| ReportPeriod.EarlyWeekIsRejected | lib/investor-report-period.ts:29-35 | on 1 January 0100 the week offered is rejected |
| ReportPeriod.EarlyMonthIsRejected | lib/investor-report-period.ts:36-39 | on 1 January 0100 the month offered is rejected |
| ReportPeriod.MonthOffered | lib/investor-report-period.ts:36-39 | the monthly period offered is exactly the previous calendar month, and it is accepted exactly when that month can be written |
| PipelineFeed.AppendKeepsAll | components/mission-control/agent-pipeline-panel.tsx:201-207 | a merge adds exactly the new events, each once, while there are no more than 400 |
| PipelineFeed.FeedConverges | components/mission-control/agent-pipeline-panel.tsx:201-207 | whatever the order, overlap and repetition of the batches, the feed holds exactly their events, each once |
| PipelineFeed.AppendLimits | components/mission-control/agent-pipeline-panel.tsx:205 | the feed never outgrows its limit, and a batch with nothing new changes nothing |
| PipelineFeed.AddedInOrder | components/mission-control/agent-pipeline-panel.tsx:203-204 | new events keep their order, and each is added exactly when it is not in the feed |
| PipelineFeed.NewestStay | components/mission-control/agent-pipeline-panel.tsx:205 | what was there comes before what is new, and of more than 400 the newest stay |
| PipelineFeed.ConvergesExactlyWithinLimit | components/mission-control/agent-pipeline-panel.tsx:201-207 | everything that arrived is in the feed if and only if it is no more than 400 events |
| PipelineFeed.OneTooMany | components/mission-control/agent-pipeline-panel.tsx:205 | of 401 events in one batch not all are kept |
| PipelineFeed.NeverDuplicates | components/mission-control/agent-pipeline-panel.tsx:203-205 | batches without duplicates in themselves never bring one into the feed, however many events arrive |
| PipelineFeed.DistinctExactlyWhen | components/mission-control/agent-pipeline-panel.tsx:203-205 | within the limit the feed stays without duplicates if and only if a batch repeats in itself only events that are in the feed already |
| PipelineFeed.RepeatedInBatch | components/mission-control/agent-pipeline-panel.tsx:203-205 | a new event twice in one batch would be kept twice |
| PipelineFeed.BuildRunView | components/mission-control/agent-pipeline-panel.tsx:82-181 | the loop, rewriting rows in place, yields the fold of the run's events in sequence order |
| PipelineFeed.Interrupt | components/mission-control/agent-pipeline-panel.tsx:117-122 | exactly the running rows become failed as interrupted |
| PipelineFeed.SortAscends | components/mission-control/agent-pipeline-panel.tsx:83 | events of distinct sequence numbers are put in strictly ascending order, all of them and no others |
| PipelineFeed.AscendingIsUnique | components/mission-control/agent-pipeline-panel.tsx:83 | there is one way to put events in that order |
| PipelineFeed.ViewIgnoresArrival | components/mission-control/agent-pipeline-panel.tsx:82-181 | feeds with the same events show every run alike |
| PipelineFeed.PanelsAgree | components/mission-control/agent-pipeline-panel.tsx:82-207 | panels that received the same events in any batches, orders and repetitions show every run alike |
| PipelineFeed.RowsAreOpenings | components/mission-control/agent-pipeline-panel.tsx:124-177 | there is one row per start or skip, in order, for the node and step it names, or else `?` and its own number, and nothing later changes that |
| PipelineFeed.RunningExactlyWhen | components/mission-control/agent-pipeline-panel.tsx:113-165 | a row shows as running exactly when a start opened it and no later event ends it |
| PipelineFeed.LastEndIsTold | components/mission-control/agent-pipeline-panel.tsx:113-165 | of all ends of a row's step the last is the one the row tells of, and the death of the process does not change it |
| PipelineFeed.EndedKeeps | components/mission-control/agent-pipeline-panel.tsx:136-165 | an end leaves alone what it does not tell |
| PipelineFeed.UnendedRow | components/mission-control/agent-pipeline-panel.tsx:113-177 | a row whose step never ended says it was skipped, runs on, or was interrupted |
| PipelineFeed.ViewSaysLast | components/mission-control/agent-pipeline-panel.tsx:97-123 | status, objective and lessons are those of the last event that tells them |
| PipelineFeed.ViewBegins | components/mission-control/agent-pipeline-panel.tsx:83-180 | a view begins when its run's earliest event was made |
| PipelineFeed.AbandonedRunHasNoRunningRow | components/mission-control/agent-pipeline-panel.tsx:113-123 | a run whose last event says its process died has no running row and shows as interrupted |
| EquityChart.RunsHoldTheMeasured | lib/equity-chart.ts:35-49 | maximal runs of measured readings together hold exactly the measured readings, in order |
| EquityChart.MeasuredRuns | lib/equity-chart.ts:36-49 | the loop yields the maximal runs |
| EquityChart.FindGaps | lib/equity-chart.ts:97-107 | the gaps found are maximal, apart and in order, cover every unmeasured reading and are shaded from neighbour to neighbour, two wide at least |
| EquityChart.ShadedExactlyOnce | lib/equity-chart.ts:97-107 | a reading belongs to a gap exactly when it is unmeasured, and to one gap |
| EquityChart.EarlierIsLeft | lib/equity-chart.ts:77 | under the horizontal scale readings in the order of their times are drawn from left to right |
| EquityChart.EdgesOfWidth | lib/equity-chart.ts:77 | the first time is drawn at the left edge, the last at the right, a single one in the middle |
| EquityChart.ShadesItsReadings | lib/equity-chart.ts:97-105 | drawn from left to right, every reading of a gap lies within the range the gap shades |
| EquityChart.OverlapOnlyWhenWidened | lib/equity-chart.ts:105 | drawn from left to right, two shaded ranges overlap only where the first was widened to two points |
| EquityChart.ScaleOf | lib/equity-chart.ts:64-78 | every level lies strictly inside the scale, which is never of no height, even for a single value |
| EquityChart.LevelsExactly | lib/equity-chart.ts:64-68 | the levels are the measured equities, peaks and trip levels and nothing else |
| EquityChart.ScaleReaches | lib/equity-chart.ts:69-73 | the scale reaches six hundredths of the spread past the levels, or of the single level, or 0.06 |
| EquityChart.EdgesOfHeight | lib/equity-chart.ts:71-78 | where the highest and lowest level are drawn, and a single one half way up |
| EquityChart.LowerIsLower | lib/equity-chart.ts:78 | a value is drawn at or below another exactly when it is at most as high |
| EquityChart.LineMeetsTripExactly | lib/equity-chart.ts:6-9 | the line is at or below the trip line exactly when the equity is at most the peak less the limit |
| CiPlan.JobsExactlyWhen | backend/scripts/ci_plan.py:130-153 | exactly which changed files need the backend, frontend, end-to-end and image jobs |
| CiPlan.Documentation | backend/scripts/ci_plan.py:34-37 | examples of what is documentation and what is not |
| CiPlan.JobFiles | backend/scripts/ci_plan.py:39-52 | the directories and files each job looks at |
| CiPlan.MeasuredFiles | backend/scripts/ci_plan.py:54-60 | the files that re-measure every module, and those that re-measure one |
| CiPlan.MutationExactlyWhen | backend/scripts/ci_plan.py:155-164 | a module is measured again exactly when a changed file re-measures it |
| CiPlan.PlanOfUnionIsJoin | backend/scripts/ci_plan.py:124-176 | the plan of two lists of files together is the join of their plans |
| CiPlan.PlanDependsOnRelevantFiles | backend/scripts/ci_plan.py:130-138 | a plan grows with the files that are not documentation, whatever their order or repetition, and never beyond everything |
| CiPlan.OnlyAReadDiffSkips | backend/scripts/ci_plan.py:245-265 | a job is skipped only on a branch whose diff was read and leaves the CI definition alone |
| CiPlan.DecidedExactly | backend/scripts/ci_plan.py:245-265 | everything runs exactly for a dispatched or scheduled run, a tag or an unread diff; otherwise the diff's own plan |
| CiPlan.UnknownCountsAsMoved | backend/scripts/ci_plan.py:125-129 | settings not known to be unmoved count as moved |
| CiPlan.EverythingIsAll | backend/scripts/ci_plan.py:92-100 | everything is every job and every module |

## Left out

- Rendering, wording and styles; the SVG paths, ticks and dots of the chart and the text of its summary.
- Rounding of floating-point numbers: money, spots, quantities and chart positions are exact reals, and a
  break-even is rounded to the paisa as an exact number.
- The pattern of an option symbol: a leg comes with its parsed contract, or without one.
- `groupFills`, `waterfall`, `settleDesk`, `costLines`: sums and groupings that would add easy members only.
- FillsCsv.FillsReadBack: a number's text is taken as given, as long as it holds no comma, quote or line
  break; the India time stamp is any text.
- ChatStream.WrittenReadBack: payloads hold no line feed, as the server's JSON never does. Bytes are decoded before the
  model begins, and which payloads parse is a parameter.
- ChatStream.ReadStream: the request before the stream, its retry after a 401 and cancelling are not part of it.
- SessionProtocol.TurnsKeepTheSession: sign-in and sign-out racing a refresh, and a request that outlives the page
  that sent it and so the page's lock, are not modelled; the server's clock moves with every request it judges.
- SessionProtocol.StepKeepsInv: origin checks and audit entries are left out; whether a token still decodes, its stored
  expiry and whether its user is active are answers the environment may choose at every judging.
- ApiClient.Client.RequestWithResponse: headers, paths and the text of an error are left out. A good answer whose
  body is no JSON counts as a real answer, as its exception is not a `TypeError`.
- SessionRestore.AuthProvider.Rehydrate: the length of the delays and the background retry of an unreachable
  server are left out.
- SharedRefresh.SharingTab.Drive: a refresh is begun as one step, whether it then waits for the lock across tabs
  or not; the lock is part of `SessionProtocol`.
- Poller.PollerObject.Drive: the length of the interval is left out; a timer may fire at any time.
- Query.ShownIsForTheKey: two refreshes of one key may be answered in either order, as the code leaves them; React
  applies one answer's state changes together.
- ReportPeriod.AcceptedExactlyWhen: the wording of a reason is left out; `todayInIndia` is the parameter `today`.
- PipelineFeed.ConvergesExactlyWithinLimit: which 400 of more events stay depends on the order of their arrival; `NewestStay`
  says it of one batch.
- PipelineFeed.BuildRunView: reading a payload's fields and summarising an output are parameters of an event;
  which run the panel chooses to show is left out.
- EquityChart.FindGaps: the horizontal scale is any function of a reading's time; only `EarlierIsLeft` and what
  builds on it take readings to be in the order of their times.
- CiPlan.PlanOfUnionIsJoin: the reasons printed beside a plan are left out, and so are git and the reading of
  `pyproject.toml`, whose verdict is a parameter.
- Paging, holidays, live limits, portfolio views, URL queries, the trading engine and brokers, start-up scripts.
