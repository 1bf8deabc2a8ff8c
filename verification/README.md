# H-Vault client: the verified model

H-Vault is an end-to-end encrypted password manager. This project models the
state machines and algorithms of its browser client in Dafny and proves what they
keep over every run and every input. `dafny verify dfyconfig.toml` checks it all.

| files | what they model |
|---|---|
| `AutoLock.dfy`, `AutoLockRuns.dfy`, `AutoLockHistory.dfy`, `AutoLockHook.dfy` | the auto-lock on a wall-clock deadline |
| `PacedBulk.dfy`, `PacedBulkRuns.dfy`, `BulkOutcome.dfy`, `BulkHistory.dfy` | a bulk action over documents and the paced sender under it, in every interleaving |
| `Calendar.dfy`, `CardExpiry.dfy`, `CardExpiryText.dfy` | card expiry, the calendar it counts on and the text it prints |
| `Fnv.dfy`, `CardExpiryDismissal.dfy` | the FNV-1a loop and the fingerprint of the warned cards |
| `Base64.dfy`, `AccessToken.dfy` | reading the access token |
| `LockSettings.dfy`, `UserSettings.dfy`, `UserSettingsHook.dfy` | the shared settings cache |
| `ConnectionStatus.dfy`, `ClipboardCountdown.dfy` | the connection indicator and the clipboard countdown |
| `DocumentSelection.dfy`, `TagField.dfy`, `BackupSignature.dfy` | the document selection, the tag editor and the backup signature verdict |
| `JsText.dfy`, `Options.dfy` | `trim`, numerals and padding; absent values |

A hook or module that updates variables is a class whose methods follow the
source's statements and are proved equal to a step of a specification; the lemmas
about every run are then about that step. Clock readings, the network's answers,
the JSON parser, the HMAC verifier and the time zone (its offset at each instant and
at each local midnight) are parameters, and a lemma holds for all of them. Instants are reals, so a fractional setting is not rounded.

## Assumptions

- One mount of the auto-lock hook is one unlocked session: the layout that mounts
  it gives way to the unlock screen. `lock()` marks the store locked before it
  first awaits (`packages/client/src/stores/authStore.ts:643-656`).
- A handler, and the code between two awaits, is one step. The bulk wrapper's
  `catch` and the sender's, a microtask apart, are one step with two readings of
  the clock: nothing either reads can change between them but that clock.
- `perRow` may settle in any way; only its own code can throw an error carrying
  the sender's message for a locked vault, and it cannot throw the wrapper's own error.
- Account and card ids hold no line break where the hashed text is compared.

## Where the code and its comments part

- A late wake locks, but an activity event handled first moves the activity stamp
  before anything is judged, so it forgives the idle deadline (`AutoLockRuns.EightHourSleep`).
  `AutoLockRuns.ActivityForgivesTheIdleDeadline` says exactly when it does not.
- A row reported as never sent may have been sent and refused with a short 429
  (`BulkOutcome.NotSentRowMayHaveBeenSent`); `BulkOutcome.NotSentRowWasNeverSentIff` says exactly when it was not.
- The row's count of 429s and the sender's agree, but each reads `Retry-After` for
  itself: a date can be short for one and long for the other. `PacedBulkRuns.CountersAgree`
  and `PacedBulkRuns.ReadingsAgreeIff` give the exact condition; a header in seconds always meets it,
  and `PacedBulkRuns.DateReadTwiceDisagrees` is a date that does not.
- Concurrent consumers share one settings fetch, except after another tab's
  invalidation, which starts one for each of them (`UserSettings.CrossTabInvalidationFetchesForEach`).
- A profile that arrives after its fetch was dropped is cached all the same, for
  whichever account is signed in by then (`UserSettings.LateAnswerIsCachedForTheNextUser`).
  `UserSettings.FreshRunIff` says exactly when a run never does so, and `UserSettings.OwnedRunIff`
  exactly when no account is given another's settings.
- Rounding makes `daysLeft` exact for any zone whose offset moves by less than
  half a day; a zone that leaves out a whole day is the exception
  (`CardExpiry.DaysLeftIsTheDayDifferenceIff`).
- Time only moves a card's status forward while the local clock is not set back: an
  offset that falls just after midnight brings the day before back
  (`CardExpiry.ClockSetBackUnexpires`; `CardExpiry.StatusGoesBackIff` gives the exact condition).
- A file key tried first would not yield `verified`: the verdict follows the key's
  source, so the file would be self-signed (`BackupSignature.FileKeyFirstIsSelfSigned`).

## Model

| member | source | states |
|---|---|---|
| `AutoLockHook.AutoLock.constructor` | packages/client/src/hooks/useAutoLock.ts:118-232 | A mount: the refs as created, the settings effect, then the session effect, are the state `Mounted` gives. |
| `AutoLockHook.AutoLock.NoteProgress` | packages/client/src/hooks/useAutoLock.ts:70-72 | Progress is stamped in a visible tab only, and touches nothing else. |
| `AutoLockHook.AutoLock.DeadlineAt` | packages/client/src/hooks/useAutoLock.ts:149-157 | The deadline is the earlier of the idle one and, while the tab is hidden and the setting on, the hidden one. |
| `AutoLockHook.AutoLock.Evaluate` | packages/client/src/hooks/useAutoLock.ts:173-208 | The whole new state of one evaluation is the specification's. |
| `AutoLockHook.AutoLock.HandleSettings` | packages/client/src/hooks/useAutoLock.ts:213-219 | New settings are in force before they are judged. |
| `AutoLockHook.AutoLock.HandleActivity` | packages/client/src/hooks/useAutoLock.ts:235-241 | A throttled activity changes nothing; any other moves the activity stamp, then evaluates. |
| `AutoLockHook.AutoLock.HandleVisibilityChange` | packages/client/src/hooks/useAutoLock.ts:243-270 | Hiding starts the hidden clock; becoming visible evaluates, retires it, and evaluates again. |
| `AutoLockHook.AutoLock.HandleWake` | packages/client/src/hooks/useAutoLock.ts:272-288 | Focus, `pageshow`, the armed timer and the poll are one and the same step. |
| `AutoLockRuns.EvaluateVerdict` | packages/client/src/hooks/useAutoLock.ts:173-208 | An evaluation of an open session requests the lock if a deadline has passed, credited progress considered, and otherwise keeps it open with a timer due by the deadline or the poll. |
| `AutoLockRuns.EveryRunIsGuarded` | packages/client/src/hooks/useAutoLock.ts:127-139 | In every run from a mount, whatever the clock and the timers do: at most one lock request, and every session still open has a timer due by the deadline or 20 s after its last evaluation. |
| `AutoLockRuns.LatchAloneStopsASecondRequest` | packages/client/src/hooks/useAutoLock.ts:131-137 | Once a lock is requested no run requests another, even if the store shows anything at all at each step. |
| `AutoLockRuns.OpenVaultHasRecentEvidence` | packages/client/src/hooks/useAutoLock.ts:180-195 | In every run a vault still open has a session start, a user action or a visible-tab progress stamp less than one timeout before its last evaluation, and no hidden delay that had run out. |
| `AutoLockRuns.PromptRunIsNeverOpenPastDeadline` | packages/client/src/hooks/useAutoLock.ts:195-207 | With timers that fire when due, no event ever finds an open vault past its deadline. |
| `AutoLockRuns.LateWakeLocks` | packages/client/src/hooks/useAutoLock.ts:252-274 | However late, the first timer, poll, focus, `pageshow` or return to the tab at or past a deadline requests the lock, the hidden deadline included. |
| `AutoLockRuns.EarlyWakeKeepsTheVaultOpen` | packages/client/src/hooks/useAutoLock.ts:252-274 | The converse: a wake before every deadline keeps the vault open and armed. |
| `AutoLockRuns.HiddenTabDoesNotReturnOpen` | packages/client/src/hooks/useAutoLock.ts:243-264 | A tab hidden past the delay in force is never open on its return, whatever settings changed, however often it was hidden anew, and whichever timers ran or did not in between. |
| `AutoLockRuns.ActivityForgivesTheIdleDeadline` | packages/client/src/hooks/useAutoLock.ts:235-241 | An activity that is not throttled requests the lock if and only if the hidden delay has run out, or a whole timeout passes inside its own handler, however long the idle deadline has passed. |
| `AutoLockRuns.EightHourSleep` | packages/client/src/hooks/useAutoLock.ts:75-92 | After eight hours asleep a wake locks the vault, and a pointer move handled before it leaves the vault open. |
| `AutoLockRuns.SettingsChangeIsJudgedAtOnce` | packages/client/src/hooks/useAutoLock.ts:210-219 | A saved change locks at once exactly when the deadline it sets has already passed. |
| `AutoLockRuns.MountOpensASessionIff` | packages/client/src/hooks/useAutoLock.ts:118-232 | Whatever its clock readings, a mount opens a session if and only if neither of its two effects finds a deadline passed; an open one is due one timeout after its newest sign of life, or one hidden delay after it was hidden; a mount that opens none requests the lock once, and only its session effect sets the latch. |
| `AutoLockRuns.PromptMountOpensASession` | packages/client/src/hooks/useAutoLock.ts:221-232 | A mount whose effects run at once always opens one, due one timeout, or one hidden delay, later. |
| `AutoLockRuns.CreditIsEarned` | packages/client/src/hooks/useAutoLock.ts:188-192 | In every step the activity stamp stays, or becomes the user action, or a progress stamp not ahead of the clock and under 60 s after the evaluation before it. |
| `AutoLockRuns.GapIgnoresStamps` | packages/client/src/hooks/useAutoLock.ts:49-54 | Across a gap of 60 s or more no stamp changes the verdict. |
| `AutoLockRuns.SleepIgnoresProgress` | packages/client/src/hooks/useAutoLock.ts:180-192 | A machine that slept past the deadline locks on waking, whatever progress was recorded before the wake was handled. |
| `AutoLockRuns.FutureStampLeavesNoTrace` | packages/client/src/hooks/useAutoLock.ts:184-189 | Whichever handler first evaluates a stamp ahead of the clock leaves the state of a session that never had it. |
| `AutoLockRuns.QuietVaultLocksOnTime` | packages/client/src/hooks/useAutoLock.ts:65-68 | A job and a user last heard of at t: while nothing else happens the timer is due by t plus the timeout, and every wake from then on finds or makes the vault locked. |
| `AutoLockHistory.VisibleJobIsNeverLocked` | packages/client/src/hooks/useAutoLock.ts:56-68 | A visible job whose last progress is under one timeout old each time the page looks at the clock, at least once a minute, is never locked, however long it takes. |
| `AutoLockHistory.ProgressIsCredited` | packages/client/src/hooks/useAutoLock.ts:70-72 | A stamp in a visible tab, then a wake: the vault is open and its idle clock runs from the stamp. |
| `AutoLockHistory.HiddenProgressIsIgnored` | packages/client/src/hooks/useAutoLock.ts:65-72 | From a hiding to the next return the run is the run without the job's progress. |
| `AutoLockHistory.PageFollowsTheEvents` | packages/client/src/hooks/useAutoLock.ts:213-270 | In every run the hidden clock is the last hiding's, and stopped by the last return, the timeout is the last setting's, and the throttle counts from the last activity handled. |
| `AutoLockHistory.MountSetsThePage` | packages/client/src/hooks/useAutoLock.ts:213-232 | A mount starts the hidden clock if the tab is hidden, and takes the settings it is given. |
| `AutoLockHistory.ActivityIsThrottledIff` | packages/client/src/hooks/useAutoLock.ts:234-241 | In every run an activity within a second of the last one handled changes nothing; any other is the newest sign of life, unless a job's is newer. |
| `AutoLockHistory.ClosedElsewhereStaysClosed` | packages/client/src/hooks/useAutoLock.ts:173-178 | After a lock from elsewhere or a sign-out no lock is requested, whatever follows, and the first wake drops the timer. |
| `PacedBulkRuns.EveryInterleavingKeepsInv` | packages/client/src/stores/vaultStore.ts:385-412 | In every interleaving each row is held by at most one worker, is settled once, and its 429 counter is the sender's retry counter, one ahead while a wait is on. |
| `PacedBulkRuns.EveryRunIsPaced` | packages/client/src/stores/vaultStore.ts:415-426 | At most four rows' requests are in flight, and no row is sent more than four times. |
| `PacedBulkRuns.CountersAgree` | packages/client/src/lib/documentBulk.ts:54-76 | A 429 stops the run on exactly the attempt the sender will not repeat, if and only if both readings of its `Retry-After` agree or the retries are spent. |
| `PacedBulkRuns.ReadingsAgreeIff` | packages/client/src/services/auth/sessionFailure.ts:244-263 | The two readings of a `Retry-After` agree if and only if it is no date that runs out, or comes within ten seconds, between them, in whichever order the clock puts them. |
| `PacedBulkRuns.DateReadTwiceDisagrees` | packages/client/src/lib/documentBulk.ts:97-98 | A date that comes within ten seconds between the two readings: the run stops, yet the sender waits to send the row again. |
| `PacedBulkRuns.StoppedRunCallsNothing` | packages/client/src/lib/documentBulk.ts:92-100 | Once a stop reason is set or the store was cleared, no row is ever sent again and the reason never changes; after a clearing the rows left are told of the lock. |
| `PacedBulkRuns.StopReasonIsAServerFault` | packages/client/src/lib/documentBulk.ts:67-76 | With agreeing readings, the run has stopped if and only if some row failed because of the server: no answer, a 5xx or a 429. |
| `PacedBulkRuns.RowHistory` | packages/client/src/lib/documentBulk.ts:86-98 | In every interleaving a row's counter is the number of 429s it was answered with, and its end tells whether its own code threw the sender's message. |
| `BulkHistory.EveryRunIsTraced` | packages/client/src/stores/vaultStore.ts:394-411 | In every interleaving rows are taken in order, and what each worker holds and each row ended with is what the row's own answers say. |
| `BulkHistory.ResultIsTheLastAnswer` | packages/client/src/lib/documentBulk.ts:88-101 | In every interleaving a row is fulfilled with exactly what its last call returned, and rejected with exactly what it failed with for good. |
| `BulkHistory.ShortRefusalIsSentAgain` | packages/client/src/stores/vaultStore.ts:472-497 | A short 429 is waited out and the row sent again, three times; the fourth fails the row and stops the run. |
| `BulkHistory.ShortHeaderIff` | packages/client/src/stores/vaultStore.ts:415-427 | A wait is short exactly when the header asks for ten seconds at most, in seconds or by a date; an unreadable one never is. |
| `BulkHistory.LockEndsTheSending` | packages/client/src/stores/vaultStore.ts:458-463 | Whatever follows a lock or a sign-out, no row is sent after it. |
| `BulkHistory.ServerEndsTheSending` | packages/client/src/lib/documentBulk.ts:46-53 | Whatever follows a server that does not answer, breaks or asks for a long wait, no row is sent after it, and the reason stays. |
| `PacedBulkRuns.RunIsNeverStuck` | packages/client/src/stores/vaultStore.ts:394-411 | Until a run is over some worker has a step to take, and when it is over every row has settled. |
| `PacedBulkRuns.EveryRunEnds` | packages/client/src/stores/vaultStore.ts:472-497 | Every interleaving ends, within nine steps a row and one for each worker. |
| `BulkOutcome.SortRows` | packages/client/src/lib/documentBulk.ts:107-138 | The loop that sorts the settled rows gives the specified outcome. |
| `BulkOutcome.ListIsInOrder` | packages/client/src/lib/documentBulk.ts:113-137 | Each list holds exactly the rows of its kind, in their original relative order. |
| `BulkOutcome.RefusalsAreTheFailedRows` | packages/client/src/lib/documentBulk.ts:126-136 | The failures are the failed rows in order, each with its own row's failure. |
| `BulkOutcome.OutcomePartitionsTheRows` | packages/client/src/lib/documentBulk.ts:36-45 | The four lists together hold every selected row, as often as it was selected. |
| `BulkOutcome.FinishedRunAccountsForEveryRow` | packages/client/src/lib/documentBulk.ts:82-139 | Whatever the interleaving, a finished run puts every row in exactly one list, and holds rows back only with a stop reason. |
| `BulkOutcome.NeverCalledRowsAreNotSent` | packages/client/src/lib/documentBulk.ts:93-93 | A row never sent is listed as not sent, and a row held back by the stop, or by the lock, was refused with a 429 each time it was sent. |
| `BulkOutcome.NotSentRowWasNeverSentIff` | packages/client/src/lib/documentBulk.ts:41-42 | A row listed as never sent was indeed never sent if and only if, in the whole run, it met no 429 and its own code did not throw the message of a locked vault. |
| `BulkOutcome.FinishedRunSaysWhyItStopped` | packages/client/src/lib/documentBulk.ts:120-138 | With agreeing readings, the outcome says the server stopped answering if and only if one of its failures is the server's. |
| `BulkHistory.OutcomeIsTheHistory` | packages/client/src/lib/documentBulk.ts:103-139 | The outcome, list by list and in order, from the steps alone: done and unchanged as each last call returned, failed with its last failure, not sent without a final answer. |
| `BulkHistory.ReasonIsOnTheLists` | packages/client/src/lib/documentBulk.ts:120-138 | With agreeing readings the reason is on the lists: the server's if a row failed because of it, else the lock's if a row is left over, else none. |
| `BulkOutcome.NotSentRowMayHaveBeenSent` | packages/client/src/lib/documentBulk.ts:41-42 | A run in which a row listed as never sent was sent once. |
| `Calendar.NextDayIsNextNumber` | packages/client/src/lib/cardExpiry.ts:123-125 | The date arithmetic behind `new Date(y, m, d)` gives the next Gregorian day the next day number. |
| `Calendar.DayNumberOrdersDates` | packages/client/src/lib/cardExpiry.ts:123-125 | Day numbers order dates as the calendar does, and tell them apart. |
| `Calendar.DateOfHasItsNumber` | packages/client/src/lib/cardExpiry.ts:123-125 | Counting days on or back from 1 January 1970 gives a date with that day number, for every day. |
| `Calendar.DayZeroIsTheLastDay` | packages/client/src/lib/cardExpiry.ts:142-145 | Day 0 of the following month is the last day of this one, December and leap Februaries included. |
| `CardExpiry.MonthIsReadIff` | packages/client/src/lib/cardExpiry.ts:97-103 | A month is read exactly from a trimmed numeral of one or two digits worth 1 to 12. |
| `CardExpiry.YearIsReadIff` | packages/client/src/lib/cardExpiry.ts:113-120 | A year is read exactly from two digits, in the 2000s, or from four worth at least 1000. |
| `CardExpiry.ReadIff` | packages/client/src/lib/cardExpiry.ts:134-150 | An expiry is read exactly when both parts are, and is expiring from sixty days before its last day. |
| `CardExpiry.DaysLeftIsTheDayDifferenceIff` | packages/client/src/lib/cardExpiry.ts:25-31 | `daysLeft` is the calendar day difference if and only if local midnight's offset moves by less than half a day, or exactly half a day forwards. |
| `CardExpiry.DaysLeftCountsToTheLastDay` | packages/client/src/lib/cardExpiry.ts:134-150 | Counting `daysLeft` days on from today, day by day on the calendar, reaches the last valid day. |
| `CardExpiry.ExpiredIffTheMonthIsOver` | packages/client/src/lib/cardExpiry.ts:11-14 | A card is expired if and only if today's year and month are after its own. |
| `CardExpiry.StatusNeverGoesBack` | packages/client/src/lib/cardExpiry.ts:123-148 | From one instant to a later one the days left never grow and the status never goes back, so long as the local clock is not itself set back. |
| `CardExpiry.StatusGoesBackIff` | packages/client/src/lib/cardExpiry.ts:123-148 | Between any two instants the days left do not grow if and only if the local day does not go back; the status goes back if and only if the local day goes back into the card's month, or to before its last sixty days. |
| `CardExpiry.ClockSetBackUnexpires` | packages/client/src/lib/cardExpiry.ts:123-148 | A clock set back over midnight: a card that had expired is expiring again a minute later. |
| `CardExpiry.SkippedDayReadsOneShort` | packages/client/src/lib/cardExpiry.ts:146-146 | In a zone that left out a day, `daysLeft` is one short of the calendar. |
| `CardExpiryText.PrintedExpiryReadsBack` | packages/client/src/lib/cardExpiry.ts:158-165 | Every recognised month and year print as seven characters whose parts parse back to them. |
| `CardExpiryText.FormatIsIdempotent` | packages/client/src/lib/cardExpiry.ts:152-171 | Printing recognised parts, splitting and printing again changes nothing. |
| `CardExpiryText.UnrecognisedIsShownAsStored` | packages/client/src/lib/cardExpiry.ts:166-171 | Anything else is shown as it is stored, trimmed, both parts around a slash or the one there is. |
| `CardExpiryText.NamedDaysAreAtLeastTwo` | packages/client/src/lib/cardExpiry.ts:183-188 | The phrase names a number of days if and only if that many are left and they are at least two. |
| `CardExpiryText.PhraseIff` | packages/client/src/lib/cardExpiry.ts:183-188 | Today, tomorrow and the past are named exactly for no day left, for one, and for fewer than none. |
| `CardExpiryText.LabelTellsTheMonth` | packages/client/src/lib/cardExpiry.ts:173-176 | The label of an expired card tells every month of every year apart. |
| `Fnv.LoopTurnIsFnvStep` | packages/client/src/lib/cardExpiryDismissal.ts:26-29 | One turn of the loop in signed 32-bit arithmetic is one FNV-1a step modulo 2^32. |
| `Fnv.Fnv1a32` | packages/client/src/lib/cardExpiryDismissal.ts:25-32 | The loop prints the FNV-1a hash of the bytes. |
| `Fnv.AlwaysEightHexDigits` | packages/client/src/lib/cardExpiryDismissal.ts:24-31 | A hash prints as exactly eight lower-case hex digits, worth the hash. |
| `Fnv.StepIsInjective` | packages/client/src/lib/cardExpiryDismissal.ts:27-30 | A step is one-to-one in the hash for each byte, and in the byte for each hash. |
| `Fnv.OneByteApartNeverCollide` | packages/client/src/lib/cardExpiryDismissal.ts:25-32 | Two strings of one length that differ in exactly one byte never print the same hash. |
| `CardExpiryDismissal.SortedIsCanonical` | packages/client/src/lib/cardExpiryDismissal.ts:42-42 | A multiset of pairs has one sorted sequence. |
| `CardExpiryDismissal.AtMostIsLexicographic` | packages/client/src/lib/cardExpiryDismissal.ts:42-42 | The order sorted by is the dictionary order of characters. |
| `CardExpiryDismissal.FingerprintIgnoresOrder` | packages/client/src/lib/cardExpiryDismissal.ts:34-44 | Every permutation of the warned cards has the same fingerprint. |
| `CardExpiryDismissal.FingerprintIsTheHash` | packages/client/src/lib/cardExpiryDismissal.ts:38-44 | The fingerprint is eight hex digits, worth the FNV-1a hash of the text's UTF-8 bytes. |
| `CardExpiryDismissal.TextTellsCardsApart` | packages/client/src/lib/cardExpiryDismissal.ts:5-9 | The hashed text is the same if and only if the account is, and every card with its status. |
| `CardExpiryDismissal.TextOfTwoCards` | packages/client/src/lib/cardExpiryDismissal.ts:42-43 | Two cards as they are hashed: the account, then the sorted pairs, a line each. |
| `CardExpiryDismissal.Utf8IsInjective` | packages/client/src/lib/cardExpiryDismissal.ts:27-27 | No two texts have the same UTF-8 bytes. |
| `CardExpiryDismissal.Utf8RoundTrip` | packages/client/src/lib/cardExpiryDismissal.ts:27-27 | Every text reads back from its UTF-8 bytes, decoded as RFC 3629 says. |
| `CardExpiryDismissal.BytesTellCardsApart` | packages/client/src/lib/cardExpiryDismissal.ts:24-44 | So are the UTF-8 bytes that are hashed: only the hash itself can make two sets of cards collide. |
| `Base64.UrlRoundTrip` | packages/client/src/lib/accessToken.ts:24-27 | Every byte string survives unpadded base64url, the alphabet swap, the restored padding and `atob`. |
| `Base64.DigitsDecodeIff` | packages/client/src/lib/accessToken.ts:24-27 | A string of base64url digits decodes if and only if none stands alone after the groups of four. |
| `Base64.ForeignCharacterDoesNotDecode` | packages/client/src/lib/accessToken.ts:28-33 | A text with a character of neither alphabet, no space and no equals sign does not decode. |
| `Base64.SpaceIsIgnored` | packages/client/src/lib/accessToken.ts:28-28 | White space is ignored by `atob`, wherever it is. |
| `AccessToken.TokenRoundTrip` | packages/client/src/lib/accessToken.ts:18-34 | A payload put in a three-part token reaches the JSON parser byte for byte. |
| `AccessToken.DecodesIff` | packages/client/src/lib/accessToken.ts:18-34 | A token decodes if and only if it is exactly three parts around a payload that parses to an object, and then to that object. |
| `AccessToken.UsableIff` | packages/client/src/lib/accessToken.ts:18-75 | A token is usable if and only if it is exactly three parts around a payload that decodes to an object with a finite expiry more than 60 s away. |
| `AccessToken.UnusableStaysUnusable` | packages/client/src/lib/accessToken.ts:62-75 | Once unusable, a token stays so. |
| `AccessToken.UndecodableIsUnusable` | packages/client/src/lib/accessToken.ts:11-13 | A token that is not exactly three parts around a payload that decodes is never usable. |
| `UserSettings.EveryRunKeepsInv` | packages/client/src/hooks/useUserSettings.ts:123-156 | In every run the fetch in flight is the newest one and started after the last drop, and every cached value keeps both lock timeouts within a minute and a day. |
| `UserSettings.InFlightIsGuarded` | packages/client/src/hooks/useUserSettings.ts:225-268 | At every point of every run: while a fetch is in flight none starts, and exactly its own end or a change of user clears it: an older one finishing never does. |
| `UserSettings.CachedTimeoutsOutlastThePoll` | packages/client/src/hooks/useUserSettings.ts:94-108 | Whatever numbers arrive, NaN and the infinities included, the deadlines they set are finite and beyond the 20 s poll. |
| `UserSettings.ProfileIsCachedAsStored` | packages/client/src/hooks/useUserSettings.ts:104-108 | A profile is cached as it is stored: a timeout or delay of one minute to a day is kept, any other is the default, and a failure changes nothing. |
| `UserSettings.ConcurrentConsumersShareOneFetch` | packages/client/src/hooks/useUserSettings.ts:125-129 | However many consumers mount on a cold cache, one fetch is started, and only in an unlocked session. |
| `UserSettings.FailedFetchIsTriedAgain` | packages/client/src/hooks/useUserSettings.ts:253-267 | Once a failed fetch has ended the next consumer starts another. |
| `UserSettings.ClosedSessionFetchesNothing` | packages/client/src/hooks/useUserSettings.ts:167-173 | From a lock or a sign-out until the store changes again no fetch is started, whatever is invalidated or mounted. |
| `UserSettings.SameTabInvalidationFetchesOnce` | packages/client/src/hooks/useUserSettings.ts:274-288 | However many consumers are mounted, a same-tab invalidation starts one fetch. |
| `UserSettings.CrossTabInvalidationFetchesForEach` | packages/client/src/hooks/useUserSettings.ts:184-193 | Another tab's invalidation starts one fetch for every mounted consumer. |
| `UserSettings.FreshRunIff` | packages/client/src/hooks/useUserSettings.ts:228-257 | The cached value dates from after the last drop at every point of a run if and only if every profile arrived for the fetch then in flight. |
| `UserSettings.OwnedRunIff` | packages/client/src/hooks/useUserSettings.ts:123-156 | The cached value was asked for by the account it is cached for, at every point of a run, if and only if no profile arrived that another account asked for. |
| `UserSettings.RenderShowsOwnSettings` | packages/client/src/hooks/useUserSettings.ts:138-156 | With no such profile, what a consumer reads as it renders was asked for by the account signed in. |
| `UserSettings.LateAnswerIsCachedForTheNextUser` | packages/client/src/hooks/useUserSettings.ts:252-252 | A run in which one account's answer is cached for the account signed in after it: neither fresh nor its own. |
| `UserSettingsHook.SettingsModule.FetchSettings` | packages/client/src/hooks/useUserSettings.ts:225-259 | A fetch starts unless one is in flight. |
| `UserSettingsHook.SettingsModule.Receive` | packages/client/src/hooks/useUserSettings.ts:229-256 | An answer is clamped and cached; a failure leaves the cache as it is. |
| `UserSettingsHook.SettingsModule.Finish` | packages/client/src/hooks/useUserSettings.ts:260-267 | The end of a fetch clears the shared pointer only if it is still its own. |
| `UserSettingsHook.SettingsModule.RenderHook` | packages/client/src/hooks/useUserSettings.ts:149-156 | A change of user drops the cache and the fetch in flight. |
| `UserSettingsHook.SettingsModule.ClearSettingsCache` | packages/client/src/hooks/useUserSettings.ts:274-288 | The cache is dropped, then every subscribed consumer asks again. |
| `UserSettingsHook.SettingsModule.DispatchStorageEvent` | packages/client/src/hooks/useUserSettings.ts:185-193 | Each consumer's handler drops the cache and the fetch in flight, then asks again. |
| `ConnectionStatus.WritersOnlyAdvance` | packages/client/src/hooks/useConnectionStatus.ts:29-34 | In every run the number of the signal that last wrote the flag only grows. |
| `ConnectionStatus.NothingIsWrittenAfterAnUnmount` | packages/client/src/hooks/useConnectionStatus.ts:90-98 | Whatever came before an unmount and whatever follows it, the flag and its writer stay as they were. |
| `ConnectionStatus.SettledFlagIsTheNewestSignal` | packages/client/src/hooks/useConnectionStatus.ts:38-68 | Once no probe is in flight the flag is the outcome of the newest signal, in whatever order the probes settled. |
| `ConnectionStatus.SlowProbeIsIgnored` | packages/client/src/hooks/useConnectionStatus.ts:40-42 | A probe that is not the newest signal changes nothing when it settles. |
| `ConnectionStatus.ConnectionMonitor.StartCheck` | packages/client/src/hooks/useConnectionStatus.ts:38-51 | A check takes the next number, and without a connection reports offline at once. |
| `ConnectionStatus.ConnectionMonitor.FinishCheck` | packages/client/src/hooks/useConnectionStatus.ts:53-67 | A settled probe is applied only if it is the newest signal and the hook is mounted. |
| `ConnectionStatus.ConnectionMonitor.HandleOffline` | packages/client/src/hooks/useConnectionStatus.ts:77-81 | An offline event takes the next number and reports offline. |
| `ClipboardCountdown.EveryRunKeepsInv` | packages/client/src/hooks/useClipboardCountdown.ts:31-117 | In every run one toast is up exactly while the mode is not idle, at most one interval is live, and only in countdown mode for the deadline shown; after the cleanup there is neither. |
| `ClipboardCountdown.ShownSecondsBracketTheRest` | packages/client/src/hooks/useClipboardCountdown.ts:52-54 | While the deadline is ahead the seconds shown are at least what is left and less than one more. |
| `ClipboardCountdown.TickShowsTheRest` | packages/client/src/hooks/useClipboardCountdown.ts:99-106 | In every run a tick before the deadline on screen shows the whole seconds then left, rounded up; from the deadline on it ends the interval. |
| `ClipboardCountdown.NumberNeverGrows` | packages/client/src/hooks/useClipboardCountdown.ts:99-106 | With a clock that is never set back, the number shown for one deadline never grows. |
| `ClipboardCountdown.CleanupIsFinal` | packages/client/src/hooks/useClipboardCountdown.ts:109-116 | After the cleanup there is no toast and no interval, and none is made, whatever follows. |
| `ClipboardCountdown.CountsDown` | packages/client/src/hooks/useClipboardCountdown.ts:91-106 | The seconds never grow, and a toast left alone outlasts its deadline by at least one second and less than two. |
| `ClipboardCountdown.FollowsTheGuard` | packages/client/src/hooks/useClipboardCountdown.ts:56-107 | No notice once the erase is confirmed, a warning when it was refused, otherwise the guard's own deadline, a new one replacing the old and the same one left alone. |
| `ClipboardCountdown.CountdownEffect.ApplyGuard` | packages/client/src/hooks/useClipboardCountdown.ts:56-107 | The effect's reaction to a guard state is the specified one. |
| `ClipboardCountdown.CountdownEffect.HandleTick` | packages/client/src/hooks/useClipboardCountdown.ts:99-106 | A tick shows the seconds left, or stops the interval when there are none. |
| `DocumentSelection.ModeKeyIsInjective` | packages/client/src/hooks/useDocumentSelection.ts:7-10 | Two lists never share a key, whatever a folder's id is. |
| `DocumentSelection.ActsOnVisibleChosenRows` | packages/client/src/hooks/useDocumentSelection.ts:58-58 | A bulk action works on exactly the visible rows that are selected. |
| `DocumentSelection.SelectionIsOfThisList` | packages/client/src/hooks/useDocumentSelection.ts:41-68 | In every run, with the callbacks of the list on screen, an id is selected exactly when its history since the list last changed says so; a change empties the selection and a return never restores it. |
| `DocumentSelection.SwitchEmptiesIff` | packages/client/src/hooks/useDocumentSelection.ts:50-56 | In every run, stale callbacks included, changing lists shows exactly what its history keeps for the new list, so nothing if and only if nothing is kept. |
| `DocumentSelection.SelectionIsWhatIsKept` | packages/client/src/hooks/useDocumentSelection.ts:50-56 | In every run, stale callbacks included, an id is selected exactly when its history keeps it for the list on screen. |
| `DocumentSelection.StaleCallbackIsRemembered` | packages/client/src/hooks/useDocumentSelection.ts:60-68 | A callback kept from an earlier list writes under that list's key, and returning to it shows what it picked. |
| `DocumentSelection.RunLeavesFailedAndNotSent` | packages/client/src/components/documents/DocumentSelectionBar.tsx:95-99 | After any finished run, whatever was picked meanwhile, the rows it acted on that are still selected are exactly the failed and the not sent ones, and every other id is left as it was. |
| `DocumentSelection.SelectionHook.ToggleRow` | packages/client/src/hooks/useDocumentSelection.ts:70-80 | A toggle adds or removes one id, from an empty selection if the list has changed. |
| `DocumentSelection.SelectionHook.RemoveRows` | packages/client/src/hooks/useDocumentSelection.ts:93-99 | Rows are dropped from whatever is selected now, under whatever list. |
| `DocumentSelection.SelectionHook.VisibleSelection` | packages/client/src/hooks/useDocumentSelection.ts:53-58 | The filter gives the selected rows read through the key. |
| `TagField.TagsStayWithin` | packages/client/src/hooks/useTagField.ts:44-79 | In every run no tag occurs more often than once, or than it was given, and the list never grows past the limit, or what was given. |
| `TagField.TagsStayDistinct` | packages/client/src/hooks/useTagField.ts:55-79 | An editor given distinct tags keeps them distinct. |
| `TagField.TagsAreTrimmed` | packages/client/src/hooks/useTagField.ts:37-43 | Given trimmed tags, every tag stays trimmed and not empty. |
| `TagField.TypedTagIsAddedIff` | packages/client/src/hooks/useTagField.ts:50-69 | At any point typing a text and pressing Add appends it, trimmed, if and only if it is a new tag and there is room; otherwise the text stays and the notice says why. |
| `TagField.RemoveTakesItOut` | packages/client/src/hooks/useTagField.ts:71-73 | At any point removing a tag takes it out and leaves everything else, in its place. |
| `TagField.RemoveUndoesAdd` | packages/client/src/hooks/useTagField.ts:55-73 | Removing a tag just added gives back the tags there were. |
| `TagField.ResetOpensAfresh` | packages/client/src/hooks/useTagField.ts:75-79 | A reset is an editor just opened: what is saved next is what it was reset to. |
| `JsText.TrimIff` | packages/client/src/hooks/useTagField.ts:56-56 | What `trim` gives is the one text without space at either end that spaces were put around. |
| `TagField.CommitKeepsOrExplains` | packages/client/src/hooks/useTagField.ts:28-34 | A save is refused exactly when the typed tag is new and the list is full, and then nothing but the notice changes; otherwise it holds every tag and the typed one. |
| `TagField.AddThenCommitSavesTheSame` | packages/client/src/hooks/useTagField.ts:55-97 | Pressing Add first never changes what is saved; an Add that does not add keeps the draft and says why. |
| `TagField.CommitIsIdempotent` | packages/client/src/hooks/useTagField.ts:81-97 | Saving twice is saving once. |
| `TagField.SavedIsWhatStays` | packages/client/src/hooks/useTagField.ts:81-97 | At any point of a run the editor shows after a save what was saved, and after a refusal what it showed; saving again changes nothing. |
| `TagField.TagEditor.AddTag` | packages/client/src/hooks/useTagField.ts:55-69 | Add changes the editor as specified. |
| `TagField.TagEditor.Remove` | packages/client/src/hooks/useTagField.ts:71-73 | Removing filters the tag out and leaves the rest in order. |
| `TagField.TagEditor.CommitDraft` | packages/client/src/hooks/useTagField.ts:81-97 | Saving returns and leaves what is specified. |
| `BackupSignature.ResolveBackupSignature` | packages/client/src/lib/backupSignature.ts:123-146 | The loop's verdict comes from the first key that agrees, a throwing check counting as a disagreement, and is a mismatch exactly when none does. |
| `BackupSignature.FirstAgreeingKeyDecides` | packages/client/src/lib/backupSignature.ts:103-109 | The verdict is the classification of the first agreeing key, wherever it is. |
| `BackupSignature.VerifiedNeedsTheAccount` | packages/client/src/lib/backupSignature.ts:88-95 | In whatever order the keys come, a file is verified only if some key of the account agrees. |
| `BackupSignature.VerifiedIff` | packages/client/src/lib/backupSignature.ts:96-101 | With the account's keys first, a file is verified if and only if it is signed and some key of the account agrees. |
| `BackupSignature.OtherVerdictsIff` | packages/client/src/lib/backupSignature.ts:96-101 | With the account's keys first, self-signed means only a key of the file agrees, and a mismatch that none does. |
| `BackupSignature.FileKeysChangeNothing` | packages/client/src/lib/backupSignature.ts:103-109 | Keys a file supplies, appended, neither make a file verified nor stop it being so. |
| `BackupSignature.FileKeyFirstIsSelfSigned` | packages/client/src/lib/backupSignature.ts:106-109 | With the file's key first a file both keys agree with is self-signed. |

## Left out

- React rendering, event registration and toasts: only the state each handler reads and writes is kept, and a list change of the selection is its render and its effect in one step.
- Unmounting the auto-lock hook, and an unlock without a remount: one mount is one session.
- The consumers' own copies of the settings, and the clipboard timeout, theme and password options among them: the cache, the lock timeouts and the fetches are modelled.
- `moveRow`, `tagRow` and the other row actions, and the wording of the bulk report: they would only add easy members.
- The reason texts of failed rows: the failure itself is kept.
- `describeCardExpiry`, `cardExpiryHint` and `readItemCardExpiry`: sentences and field checks around the parts that are modelled.
- The storage of a dismissed fingerprint, which may fail: a single comparison.
- CardExpiryDismissal.Sort: orders characters by scalar value where JavaScript orders UTF-16 code units, so the hash of a list with characters beyond the basic plane may differ in value; the lemmas need only that the order is total.
- CardExpiryDismissal.Utf8: a lone surrogate, which `TextEncoder` replaces, is not a character here.
- Floating point: dividing and multiplying are over the reals, where the source's doubles are exact or far from a rounding boundary.
- `mapWithConcurrency` for anything but a bulk action, and the store and network calls behind `perRow`: any outcome is allowed.
- Web Crypto, JSON parsing, HMAC verification, key rotation, document framing and the server.
