# The `deny` onboarding command, modelled in Dafny

Frostpaw is a Discord bot that walks new staff through onboarding. A
candidate first claims a test bot, then decides on it. The `deny` command
records that decision:

- it looks up the server's onboarding id;
- it reads the candidate's onboarding state from the `staff_onboardings` table;
- from `Claimed`, with the configured test bot as target and a reason of at
  least 30 bytes, it moves the record to `InQuiz` with a verdict
  `{action: "deny", reason, end_review_time}`;
- it then kicks the test bot, acknowledges, waits two seconds, and sends the
  candidate a link to the quiz.

Every other case returns an error or a warning reply and leaves the table as
it was.

The model is a pure function from the store, the configuration, one
invocation, the result of the onboarding-id lookup and a set of failing
calls to a run. A run is the command's result, the external calls it
completed in order, and the store afterwards.

- `utf8.dfy` (`Utf8`): `reason.len()` is the UTF-8 byte length of the
  reason (RFC 3629, section 3), not its number of characters.
- `records.dfy` (`Records`): the table as a map keyed by (user id,
  onboarding id). It has the `fetch_one` read, where a missing row is an
  error, and the `UPDATE`. The `UPDATE` names the row only and never looks
  at the stored state.
- `texts.dfy` (`Texts`): the literal error and message texts, and the quiz
  link `<panel_url>/onboarding/quiz/<onboarding_id>`.
- `effects.dfy` (`Effects`): the external calls, the errors, and `Execute`.
  `Execute` runs a list of calls, each awaited with `?`. The first failing
  call ends the command, and earlier calls (in particular the write) stay
  done.
- `deny.dfy` (`Deny`): the command itself and its properties.

Checking the reason's length in bytes differs from what the warning asks
for ("at least 30 characters"). Any reason of 30 characters passes. A
reason of eight four-byte characters also passes (`Utf8.CharsBoundBytes`,
`Utf8.FourByteCharsPassByteBound`).

The code has no compare-and-set write that would let only one of two
concurrent denials succeed: its `UPDATE` is unconditional, and the model
follows the code. Two denials that both read
`Claimed` before either writes both commit, and the later verdict replaces
the earlier one (`Deny.InterleavedDenialsBothCommit`). Nothing else in the
model invents a conflict outcome.

## Model

| member | source | states |
|---|---|---|
| Utf8.ByteLen | src/cmds/deny.rs:51 | the length the reason check compares is at least the character count and at most four times it, and equals it exactly when the reason is all ASCII |
| Utf8.ByteLenAppend | src/cmds/deny.rs:51 | byte length is additive over concatenation |
| Utf8.CharsBoundBytes | src/cmds/deny.rs:51 | any reason of at least 30 characters passes the 30-byte check |
| Utf8.FourByteCharsPassByteBound | src/cmds/deny.rs:51-57 | eight characters of U+1F600 are 32 bytes, so they pass although the reply asks for 30 characters |
| Records.SelectState | src/cmds/deny.rs:22-30 | the read yields the stored state exactly when the (author, onboarding id) row exists, and otherwise fails |
| Records.Update | src/cmds/deny.rs:67-79 | the write sets state and verdict of the named row whatever its state was; no other row changes and no row is added |
| Records.UpdateLastWins | src/cmds/deny.rs:67-79 | a second write to the same row replaces the first one's state and verdict |
| Records.UpdateIdempotent | src/cmds/deny.rs:67-79 | repeating the same write changes nothing further |
| Texts.QuizUrl | src/cmds/deny.rs:99-102 | the quiz link is the panel URL, then `/onboarding/quiz/`, then the onboarding id: it starts with the panel URL and ends with the id |
| Texts.QuizUrlRoundTrip | src/cmds/deny.rs:99-102 | the onboarding id can be read back from the quiz link built for it |
| Texts.QuizUrlInjective | src/cmds/deny.rs:99-102 | different onboarding ids give different quiz links |
| Texts.NotStartedText | src/cmds/deny.rs:34 | the `Pending` error contains `<prefix>queue` |
| Texts.AlreadyDecidedText | src/cmds/deny.rs:108-117 | the `InQuiz` error contains the quiz link for this onboarding id |
| Texts.QuizAnnouncement | src/cmds/deny.rs:95-103 | the final message contains the quiz link for this onboarding id |
| Effects.Message | src/cmds/deny.rs:18-118 | the command words its own errors (missing onboarding id, wrong state, missing guild); database and chat errors pass through with the library's text; the `Pending` error names `<prefix>queue` and the `InQuiz` error carries the quiz link |
| Effects.Execute | src/cmds/deny.rs:67-104 | calls run in order up to the first failure or early return; the run succeeds only if every call completed; the store holds exactly the writes of the completed calls |
| Effects.ApplyAllReadOnly | src/cmds/deny.rs:37-65 | calls that include no write leave the store unchanged |
| Deny.AdmissibleReasonBounds | src/cmds/deny.rs:37-51 | the guards admit only the test bot as target in `Claimed`; in characters they admit reasons of as few as eight characters and every reason of thirty or more |
| Deny.Plan | src/cmds/deny.rs:32-119 | the body after the read: outside `Claimed` it returns an error at once; a wrong target gets the "Invalid Bot" warning before the reason is looked at; the write is planned, and planned first, exactly when every guard passes (`Deny.DenyRejects`, `Deny.DenyWarns` and `Deny.DenyCommits` state the rest) |
| Deny.Deny | src/cmds/deny.rs:15-120 | without an onboarding id the command fails before any read or write: with the lookup's own error when the lookup failed, and with "Onboarding ID not found" when it found none; every completed call starts with the read of the author's row; a failing read returns the database's error unchanged, before any other call and with the store unchanged; a missing row fails with the database's row-not-found error and the store unchanged |
| Deny.DenyRejects | src/cmds/deny.rs:32-119 | `Pending` fails with the queue hint, `InQuiz` with the quiz link, any other non-`Claimed` state with the generic error; only the read happens and the store is unchanged |
| Deny.DenyWarns | src/cmds/deny.rs:36-65 | in `Claimed`, a wrong target gets "Invalid Bot" whatever the reason, and otherwise a short reason gets "Invalid Reason"; the result is `Ok(())` with no write and no kick |
| Deny.DenyCommits | src/cmds/deny.rs:67-106 | when every guard passes, the calls follow read, write, kick, acknowledgement, two-second wait, quiz message, up to the first failure; once the write is made the row is denied for good; success means all calls completed |
| Deny.DenyCommitsStopsAtFault | src/cmds/deny.rs:81-104 | a committed denial that fails stops at exactly the call that returned the error |
| Deny.DenyContract | src/cmds/deny.rs:32-119 | the store changes exactly when all guards pass and neither read nor write fails; only the author's row changes, and only to `InQuiz` with the deny verdict; calls follow the commit order; without a write the command makes only the read and at most one warning, so it never kicks |
| Deny.DenySucceeds | src/cmds/deny.rs:67-106 | with valid inputs and no failing call, the row becomes `InQuiz` with verdict `{deny, reason, now}` and every other row keeps its value; the calls are read, write, kick of the test bot with the protocol audit reason, acknowledgement, `Sleep(2)`, and the message containing the quiz link |
| Deny.DenyCommitsDoneIff | src/cmds/deny.rs:67-106 | with a server to kick from, a committed denial returns `Ok(())` exactly when none of read, write, kick, acknowledgement or quiz message fails; each of them failing ends the command with an error |
| Deny.DenyKickFails | src/cmds/deny.rs:81-89 | when the kick fails the command returns that error, but the row stays denied |
| Deny.DenyAfterDenialRejected | src/cmds/deny.rs:108-117 | after a committed denial, another deny on the same row fails with the quiz link and keeps the first verdict |
| Deny.InterleavedDenialsBothCommit | src/cmds/deny.rs:22-79 | two denials that both read `Claimed` before either writes both succeed, and the row ends with the second verdict; there is no conflict outcome |

## Left out

- Discord and poise plumbing: embed titles, colours and layout. The two warning embeds are the tokens `InvalidBot` and `InvalidReason`. Messages sent with `say` are modelled by their text.
- The SQL layer and connection pool. They are replaced by a map from (user id, onboarding id) to state and verdict. Database errors are failures of the `Read` or `Write` call.
- The two-second `tokio::time::sleep`. It is the event `Sleep(2)`, which marks its place in the call order and never fails. `Utc::now()` is the invocation's `now` input.
- Parsing the `state` column into `OnboardState`. The file that defines the enum and its parser, `src/states.rs`, is not part of this model. The store holds parsed states, and every variant other than `Pending`, `Claimed` and `InQuiz` is `Other(name)`.
- The `checks::is_onboardable` and `checks::setup_onboarding` guards. They run before the command body and are not part of this model.
- `crate::setup::get_onboarding_id`. Its answer (error, none, or an id) is the `Lookup` input.
- `CONFIG`. It is the `Config` input, holding the test bot id and the panel URL.
- `ctx.prefix()` and `ctx.guild_id()`. They are fields of the invocation.
- Concurrency. The model runs one call at a time. The race between two denials is stated only through `Deny.InterleavedDenialsBothCommit`, by running the two write phases one after the other on the store both read from.
- Verdict JSON serialization. The verdict is a record of action, reason and timestamp. The 64-bit width of the timestamp is not modelled.
